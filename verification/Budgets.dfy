/** Daily budgets over whole runs of the ledger: per key, and per owner address across its keys. */
module Budgets {
  import opened Numbers
  import opened Wrappers
  import opened ExactlyOnce
  import Ledger
  import SingleWriter

  datatype Scope = OfKey(keyID: string) | OfOwner(address: string)

  /** The request draws on this budget. */
  predicate Covers(sc: Scope, r: Ledger.Request) {
    match sc
    case OfKey(k) => r.keyID == k
    case OfOwner(a) => r.addressSpendKey == a && r.addressDailyCap.Positive()
  }

  function CapFor(sc: Scope, r: Ledger.Request): Float {
    match sc
    case OfKey(_) => r.dailyCap
    case OfOwner(_) => r.addressDailyCap
  }

  /** What the books say has been spent on a day. */
  function Meter(b: Ledger.Books, sc: Scope, day: int64): Float {
    match sc
    case OfKey(k) => SingleWriter.SpentOn(b.WriterOf(k), day)
    case OfOwner(a) => Ledger.SpentOn(b.SpendOf(a), day)
  }

  /** The day the books last charged. */
  function Marked(b: Ledger.Books, sc: Scope): int64 {
    match sc
    case OfKey(k) => b.WriterOf(k).spendDay
    case OfOwner(a) => b.SpendOf(a).day
  }

  predicate Covered(s: Step, sc: Scope) { s.Authorize? && Covers(sc, s.req) }

  predicate Charged(steps: seq<Step>, i: nat, sc: Scope)
    requires i < |steps|
  {
    Covered(steps[i], sc) && Fresh(steps, i)
  }

  function Amount(notional: Float): real { if notional.Fin? then notional.r else 0.0 }

  /** The notional of the fresh grants of one UTC day. */
  function Total(steps: seq<Step>, sc: Scope, day: int64): real {
    if steps == [] then 0.0
    else
      var n := |steps| - 1;
      Total(steps[..n], sc, day)
      + if Charged(steps, n, sc) && DayOf(steps[n].req.nowMs) == day then Amount(steps[n].req.notional) else 0.0
  }

  /** From one fresh grant to the next the UTC day does not go backwards. */
  ghost predicate DaysForward(steps: seq<Step>, sc: Scope) {
    forall i, j :: 0 <= i < j < |steps| && Charged(steps, i, sc) && Charged(steps, j, sc) ==>
      DayOf(steps[i].req.nowMs) <= DayOf(steps[j].req.nowMs)
  }

  ghost predicate DaysUpTo(steps: seq<Step>, sc: Scope, day: int64) {
    0 <= day && forall i :: 0 <= i < |steps| && Charged(steps, i, sc) ==> DayOf(steps[i].req.nowMs) <= day
  }

  /** Every request on this budget brings the same cap. */
  ghost predicate CappedAt(steps: seq<Step>, sc: Scope, cap: Float) {
    forall i :: 0 <= i < |steps| && Covered(steps[i], sc) ==> CapFor(sc, steps[i].req) == cap
  }

  // ---- one step ----

  /** A fresh grant adds its notional to its day, wipes other days, and stays under its cap. */
  ghost predicate Adds(b: Ledger.Books, b': Ledger.Books, sc: Scope, r: Ledger.Request) {
    var day := DayOf(r.nowMs);
    && 0 < r.nowMs && SingleWriter.ValidNotional(r.notional)
    && Marked(b', sc) == day
    && Meter(b', sc, day) == Meter(b, sc, day).Add(r.notional)
    && (forall d: int64 :: d != day ==> Meter(b', sc, d) == Fin(0.0))
    && (CapFor(sc, r).Positive() ==> !CapFor(sc, r).Lt(Meter(b', sc, day)))
  }

  lemma WriterAdds(b: Ledger.Books, r: Ledger.Request, wall: int64)
    requires Ledger.AuthorizeBooks(b, r, wall).1.Ok? && !Ledger.AuthorizeBooks(b, r, wall).1.value.duplicate
    ensures Adds(b, Ledger.AuthorizeBooks(b, r, wall).0, OfKey(r.keyID), r)
  {
    Ledger.AuthorizeMeaning(b, r, wall);
    hide *;
    WriterAddsFrom(b, Ledger.AuthorizeBooks(b, r, wall).0, r, Ledger.AuthorizeBooks(b, r, wall).1.value.nonce);
  }

  lemma WriterAddsFrom(b: Ledger.Books, b': Ledger.Books, r: Ledger.Request, nonce: uint64)
    requires (b'.WriterOf(r.keyID), Ok(nonce)) == SingleWriter.Decide(b.WriterOf(r.keyID), r.ForWriter())
    ensures Adds(b, b', OfKey(r.keyID), r)
  {
    hide SingleWriter.Decide, SingleWriter.SpentOn, Ledger.Books.WriterOf, DayOf, SingleWriter.ValidNotional;
    hide Float.Lt, Float.Add, Float.Positive, Float.Negative;
    SingleWriter.DecideAccepts(b.WriterOf(r.keyID), r.ForWriter());
    SingleWriter.AcceptCharges(b.WriterOf(r.keyID), r.ForWriter());
    DecideMarks(b.WriterOf(r.keyID), r.ForWriter());
  }

  lemma DecideMarks(s: SingleWriter.State, r: SingleWriter.Request)
    requires SingleWriter.Decide(s, r).1.Ok?
    ensures SingleWriter.Decide(s, r).0.spendDay == DayOf(r.nowMs)
  {
  }

  lemma SpendAdds(s: Ledger.SpendState, notional: Float, cap: Float, nowMs: int64)
    requires Ledger.DecideSpend(s, notional, cap, nowMs).1
    ensures var s' := Ledger.DecideSpend(s, notional, cap, nowMs).0;
      var day := DayOf(nowMs);
      && s'.day == day && Ledger.SpentOn(s', day) == Ledger.SpentOn(s, day).Add(notional)
      && (forall d: int64 :: d != day ==> Ledger.SpentOn(s', d) == Fin(0.0))
      && (cap.Positive() ==> !cap.Lt(Ledger.SpentOn(s', day)))
  {
  }

  lemma OwnerAdds(b: Ledger.Books, r: Ledger.Request, wall: int64)
    requires Ledger.AuthorizeBooks(b, r, wall).1.Ok? && !Ledger.AuthorizeBooks(b, r, wall).1.value.duplicate
    requires r.addressDailyCap.Positive()
    ensures Adds(b, Ledger.AuthorizeBooks(b, r, wall).0, OfOwner(r.addressSpendKey), r)
  {
    Ledger.AuthorizeMeaning(b, r, wall);
    hide *;
    OwnerAddsFrom(b, Ledger.AuthorizeBooks(b, r, wall).0, r, Ledger.AuthorizeBooks(b, r, wall).1.value.nonce);
  }

  lemma OwnerAddsFrom(b: Ledger.Books, b': Ledger.Books, r: Ledger.Request, nonce: uint64)
    requires (b'.WriterOf(r.keyID), Ok(nonce)) == SingleWriter.Decide(b.WriterOf(r.keyID), r.ForWriter())
    requires (b'.SpendOf(r.addressSpendKey), true)
      == Ledger.DecideSpend(b.SpendOf(r.addressSpendKey), r.notional, r.addressDailyCap, r.nowMs)
    ensures Adds(b, b', OfOwner(r.addressSpendKey), r)
  {
    hide SingleWriter.Decide, SingleWriter.SpentOn, Ledger.DecideSpend, Ledger.SpentOn;
    hide Ledger.Books.WriterOf, Ledger.Books.SpendOf, DayOf, SingleWriter.ValidNotional;
    hide Float.Lt, Float.Add, Float.Positive, Float.Negative;
    SingleWriter.DecideAccepts(b.WriterOf(r.keyID), r.ForWriter());
    SpendAdds(b.SpendOf(r.addressSpendKey), r.notional, r.addressDailyCap, r.nowMs);
  }

  ghost predicate Still(b: Ledger.Books, b': Ledger.Books, sc: Scope) {
    Marked(b', sc) == Marked(b, sc) && forall d: int64 :: Meter(b', sc, d) == Meter(b, sc, d)
  }

  lemma NothingElseMoves(b: Ledger.Books, s: Step, sc: Scope)
    requires !(Covered(s, sc) && Next(b, s).1.grant.Ok? && !Next(b, s).1.grant.value.duplicate)
    ensures Still(b, Next(b, s).0, sc)
  {
    hide SingleWriter.Decide, SingleWriter.SpentOn, Ledger.DecideSpend, Ledger.SpentOn, SingleWriter.ValidNotional;
    hide Float.Lt, Float.Add, Float.Negative;
    if s.Authorize? {
      Ledger.AuthorizeMeaning(b, s.req, s.wall);
      hide Ledger.AuthorizeBooks, Ledger.Books.WriterOf, Ledger.Books.SpendOf;
      var b' := Next(b, s).0;
      if sc.OfOwner? && s.req.addressSpendKey == sc.address && b'.addrSpend == b.addrSpend {
        SameSpend(b, b', sc.address);
      }
    }
  }

  lemma SameSpend(b: Ledger.Books, b': Ledger.Books, a: string)
    requires b.addrSpend == b'.addrSpend
    ensures b.SpendOf(a) == b'.SpendOf(a)
  {
  }

  lemma StepMeaning(steps: seq<Step>, sc: Scope)
    requires steps != []
    ensures var n := |steps| - 1;
      var b, b' := Run(steps[..n]), Run(steps);
      if Charged(steps, n, sc) then Adds(b, b', sc, steps[n].req) else Still(b, b', sc)
  {
    var n := |steps| - 1;
    var b, s := Run(steps[..n]), steps[n];
    hide Adds, Still, Ledger.AuthorizeBooks, Ledger.ReconcileBooks;
    if Charged(steps, n, sc) {
      WriterAdds(b, s.req, s.wall);
      if sc.OfOwner? { OwnerAdds(b, s.req, s.wall); }
    } else {
      NothingElseMoves(b, s, sc);
    }
  }

  lemma Prefix(steps: seq<Step>, n: nat, i: nat, sc: Scope)
    requires i < n <= |steps|
    ensures Charged(steps[..n], i, sc) == Charged(steps, i, sc) && steps[..n][i] == steps[i]
  {
    assert steps[..n][..i] == steps[..i];
    hide Run, Next;
  }

  lemma PrefixKeeps(steps: seq<Step>, n: nat, sc: Scope, cap: Float)
    requires n <= |steps|
    ensures DaysForward(steps, sc) ==> DaysForward(steps[..n], sc)
    ensures CappedAt(steps, sc, cap) ==> CappedAt(steps[..n], sc, cap)
    ensures forall d: int64 :: DaysUpTo(steps, sc, d) ==> DaysUpTo(steps[..n], sc, d)
    ensures DaysForward(steps, sc) && n < |steps| && Charged(steps, n, sc) && 0 < steps[n].req.nowMs ==>
      DaysUpTo(steps[..n], sc, DayOf(steps[n].req.nowMs))
  {
    forall i: nat | i < n ensures Charged(steps[..n], i, sc) == Charged(steps, i, sc) && steps[..n][i] == steps[i] {
      Prefix(steps, n, i, sc);
    }
    if n < |steps| && Charged(steps, n, sc) && 0 < steps[n].req.nowMs { assert 0 <= DayOf(steps[n].req.nowMs); }
    hide Charged, Covered, DayOf;
  }

  // ---- whole runs ----

  ghost predicate MeterAgrees(steps: seq<Step>, sc: Scope, day: int64) {
    Marked(Run(steps), sc) <= day && forall d: int64 :: d >= day ==> Meter(Run(steps), sc, d) == Fin(Total(steps, sc, d))
  }

  /** Conservation: what the books have on a day is what was freshly granted that day. */
  lemma {:induction false} BooksCountGrants(steps: seq<Step>, sc: Scope, day: int64)
    requires DaysForward(steps, sc) && DaysUpTo(steps, sc, day)
    ensures MeterAgrees(steps, sc, day)
  {
    if steps != [] {
      var n := |steps| - 1;
      StepMeaning(steps, sc);
      PrefixKeeps(steps, n, sc, NaN);
      assert Charged(steps, n, sc) ==> DayOf(steps[n].req.nowMs) <= day;
      hide Run, Charged, DayOf, Meter, Marked, DaysForward, DaysUpTo, Covered;
      if Charged(steps, n, sc) {
        BooksCountGrants(steps[..n], sc, DayOf(steps[n].req.nowMs));
        AddedUp(steps, sc, day);
      } else {
        BooksCountGrants(steps[..n], sc, day);
      }
    }
  }

  lemma AddedUp(steps: seq<Step>, sc: Scope, day: int64)
    requires steps != [] && Charged(steps, |steps| - 1, sc) && DayOf(steps[|steps| - 1].req.nowMs) <= day
    requires var n := |steps| - 1;
      Adds(Run(steps[..n]), Run(steps), sc, steps[n].req) && MeterAgrees(steps[..n], sc, DayOf(steps[n].req.nowMs))
    ensures MeterAgrees(steps, sc, day)
  {
    var n := |steps| - 1;
    var today := DayOf(steps[n].req.nowMs);
    hide Run, Charged, DayOf, Covered;
    forall d: int64 | d >= day ensures Meter(Run(steps), sc, d) == Fin(Total(steps, sc, d)) {
      assert Marked(Run(steps[..n]), sc) <= today;
      if d != today {
        LaterIsZero(Run(steps[..n]), sc, d);
      }
    }
    hide Meter, Marked;
  }

  lemma LaterIsZero(b: Ledger.Books, sc: Scope, d: int64)
    requires Marked(b, sc) < d
    ensures Meter(b, sc, d) == Fin(0.0)
  {
  }

  /** Daily budget: when every request on a budget brings the same positive cap and its UTC days do
      not go backwards, the notional freshly granted on any one day is at most the cap. */
  lemma {:induction false} DailyBudget(steps: seq<Step>, sc: Scope, cap: Float, day: int64)
    requires DaysForward(steps, sc) && CappedAt(steps, sc, cap) && cap.Positive()
    ensures !cap.Lt(Fin(Total(steps, sc, day)))
  {
    if steps != [] {
      var n := |steps| - 1;
      PrefixKeeps(steps, n, sc, cap);
      DailyBudget(steps[..n], sc, cap, day);
      if Charged(steps, n, sc) && DayOf(steps[n].req.nowMs) == day {
        StepMeaning(steps, sc);
        assert CapFor(sc, steps[n].req) == cap;
        assert DaysUpTo(steps, sc, day) by { LastIsLatest(steps, sc); }
        BooksCountGrants(steps, sc, day);
        hide Run, Charged, DayOf, Meter, Marked, DaysForward, DaysUpTo, Covered, CapFor;
      } else {
        hide Run, Charged, DayOf;
      }
    }
  }

  lemma LastIsLatest(steps: seq<Step>, sc: Scope)
    requires steps != [] && DaysForward(steps, sc) && Charged(steps, |steps| - 1, sc)
    requires 0 < steps[|steps| - 1].req.nowMs
    ensures DaysUpTo(steps, sc, DayOf(steps[|steps| - 1].req.nowMs))
  {
    assert 0 <= DayOf(steps[|steps| - 1].req.nowMs);
    hide Charged, Covered, DayOf;
  }

  // ---- the days must not go backwards ----

  /** Ten units under a cap of ten. */
  function Spender(day: int64, cloid: string): Ledger.Request
    requires 0 < day < 1000
  {
    Ledger.Request("k", cloid, [], 0, Fin(10.0), Fin(10.0), "", Fin(0.0), day * DAY_MS)
  }

  lemma SpenderIsGranted(b: Ledger.Books, day: int64, cloid: string)
    requires 0 < day < 1000 && cloid != "" && Ledger.Key("k", cloid) !in b.records
    requires b.WriterOf("k").fence == 0 && b.WriterOf("k").spendDay != day
    ensures var (b', out) := Ledger.AuthorizeBooks(b, Spender(day, cloid), 0);
      && out.Ok? && !out.value.duplicate && b'.WriterOf("k").fence == 0 && b'.WriterOf("k").spendDay == day
      && b'.records.Keys == b.records.Keys + {Ledger.Key("k", cloid)}
  {
    assert DayOf(day * DAY_MS) == day;
    hide DayOf;
  }

  lemma GrantAdds(before: seq<Step>, day: int64, cloid: string, d: int64)
    requires 0 < day < 1000 && cloid != "" && Ledger.Key("k", cloid) !in Run(before).records
    requires Run(before).WriterOf("k").fence == 0 && Run(before).WriterOf("k").spendDay != day
    ensures var steps := before + [Authorize(Spender(day, cloid), 0)];
      && Total(steps, OfKey("k"), d) == Total(before, OfKey("k"), d) + (if d == day then 10.0 else 0.0)
      && Run(steps).WriterOf("k").fence == 0 && Run(steps).WriterOf("k").spendDay == day
      && Run(steps).records.Keys == Run(before).records.Keys + {Ledger.Key("k", cloid)}
  {
    var steps := before + [Authorize(Spender(day, cloid), 0)];
    SpenderIsGranted(Run(before), day, cloid);
    assert DayOf(day * DAY_MS) == day;
    hide Ledger.AuthorizeBooks, DayOf;
    assert steps[..|before|] == before && steps[..|steps| - 1] == before;
  }

  /** A day that comes back after another one starts with a full budget again: here twice the cap
      is granted on day 10. */
  lemma ReturningDayOverspends() returns (steps: seq<Step>)
    ensures CappedAt(steps, OfKey("k"), Fin(10.0)) && Total(steps, OfKey("k"), 10) == 20.0
  {
    GrantAdds([], 10, "a", 10);
    var one := [] + [Authorize(Spender(10, "a"), 0)];
    GrantAdds(one, 11, "b", 10);
    var two := one + [Authorize(Spender(11, "b"), 0)];
    GrantAdds(two, 10, "c", 10);
    steps := two + [Authorize(Spender(10, "c"), 0)];
    hide Run;
  }
}
