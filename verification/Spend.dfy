/** The older pair of stateful guards, a daily spend tracker and a nonce allocator, and that the
    single writer which replaced them answers the same way. */
module Spend {
  import opened Numbers
  import opened Wrappers
  import Nonce
  import SingleWriter

  datatype DaySpend = DaySpend(day: int64, total: Float)

  const NOTHING := DaySpend(0, Fin(0.0))

  function SpentOn(e: DaySpend, day: int64): Float { if e.day != day then Fin(0.0) else e.total }

  /** The entry after a charge, and whether it was taken. A charge over the cap is refused but
      still rolls the entry over to the new day. */
  function Charged(e: DaySpend, notional: Float, dailyCap: Float, nowMs: int64): (DaySpend, bool) {
    if !notional.Fin? || notional.Negative() || dailyCap.Negative() then (e, false)
    else
      var day := DayOf(nowMs);
      var total := SpentOn(e, day);
      if dailyCap.Positive() && dailyCap.Lt(total.Add(notional)) then (DaySpend(day, total), false)
      else (DaySpend(day, total.Add(notional)), true)
  }

  /** A charge adds exactly the notional to its day or adds nothing, and keeps the day under its cap. */
  lemma ChargeMeaning(e: DaySpend, notional: Float, dailyCap: Float, nowMs: int64)
    ensures var (e', ok) := Charged(e, notional, dailyCap, nowMs);
      var day := DayOf(nowMs);
      && (ok <==>
            && SingleWriter.ValidNotional(notional) && !dailyCap.Negative()
            && (dailyCap.Positive() ==> !dailyCap.Lt(SpentOn(e, day).Add(notional))))
      && SpentOn(e', day) == (if ok then SpentOn(e, day).Add(notional) else SpentOn(e, day))
      && (ok && dailyCap.Positive() ==> !dailyCap.Lt(SpentOn(e', day)))
  {
  }

  class SpendTracker {
    var spent: map<string, DaySpend>

    constructor ()
      ensures spent == map[]
    {
      spent := map[];
    }

    function EntryOf(keyID: string): DaySpend
      reads this
    {
      if keyID in spent then spent[keyID] else NOTHING
    }

    method Charge(keyID: string, notional: Float, dailyCap: Float, nowMs: int64) returns (ok: bool)
      modifies this
      ensures (EntryOf(keyID), ok) == Charged(old(EntryOf(keyID)), notional, dailyCap, nowMs)
      ensures forall k :: k != keyID ==> EntryOf(k) == old(EntryOf(k))
    {
      if notional == NaN || notional == PosInf || notional == NegInf || notional.Negative() {
        return false;
      }
      if dailyCap.Negative() {
        return false;
      }
      var d := DayOf(nowMs);
      var e := EntryOf(keyID);
      if e.day != d {
        e := DaySpend(d, Fin(0.0));
      }
      if dailyCap.Positive() && dailyCap.Lt(e.total.Add(notional)) {
        spent := spent[keyID := e];
        return false;
      }
      e := DaySpend(d, e.total.Add(notional));
      spent := spent[keyID := e];
      return true;
    }

    method Spent(keyID: string, nowMs: int64) returns (total: Float)
      ensures total == SpentOn(EntryOf(keyID), DayOf(nowMs))
    {
      var e := EntryOf(keyID);
      if e.day != DayOf(nowMs) {
        return Fin(0.0);
      }
      return e.total;
    }
  }

  // ---- the two paths side by side ----

  /** What the tracker and the allocator hold for one key. */
  datatype Guards = Guards(entry: DaySpend, last: uint64)

  const FRESH := Guards(NOTHING, 0)

  type OldState = map<string, Guards>

  type NewState = map<string, SingleWriter.State>

  function GuardsOf(o: OldState, keyID: string): Guards { if keyID in o then o[keyID] else FRESH }

  function WriterOf(n: NewState, keyID: string): SingleWriter.State { if keyID in n then n[keyID] else SingleWriter.ZERO_STATE }

  /** Charge first, and allocate a nonce only if the charge was taken. */
  function OldStep(o: OldState, r: SingleWriter.Request): (OldState, Option<uint64>) {
    var g := GuardsOf(o, r.keyID);
    var (entry, ok) := Charged(g.entry, r.notional, r.dailyCap, r.nowMs);
    if !ok then (o[r.keyID := g.(entry := entry)], None)
    else
      var n := Nonce.NextAfter(g.last, r.nowMs);
      (o[r.keyID := Guards(entry, n)], Some(n))
  }

  function NewStep(n: NewState, r: SingleWriter.Request): (NewState, Option<uint64>) {
    match SingleWriter.Decide(WriterOf(n, r.keyID), r)
    case (next, Ok(nonce)) => (n[r.keyID := next], Some(nonce))
    case (_, Err(_)) => (n, None)
  }

  function OldRun(rs: seq<SingleWriter.Request>): OldState {
    if rs == [] then map[] else OldStep(OldRun(rs[..|rs| - 1]), rs[|rs| - 1]).0
  }

  function NewRun(rs: seq<SingleWriter.Request>): NewState {
    if rs == [] then map[] else NewStep(NewRun(rs[..|rs| - 1]), rs[|rs| - 1]).0
  }

  /** Per key: positive time, days that do not go backwards, fences that do not go backwards. */
  ghost predicate Steady(rs: seq<SingleWriter.Request>) {
    && (forall i :: 0 <= i < |rs| ==> 0 < rs[i].nowMs)
    && (forall i, j :: 0 <= i < j < |rs| && rs[i].keyID == rs[j].keyID ==>
          DayOf(rs[i].nowMs) <= DayOf(rs[j].nowMs) && rs[i].fence <= rs[j].fence)
  }

  /** Nothing about the key is later than `day` or newer than `fence`. */
  ghost predicate Within(rs: seq<SingleWriter.Request>, keyID: string, day: int64, fence: uint64) {
    forall i :: 0 <= i < |rs| && rs[i].keyID == keyID ==> DayOf(rs[i].nowMs) <= day && rs[i].fence <= fence
  }

  /** Same nonce mark, and the same spend on every day that can still come. */
  ghost predicate Alike(g: Guards, s: SingleWriter.State, day: int64, fence: uint64) {
    && s.fence <= fence && s.lastNonce == g.last && g.entry.day <= day && s.spendDay <= day
    && forall d: int64 :: d >= day ==> SpentOn(g.entry, d) == SingleWriter.SpentOn(s, d)
  }

  lemma StepsAgree(o: OldState, n: NewState, r: SingleWriter.Request)
    requires 0 < r.nowMs && Alike(GuardsOf(o, r.keyID), WriterOf(n, r.keyID), DayOf(r.nowMs), r.fence)
    ensures OldStep(o, r).1 == NewStep(n, r).1
    ensures Alike(GuardsOf(OldStep(o, r).0, r.keyID), WriterOf(NewStep(n, r).0, r.keyID), DayOf(r.nowMs), r.fence)
    ensures forall k :: k != r.keyID ==>
      GuardsOf(OldStep(o, r).0, k) == GuardsOf(o, k) && WriterOf(NewStep(n, r).0, k) == WriterOf(n, k)
  {
    var s, g, day := WriterOf(n, r.keyID), GuardsOf(o, r.keyID), DayOf(r.nowMs);
    assert SpentOn(g.entry, day) == SingleWriter.SpentOn(s, day);
    hide DayOf;
  }

  lemma {:induction false} RunsAgree(rs: seq<SingleWriter.Request>, keyID: string, day: int64, fence: uint64)
    requires Steady(rs) && Within(rs, keyID, day, fence) && 0 <= day
    ensures Alike(GuardsOf(OldRun(rs), keyID), WriterOf(NewRun(rs), keyID), day, fence)
  {
    if rs != [] {
      var before, r := rs[..|rs| - 1], rs[|rs| - 1];
      assert 0 <= DayOf(r.nowMs);
      hide OldStep, NewStep, DayOf;
      if r.keyID == keyID {
        RunsAgree(before, keyID, DayOf(r.nowMs), r.fence);
        StepsAgree(OldRun(before), NewRun(before), r);
      } else {
        RunsAgree(before, keyID, day, fence);
        Untouched(OldRun(before), NewRun(before), r, keyID);
      }
    }
  }

  lemma Untouched(o: OldState, n: NewState, r: SingleWriter.Request, keyID: string)
    requires keyID != r.keyID
    ensures GuardsOf(OldStep(o, r).0, keyID) == GuardsOf(o, keyID) && WriterOf(NewStep(n, r).0, keyID) == WriterOf(n, keyID)
  {
  }

  /** Bisimulation: over every run with positive time, and days and fences that do not go backwards
      on a key, the single writer accepts exactly when the tracker does, and its nonces are the
      allocator's; whatever the caps and notionals, valid or not. */
  lemma PathsAgree(rs: seq<SingleWriter.Request>, i: nat)
    requires Steady(rs) && i < |rs|
    ensures OldStep(OldRun(rs[..i]), rs[i]).1 == NewStep(NewRun(rs[..i]), rs[i]).1
  {
    assert 0 <= DayOf(rs[i].nowMs);
    hide OldStep, NewStep, DayOf;
    RunsAgree(rs[..i], rs[i].keyID, DayOf(rs[i].nowMs), rs[i].fence);
    StepsAgree(OldRun(rs[..i]), NewRun(rs[..i]), rs[i]);
  }

  /** Only the tracker remembers the day of a refused charge. */
  lemma OnlyTheTrackerRolls(o: OldState, n: NewState, r: SingleWriter.Request)
    requires 0 < r.nowMs && Alike(GuardsOf(o, r.keyID), WriterOf(n, r.keyID), DayOf(r.nowMs), r.fence)
    requires NewStep(n, r).1.None? && SingleWriter.ValidNotional(r.notional) && !r.dailyCap.Negative()
    ensures NewStep(n, r).0 == n
    ensures GuardsOf(OldStep(o, r).0, r.keyID).entry.day == DayOf(r.nowMs)
  {
    var s, g, day := WriterOf(n, r.keyID), GuardsOf(o, r.keyID), DayOf(r.nowMs);
    assert SpentOn(g.entry, day) == SingleWriter.SpentOn(s, day);
    hide DayOf;
  }

  function Spending(day: int64, amount: real): SingleWriter.Request
    requires 0 < day < 1000
  {
    SingleWriter.Request("k", 0, Fin(amount), Fin(10.0), day * DAY_MS)
  }

  /** So the days must not go backwards: after a refusal on day 11 the tracker has forgotten what
      day 10 had spent, and the two disagree about one more charge on day 10. */
  lemma DayRegressDisagrees()
    ensures var rs := [Spending(10, 10.0), Spending(11, 11.0), Spending(10, 1.0)];
      OldStep(OldRun(rs[..2]), rs[2]).1.Some? && NewStep(NewRun(rs[..2]), rs[2]).1.None?
  {
    var a, b, c := Spending(10, 10.0), Spending(11, 11.0), Spending(10, 1.0);
    var rs := [a, b, c];
    assert rs[..2] == [a, b];
    TwoSteps(a, b);
    FirstTwo();
    ThirdDiffers(OldRun([a, b]), NewRun([a, b]));
    hide OldStep, NewStep, OldRun, NewRun, Spending;
  }

  lemma TwoSteps(a: SingleWriter.Request, b: SingleWriter.Request)
    ensures OldRun([a, b]) == OldStep(OldStep(map[], a).0, b).0 && NewRun([a, b]) == NewStep(NewStep(map[], a).0, b).0
  {
    hide OldStep, NewStep;
    assert [a, b][..1] == [a] && [a][..0] == [];
    assert OldRun([a]) == OldStep(map[], a).0 && NewRun([a]) == NewStep(map[], a).0;
  }

  lemma FirstTwo()
    ensures var (a, b) := (Spending(10, 10.0), Spending(11, 11.0));
      && GuardsOf(OldStep(OldStep(map[], a).0, b).0, "k").entry == DaySpend(11, Fin(0.0))
      && NewStep(NewStep(map[], a).0, b).0 == map["k" := SingleWriter.State(0, 10 * DAY_MS, 10, Fin(10.0))]
  {
    assert DayOf(10 * DAY_MS) == 10 && DayOf(11 * DAY_MS) == 11;
    hide DayOf;
    var a, b := Spending(10, 10.0), Spending(11, 11.0);
    assert GuardsOf(OldStep(map[], a).0, "k").entry == DaySpend(10, Fin(10.0));
    assert NewStep(map[], a).0 == map["k" := SingleWriter.State(0, 10 * DAY_MS, 10, Fin(10.0))];
  }

  lemma ThirdDiffers(o: OldState, n: NewState)
    requires GuardsOf(o, "k").entry == DaySpend(11, Fin(0.0))
    requires n == map["k" := SingleWriter.State(0, 10 * DAY_MS, 10, Fin(10.0))]
    ensures OldStep(o, Spending(10, 1.0)).1.Some? && NewStep(n, Spending(10, 1.0)).1.None?
  {
    assert DayOf(10 * DAY_MS) == 10;
    hide DayOf;
  }
}
