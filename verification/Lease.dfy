/** The name-keyed lease store that mints fencing epochs. */
module Lease {
  import opened Numbers

  datatype Row = Row(holder: string, epoch: uint64, expiresAtMs: int64)

  /** What an absent name reads as: an already expired seed row. */
  const ZERO_ROW := Row("", 0, 0)

  datatype Op = OpAcquire | OpRenew | OpRelease

  datatype Req = Req(op: Op, holder: string, nowMs: int64, ttlMs: int64)

  datatype Error = ErrHeld | ErrNotHolder | ErrExpired

  datatype Grant = Grant(holder: string, epoch: uint64, expiresAtMs: int64)

  /** `NoOp` is the release by a stranger, which succeeds and reports no lease. */
  datatype Outcome = Granted(lease: Grant) | NoOp | Rejected(error: Error)

  function GrantOf(r: Row): Grant { Grant(r.holder, r.epoch, r.expiresAtMs) }

  /** The outcome of one operation against the row at store time `nowMs`. */
  function Decide(cur: Row, req: Req): (Row, Outcome) {
    match req.op
    case OpAcquire =>
      if cur.expiresAtMs <= req.nowMs then
        var next := Row(req.holder, Succ64(cur.epoch), Add64(req.nowMs, req.ttlMs));
        (next, Granted(GrantOf(next)))
      else
        (cur, Rejected(ErrHeld))
    case OpRenew =>
      if cur.holder == req.holder && cur.expiresAtMs > req.nowMs then
        var next := Row(cur.holder, cur.epoch, Add64(req.nowMs, req.ttlMs));
        (next, Granted(GrantOf(next)))
      else if cur.holder == req.holder then
        (cur, Rejected(ErrExpired))
      else
        (cur, Rejected(ErrNotHolder))
    case OpRelease =>
      if cur.holder == req.holder then
        var next := Row(cur.holder, cur.epoch, req.nowMs);
        (next, Granted(GrantOf(next)))
      else
        (cur, NoOp)
  }

  /** What each operation promises, read off the outcome alone. */
  lemma {:induction false} DecideMeaning(cur: Row, req: Req)
    ensures var (next, out) := Decide(cur, req);
      // only a granted operation writes, and it reports exactly what it wrote
      && (!out.Granted? ==> next == cur)
      && (out.Granted? ==> out.lease == GrantOf(next) && next.holder == req.holder)
      // a new epoch is minted by acquire and by nothing else
      && (next.epoch != cur.epoch <==> req.op.OpAcquire? && out.Granted?)
      // a live lease can be taken by nobody, its own holder included
      && (req.op.OpAcquire? ==> (out == Rejected(ErrHeld) <==> req.nowMs < cur.expiresAtMs))
      // a live lease is renewable by its holder only; a lapsed one by nobody
      && (req.op.OpRenew? ==>
            && (out.Granted? <==> cur.holder == req.holder && req.nowMs < cur.expiresAtMs)
            && (out == Rejected(ErrNotHolder) <==> cur.holder != req.holder))
      // release never fails, and a stranger's release changes nothing
      && (req.op.OpRelease? ==> !out.Rejected? && (out == NoOp <==> cur.holder != req.holder))
      // every granted lease lapses when the request said it would
      && (out.Granted? ==> next.expiresAtMs == if req.op.OpRelease? then req.nowMs else Add64(req.nowMs, req.ttlMs))
  {
  }

  /** The in-process store: rows updated in place under one lock. */
  class Mem {
    var rows: map<string, Row>

    constructor ()
      ensures rows == map[]
    {
      rows := map[];
    }

    function RowOf(name: string): Row
      reads this
    {
      if name in rows then rows[name] else ZERO_ROW
    }

    /** Applies `Decide` atomically; a rejection and a no-op leave every row alone. */
    method Apply(name: string, req: Req) returns (out: Outcome)
      modifies this
      ensures out == Decide(old(RowOf(name)), req).1
      ensures RowOf(name) == Decide(old(RowOf(name)), req).0
      ensures forall n :: n != name ==> RowOf(n) == old(RowOf(n))
      ensures !out.Granted? ==> rows == old(rows)
    {
      var (next, res) := Decide(RowOf(name), req);
      if res.Granted? {
        rows := rows[name := next];
      }
      return res;
    }
  }

  /** One operation of a run, with the lease it returned and the row it left. */
  datatype Event = Event(req: Req, before: Row, after: Row, out: Outcome)

  /** The history of a run of operations on one name, oldest first. */
  function History(reqs: seq<Req>): (h: seq<Event>)
    ensures |h| == |reqs|
  {
    if reqs == [] then []
    else
      var h := History(reqs[..|reqs| - 1]);
      var before := Final(h);
      var (after, out) := Decide(before, reqs[|reqs| - 1]);
      h + [Event(reqs[|reqs| - 1], before, after, out)]
  }

  function Final(h: seq<Event>): Row {
    if h == [] then ZERO_ROW else h[|h| - 1].after
  }

  predicate Mints(e: Event) { e.req.op.OpAcquire? && e.out.Granted? }

  /** How many acquires succeeded. */
  function Mintings(h: seq<Event>): nat {
    if h == [] then 0 else Mintings(h[..|h| - 1]) + if Mints(h[|h| - 1]) then 1 else 0
  }

  /** The clock never goes back, the ttl is one positive constant (releases are sent with none), and
      no expiry overflows. */
  ghost predicate SaneClock(reqs: seq<Req>, ttl: int64) {
    && 0 < ttl
    && (forall i :: 0 <= i < |reqs| ==> reqs[i].ttlMs == if reqs[i].op.OpRelease? then 0 else ttl)
    && (forall i :: 0 <= i < |reqs| ==> 0 <= reqs[i].nowMs && reqs[i].nowMs + ttl < TWO63)
    && (forall i, j :: 0 <= i <= j < |reqs| ==> reqs[i].nowMs <= reqs[j].nowMs)
  }

  /** Lease `h[i]` was given back by its holder at some later point before `n`. */
  ghost predicate ReleasedBetween(h: seq<Event>, i: nat, n: nat) {
    exists k :: i <= k < n <= |h| && h[k].req.op.OpRelease? && h[k].out.Granted? && h[k].after.epoch == h[i].after.epoch
  }

  /** The row's epoch counts the successful acquires. */
  lemma {:induction false} EpochCountsMintings(reqs: seq<Req>)
    requires |reqs| < TWO64
    ensures Final(History(reqs)).epoch == Mintings(History(reqs)) <= |reqs|
  {
    if reqs != [] {
      EpochCountsMintings(reqs[..|reqs| - 1]);
      assert History(reqs)[..|reqs| - 1] == History(reqs[..|reqs| - 1]);
    }
  }

  /** Histories of prefixes are prefixes of histories. */
  lemma {:induction false} HistoryPrefix(reqs: seq<Req>, n: nat)
    requires n <= |reqs|
    ensures History(reqs)[..n] == History(reqs[..n])
    decreases |reqs|
  {
    if n < |reqs| {
      HistoryPrefix(reqs[..|reqs| - 1], n);
      assert reqs[..|reqs| - 1][..n] == reqs[..n];
      assert History(reqs)[..n] == History(reqs[..|reqs| - 1])[..n];
    } else {
      assert reqs[..n] == reqs;
    }
  }

  /** One epoch, one holder, for the whole run: what the fencing token stands for. */
  lemma {:induction false} EpochHasOneHolder(reqs: seq<Req>, i: nat, j: nat)
    requires |reqs| < TWO64
    requires i <= j < |reqs|
    requires History(reqs)[i].after.epoch == History(reqs)[j].after.epoch >= 1
    ensures History(reqs)[i].after.holder == History(reqs)[j].after.holder
    decreases j
  {
    var h := History(reqs);
    if i < j {
      EpochsNeverFall(reqs, i, j - 1);
      EpochsNeverFall(reqs, j - 1, j);
      EpochHasOneHolder(reqs, i, j - 1);
      EventAt(reqs, j);
      if Mints(h[j]) {
        EpochStep(reqs, j);
      }
    }
  }

  lemma {:induction false} EventAt(reqs: seq<Req>, j: nat)
    requires j < |reqs|
    ensures var h := History(reqs);
      && h[j].req == reqs[j]
      && h[j].before == (if j == 0 then ZERO_ROW else h[j - 1].after)
      && Decide(h[j].before, reqs[j]) == (h[j].after, h[j].out)
  {
    HistoryPrefix(reqs, j + 1);
    HistoryPrefix(reqs, j);
    assert reqs[..j + 1][..j] == reqs[..j];
    assert History(reqs)[j] == History(reqs[..j + 1])[j];
    assert History(reqs)[..j] == History(reqs[..j]);
    if j > 0 { assert History(reqs)[..j][j - 1] == History(reqs)[j - 1]; }
  }

  lemma {:induction false} EpochStep(reqs: seq<Req>, j: nat)
    requires |reqs| < TWO64
    requires j < |reqs|
    ensures var e := History(reqs)[j];
      e.before.epoch < TWO64 - 1 && e.after.epoch == e.before.epoch + if Mints(e) then 1 else 0
  {
    hide History, Mintings;
    var h := History(reqs);
    EventAt(reqs, j);
    HistoryPrefix(reqs, j);
    EpochCountsMintings(reqs[..j]);
    assert Final(h[..j]).epoch <= j;
    assert h[j].before == Final(h[..j]);
  }

  lemma {:induction false} EpochsNeverFall(reqs: seq<Req>, i: nat, j: nat)
    requires |reqs| < TWO64
    requires i <= j < |reqs|
    ensures History(reqs)[i].after.epoch <= History(reqs)[j].after.epoch
    decreases j
  {
    if i < j {
      EpochsNeverFall(reqs, i, j - 1);
      EpochStep(reqs, j);
      EventAt(reqs, j);
    }
  }

  /** While epoch e lasts and nobody gave it back, the row outlives every lease returned for e. */
  lemma {:induction false} RowOutlivesLease(reqs: seq<Req>, ttl: int64, i: nat, n: nat)
    requires |reqs| < TWO64 && SaneClock(reqs, ttl)
    requires i < n <= |reqs|
    requires History(reqs)[i].out.Granted?
    requires History(reqs)[n - 1].after.epoch == History(reqs)[i].after.epoch
    requires !ReleasedBetween(History(reqs), i, n)
    ensures History(reqs)[i].after.expiresAtMs <= History(reqs)[n - 1].after.expiresAtMs <= reqs[n - 1].nowMs + ttl
    decreases n
  {
    var h := History(reqs);
    EventAt(reqs, i);
    if i + 1 < n {
      EpochsNeverFall(reqs, i, n - 2);
      EpochsNeverFall(reqs, n - 2, n - 1);
      EventAt(reqs, n - 1);
      EpochStep(reqs, n - 1);
      forall k | i <= k < n - 1 ensures !(h[k].req.op.OpRelease? && h[k].out.Granted? && h[k].after.epoch == h[i].after.epoch) {}
      RowOutlivesLease(reqs, ttl, i, n - 1);
      assert !(h[n - 1].req.op.OpRelease? && h[n - 1].out.Granted?);
    } else {
      assert h[i].req.op.OpRelease? ==> ReleasedBetween(h, i, n);
    }
  }

  /** Mutual exclusion over time: when a newer epoch is minted, every lease ever returned for
      the epoch before it has lapsed by the store's clock, or its holder had given it back. */
  lemma {:induction false} MintingMeansLapsedOrReleased(reqs: seq<Req>, ttl: int64, i: nat, m: nat)
    requires |reqs| < TWO64 && SaneClock(reqs, ttl)
    requires i < m < |reqs|
    requires History(reqs)[i].out.Granted? && Mints(History(reqs)[m])
    requires History(reqs)[i].after.epoch + 1 == History(reqs)[m].after.epoch
    ensures History(reqs)[i].out.lease.expiresAtMs <= reqs[m].nowMs || ReleasedBetween(History(reqs), i, m)
  {
    var h := History(reqs);
    EventAt(reqs, i);
    EventAt(reqs, m);
    EpochStep(reqs, m);
    if !ReleasedBetween(h, i, m) {
      RowOutlivesLease(reqs, ttl, i, m);
    }
  }

  /** Both halves of that conclusion happen: here the lease given back is still running when the
      next epoch is minted. */
  lemma {:induction false} ReleasedLeaseMayStillRun()
    ensures var reqs := [Req(OpAcquire, "a", 1, 100), Req(OpRelease, "a", 2, 0), Req(OpAcquire, "b", 3, 100)];
      var h := History(reqs);
      && SaneClock(reqs, 100) && h[0].out.Granted? && Mints(h[2]) && h[0].after.epoch + 1 == h[2].after.epoch
      && h[0].out.lease.expiresAtMs > reqs[2].nowMs && ReleasedBetween(h, 0, 2)
  {
    var reqs := [Req(OpAcquire, "a", 1, 100), Req(OpRelease, "a", 2, 0), Req(OpAcquire, "b", 3, 100)];
    EventAt(reqs, 0);
    EventAt(reqs, 1);
    EventAt(reqs, 2);
    assert History(reqs)[1].req.op.OpRelease?;
  }

  /** The clock hypothesis is needed: were a renewal allowed a shorter ttl, the earlier lease
      would still be running when the next epoch is minted. */
  lemma {:induction false} ShorterRenewalBreaksExclusivity()
    ensures var h := History([Req(OpAcquire, "a", 1, 100), Req(OpRenew, "a", 2, 1), Req(OpAcquire, "b", 3, 100)]);
      h[0].out.Granted? && Mints(h[2]) && h[2].out.lease.epoch == h[0].out.lease.epoch + 1
      && h[0].out.lease.expiresAtMs > 3 && !ReleasedBetween(h, 0, 2)
  {
    var reqs := [Req(OpAcquire, "a", 1, 100), Req(OpRenew, "a", 2, 1), Req(OpAcquire, "b", 3, 100)];
    EventAt(reqs, 0);
    EventAt(reqs, 1);
    EventAt(reqs, 2);
  }
}
