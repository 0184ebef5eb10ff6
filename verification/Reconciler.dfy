/** The reconciler: one pass over all accounts that drives the ledger's statuses from what
    Hyperliquid reports, in arbitrary map order, and that an error may cut short anywhere. */
module Reconciler {
  import opened Numbers
  import opened Wrappers
  import opened Ledger
  import opened Lifecycle

  datatype Account = Account(keyID: string, address: string)

  /** What Hyperliquid answers for one account: resting cloids, the time of each cloid's latest
      fill, and the order status of the cloids it knows. */
  datatype Snapshot = Snapshot(open: set<string>, fills: map<string, int64>, status: map<string, string>)

  /** The accounts to poll and the answers, fixed for the pass. */
  datatype Env = Env(accounts: seq<Account>, snaps: seq<Snapshot>) {
    predicate Valid() { |accounts| == |snaps| }
  }

  /** Far-future cutoff: every live intent stamped before the year 2096 counts as an orphan. */
  const CUTOFF_MS: int64 := 4_000_000_000_000

  /** How far back the fills query may reach. */
  const LOOKBACK_MS: int64 := 7 * 24 * 60 * 60 * 1000

  function ClampAnchor(anchor: int, nowMs: int64): int {
    if anchor < nowMs - LOOKBACK_MS then nowMs - LOOKBACK_MS else anchor
  }

  predicate HasSuffix(s: string, suffix: string) { |suffix| <= |s| && s[|s| - |suffix|..] == suffix }

  /** The lifecycle status an order status stands for, if it stands for any. */
  function ReapTarget(hl: string): Option<Status> {
    if HasSuffix(hl, "Rejected") || hl == "rejected" then Some(Rejected)
    else if HasSuffix(hl, "Canceled") || hl == "canceled" || hl == "scheduledCancel" then Some(Canceled)
    else if hl == "filled" then Some(Filled)
    else if hl == "open" || hl == "resting" || hl == "triggered" then Some(Open)
    else None
  }

  /** The cases exclude each other, so the order in which they are tried does not matter; no status
      string stands for a step back to signed or submitted. */
  lemma ReapCasesExclusive(hl: string)
    ensures var rejected := HasSuffix(hl, "Rejected") || hl == "rejected";
      var canceled := HasSuffix(hl, "Canceled") || hl == "canceled" || hl == "scheduledCancel";
      var open := hl == "open" || hl == "resting" || hl == "triggered";
      && (ReapTarget(hl) == Some(Rejected) <==> rejected)
      && (ReapTarget(hl) == Some(Canceled) <==> canceled)
      && (ReapTarget(hl) == Some(Filled) <==> hl == "filled")
      && (ReapTarget(hl) == Some(Open) <==> open)
      && (ReapTarget(hl).None? <==> !rejected && !canceled && !open && hl != "filled")
  {
    var n := |hl|;
    if n >= 8 {
      assert HasSuffix(hl, "Rejected") ==> hl[n - 8] == "Rejected"[0];
      assert HasSuffix(hl, "Canceled") ==> hl[n - 8] == "Canceled"[0];
    }
    assert "rejected"[0] == 'r' && "canceled"[0] == 'c' && |"rejected"| == |"canceled"| == 8;
    assert |"scheduledCancel"| == 15 && "scheduledCancel"[7] == 'e' && |"triggered"| == 9 && "triggered"[1] == 'r';
    assert |"filled"| == 6 && |"open"| == 4 && |"resting"| == 7;
  }

  /** The status a cloid advances toward from the batch answers; open wins over fills. */
  function TargetFor(cloid: string, open: set<string>, fills: set<string>): Option<Status> {
    if cloid in open then Some(Open) else if cloid in fills then Some(Filled) else None
  }

  // ---- the specification: per intent, a list of reports folded into its status ----

  /** A fill at `time` is returned to a pass that starts from books `b` at `now`: it is no older
      than the look-back and no older than some live intent of the key. */
  ghost predicate SeesFill(b: Books, keyID: string, now: int64, time: int) {
    && time >= now - LOOKBACK_MS
    && (time >= now || exists id: Key :: id.keyID == keyID && IsOrphan(b, id, CUTOFF_MS) && b.updatedAt[id] <= time)
  }

  /** The fills answer of account snapshot `snap` mentions `cloid`. */
  ghost predicate Mentions(b: Books, keyID: string, now: int64, snap: Snapshot, cloid: string) {
    cloid in snap.fills && SeesFill(b, keyID, now, snap.fills[cloid])
  }

  /** What account `a` reports about intent `id` during the pass: open wins over fills, and only
      a live intent that is in neither is looked up. */
  ghost function ReportOf(b: Books, now: int64, a: Account, snap: Snapshot, id: Key): Option<Status> {
    if a.keyID != id.keyID then None
    else if id.cloid in snap.open then Some(Open)
    else if Mentions(b, a.keyID, now, snap, id.cloid) then Some(Filled)
    else if IsOrphan(b, id, CUTOFF_MS) && id.cloid in snap.status then ReapTarget(snap.status[id.cloid])
    else None
  }

  /** `fills` is the set of cloids the fills answer of account `i` mentions. */
  ghost predicate FillsAre(b: Books, now: int64, env: Env, i: nat, fills: set<string>)
    requires env.Valid() && i < |env.accounts|
  {
    forall c :: c in fills <==> Mentions(b, env.accounts[i].keyID, now, env.snaps[i], c)
  }

  function Append(reports: seq<Status>, report: Option<Status>): seq<Status> {
    if report.Some? then reports + [report.value] else reports
  }

  /** The reports the first `n` accounts make about `id`, in account order. */
  ghost function Reports(b: Books, now: int64, env: Env, n: nat, id: Key): seq<Status>
    requires env.Valid() && n <= |env.accounts|
  {
    if n == 0 then []
    else Append(Reports(b, now, env, n - 1, id), ReportOf(b, now, env.accounts[n - 1], env.snaps[n - 1], id))
  }

  /** `id` stands where its first `n` accounts' reports have brought it. */
  ghost predicate At(b0: Books, b: Books, now: int64, env: Env, n: nat, id: Key)
    requires env.Valid() && n <= |env.accounts| && id in b0.records
  {
    id in b.records && b.records[id] == b0.records[id].(status := Fold(b0.records[id].status, Reports(b0, now, env, n, id)))
  }

  /** Of one record only the status may have moved, and its stamp only to `now` or later. */
  predicate Kept(b0: Books, b: Books, now: int64, id: Key)
    requires id in b0.records && id in b.records && id in b0.updatedAt && id in b.updatedAt
  {
    && b.records[id] == b0.records[id].(status := b.records[id].status)
    && (b.updatedAt[id] == b0.updatedAt[id] || now <= b.updatedAt[id])
  }

  /** Nothing but statuses and stamps has moved. */
  ghost predicate Frame(b0: Books, b: Books, now: int64) {
    && b.sw == b0.sw && b.addrSpend == b0.addrSpend
    && b.records.Keys == b0.records.Keys == b.updatedAt.Keys == b0.updatedAt.Keys
    && (forall id :: id in b0.records ==> Kept(b0, b, now, id))
  }

  /** Every intent has had the reports of the first `n` accounts. */
  ghost predicate AllAt(b0: Books, b: Books, now: int64, env: Env, n: nat)
    requires env.Valid() && n <= |env.accounts|
  {
    Frame(b0, b, now) && forall id :: id in b0.records ==> At(b0, b, now, env, n, id)
  }

  /** The pass ran to its end. */
  ghost predicate FullPass(b0: Books, b: Books, now: int64, env: Env)
    requires env.Valid()
  {
    AllAt(b0, b, now, env, |env.accounts|)
  }

  /** The pass stopped somewhere: every intent has had some prefix of its reports. */
  ghost predicate PartialPass(b0: Books, b: Books, now: int64, env: Env)
    requires env.Valid()
  {
    Frame(b0, b, now)
    && forall id :: id in b0.records ==> exists n: nat :: n <= |env.accounts| && At(b0, b, now, env, n, id)
  }

  /** Inside account `i`: the cloids in `done` have had this account's report, the others not yet. */
  ghost predicate Progress(b0: Books, b: Books, now: int64, env: Env, i: nat, done: set<string>)
    requires env.Valid() && i < |env.accounts|
  {
    Frame(b0, b, now)
    && forall id :: id in b0.records ==>
         At(b0, b, now, env, if id.keyID == env.accounts[i].keyID && id.cloid in done then i + 1 else i, id)
  }

  lemma ReconcileEffect(b0: Books, b: Books, now: int64, id: Key, t: Status, wall: int64)
    requires Frame(b0, b, now) && now <= wall
    ensures var b' := ReconcileBooks(b, id, t, wall).0;
      && Frame(b0, b', now)
      && (forall other :: other in b.records && other != id ==> b'.records[other] == b.records[other])
      && (id in b.records ==> b'.records[id] == b.records[id].(status := Advance(b.records[id].status, t)))
  {
    var b' := ReconcileBooks(b, id, t, wall).0;
    forall other | other in b0.records ensures Kept(b0, b', now, other) {
      assert Kept(b0, b, now, other);
    }
  }

  lemma AtNext(b0: Books, b: Books, b': Books, now: int64, env: Env, i: nat, id: Key, t: Status)
    requires env.Valid() && i < |env.accounts| && id in b0.records && At(b0, b, now, env, i, id)
    requires ReportOf(b0, now, env.accounts[i], env.snaps[i], id) == Some(t)
    requires id in b'.records && b'.records[id] == b.records[id].(status := Advance(b.records[id].status, t))
    ensures At(b0, b', now, env, i + 1, id)
  {
    var before := Reports(b0, now, env, i, id);
    assert Reports(b0, now, env, i + 1, id) == before + [t];
    assert (before + [t])[..|before + [t]| - 1] == before;
  }

  lemma AtSkip(b0: Books, b: Books, now: int64, env: Env, i: nat, id: Key)
    requires env.Valid() && i < |env.accounts| && id in b0.records && At(b0, b, now, env, i, id)
    requires ReportOf(b0, now, env.accounts[i], env.snaps[i], id) == None
    ensures At(b0, b, now, env, i + 1, id)
  {
  }

  lemma ProgressReport(b0: Books, b: Books, now: int64, env: Env, i: nat, done: set<string>, cloid: string, t: Status, wall: int64)
    requires env.Valid() && i < |env.accounts| && Progress(b0, b, now, env, i, done) && cloid !in done && now <= wall
    requires ReportOf(b0, now, env.accounts[i], env.snaps[i], Key(env.accounts[i].keyID, cloid)) == Some(t)
    ensures Progress(b0, ReconcileBooks(b, Key(env.accounts[i].keyID, cloid), t, wall).0, now, env, i, done + {cloid})
  {
    var id := Key(env.accounts[i].keyID, cloid);
    var b' := ReconcileBooks(b, id, t, wall).0;
    ReconcileEffect(b0, b, now, id, t, wall);
    forall other | other in b0.records
      ensures At(b0, b', now, env, if other.keyID == id.keyID && other.cloid in done + {cloid} then i + 1 else i, other)
    {
      if other == id {
        assert At(b0, b, now, env, i, id);
        AtNext(b0, b, b', now, env, i, id, t);
      } else {
        assert At(b0, b, now, env, if other.keyID == id.keyID && other.cloid in done then i + 1 else i, other);
      }
    }
  }

  lemma ProgressSkip(b0: Books, b: Books, now: int64, env: Env, i: nat, done: set<string>, more: set<string>)
    requires env.Valid() && i < |env.accounts| && Progress(b0, b, now, env, i, done) && done <= more
    requires forall c :: c in more && c !in done ==>
      ReportOf(b0, now, env.accounts[i], env.snaps[i], Key(env.accounts[i].keyID, c)) == None
    ensures Progress(b0, b, now, env, i, more)
  {
    forall id | id in b0.records && id.keyID == env.accounts[i].keyID && id.cloid in more && id.cloid !in done
      ensures At(b0, b, now, env, i + 1, id)
    {
      assert At(b0, b, now, env, i, id);
      assert id == Key(env.accounts[i].keyID, id.cloid);
      AtSkip(b0, b, now, env, i, id);
    }
  }

  /** When everybody else has nothing to say, the account is done. */
  lemma ProgressDone(b0: Books, b: Books, now: int64, env: Env, i: nat, done: set<string>)
    requires env.Valid() && i < |env.accounts| && Progress(b0, b, now, env, i, done)
    requires forall c :: c !in done ==>
      ReportOf(b0, now, env.accounts[i], env.snaps[i], Key(env.accounts[i].keyID, c)) == None
    ensures AllAt(b0, b, now, env, i + 1)
  {
    forall id | id in b0.records ensures At(b0, b, now, env, i + 1, id) {
      if id.keyID == env.accounts[i].keyID && id.cloid in done {
        assert At(b0, b, now, env, i + 1, id);
      } else {
        assert id.keyID == env.accounts[i].keyID ==> id == Key(env.accounts[i].keyID, id.cloid);
        AtSkip(b0, b, now, env, i, id);
      }
    }
  }

  /** The live intents of one key, each once. */
  ghost predicate IsGroup(b: Books, group: seq<Orphan>, keyID: string) {
    && (forall k :: 0 <= k < |group| ==> IsOrphan(b, group[k].id, CUTOFF_MS) && group[k].id.keyID == keyID)
    && (forall j, k :: 0 <= j < k < |group| ==> group[j].id.cloid != group[k].id.cloid)
    && (forall id: Key :: id.keyID == keyID && IsOrphan(b, id, CUTOFF_MS) ==> exists k :: 0 <= k < |group| && group[k].id == id)
  }

  /** The cloids of the first `n` members. */
  ghost function Cloids(group: seq<Orphan>, n: nat): set<string>
    requires n <= |group|
  {
    if n == 0 then {} else Cloids(group, n - 1) + {group[n - 1].id.cloid}
  }

  lemma {:induction false} CloidsNamed(group: seq<Orphan>, n: nat, c: string)
    requires n <= |group|
    ensures c in Cloids(group, n) <==> exists k :: 0 <= k < n && group[k].id.cloid == c
  {
    if n > 0 { CloidsNamed(group, n - 1, c); }
  }

  /** The cloids account `i` has spoken for once the batch and the first `n` members are done. */
  ghost function Spoken(env: Env, i: nat, fills: set<string>, group: seq<Orphan>, n: nat): set<string>
    requires env.Valid() && i < |env.accounts| && n <= |group|
  {
    env.snaps[i].open + fills + Cloids(group, n)
  }

  lemma NextCloid(b: Books, group: seq<Orphan>, keyID: string, k: nat, batch: set<string>)
    requires IsGroup(b, group, keyID) && k < |group|
    ensures var c := group[k].id.cloid;
      && (c in batch ==> batch + Cloids(group, k + 1) == batch + Cloids(group, k))
      && (c !in batch ==> c !in batch + Cloids(group, k))
      && batch + Cloids(group, k) + {c} == batch + Cloids(group, k + 1)
  {
    CloidsNamed(group, k, group[k].id.cloid);
  }

  /** The earliest among `now` and the group's stamps. */
  ghost predicate IsOldest(group: seq<Orphan>, now: int64, oldest: int64) {
    && oldest <= now
    && (forall o :: o in group ==> oldest <= o.updatedAtMs)
    && (oldest == now || exists o :: o in group && o.updatedAtMs == oldest)
  }

  lemma AccountBegins(b0: Books, b: Books, now: int64, env: Env, i: nat)
    requires env.Valid() && i < |env.accounts| && AllAt(b0, b, now, env, i)
    ensures Progress(b0, b, now, env, i, {})
  {
  }

  lemma ProgressIsPartial(b0: Books, b: Books, now: int64, env: Env, i: nat, done: set<string>)
    requires env.Valid() && i < |env.accounts| && Progress(b0, b, now, env, i, done)
    ensures PartialPass(b0, b, now, env)
  {
  }

  lemma PassBegins(b: Books, now: int64, env: Env)
    requires env.Valid() && b.records.Keys == b.updatedAt.Keys
    ensures AllAt(b, b, now, env, 0) && PartialPass(b, b, now, env)
  {
    forall id | id in b.records ensures At(b, b, now, env, 0, id) {
      assert Reports(b, now, env, 0, id) == [];
    }
  }

  // ---- the implementation ----

  class Reconciler {
    const led: Mem
    const env: Env
    /** Which external calls go through, counted from the first. */
    const up: nat -> bool
    var calls: nat

    constructor (led: Mem, env: Env, up: nat -> bool)
      requires env.Valid()
      ensures this.led == led && this.env == env && this.up == up && calls == 0
    {
      this.led, this.env, this.up, this.calls := led, env, up, 0;
    }

    /** There is no outage. */
    ghost predicate AllUp() { forall c: nat :: up(c) }

    /** One external call. */
    method Reach() returns (ok: bool)
      modifies this
      ensures calls == old(calls) + 1 && ok == up(old(calls))
    {
      ok := up(calls);
      calls := calls + 1;
    }

    /** Applies one transition; a rejection of this intent alone is benign. An infrastructure
        error may strike before the ledger changed or after it. */
    method ReconcileOne(id: Key, target: Status, now: int64, lateFault: bool) returns (ok: bool)
      requires led.Valid()
      modifies this, led
      ensures led.Valid()
      ensures var b0, b := old(led.Contents()), led.Contents();
        b == b0 || exists wall: int64 :: now <= wall && b == ReconcileBooks(b0, id, target, wall).0
      ensures AllUp() ==> ok
      ensures ok ==> var b0, b := old(led.Contents()), led.Contents();
        exists wall: int64 :: now <= wall && b == ReconcileBooks(b0, id, target, wall).0
    {
      ok := Reach();
      if ok || lateFault {
        var wall: int64 :| now <= wall;
        var _ := led.Reconcile(id, target, wall);
      }
    }

    /** The live intents of one key. */
    method GroupOf(orphs: seq<Orphan>, keyID: string) returns (group: seq<Orphan>)
      ensures forall o :: o in group <==> o in orphs && o.id.keyID == keyID
      ensures (forall i, j :: 0 <= i < j < |orphs| ==> orphs[i].id != orphs[j].id) ==>
                forall i, j :: 0 <= i < j < |group| ==> group[i].id != group[j].id
    {
      group := [];
      for k := 0 to |orphs|
        invariant forall o :: o in group <==> o in orphs[..k] && o.id.keyID == keyID
        invariant (forall i, j :: 0 <= i < j < |orphs| ==> orphs[i].id != orphs[j].id) ==>
                    forall i, j :: 0 <= i < j < |group| ==> group[i].id != group[j].id
      {
        assert orphs[..k + 1] == orphs[..k] + [orphs[k]];
        if orphs[k].id.keyID == keyID {
          assert forall i :: 0 <= i < |group| ==> group[i] in orphs[..k];
          group := group + [orphs[k]];
        }
      }
      assert orphs[..|orphs|] == orphs;
    }

    /** The start of the fills query: the oldest live intent, bounded by the look-back. */
    method AnchorOf(group: seq<Orphan>, now: int64) returns (anchor: int, ghost oldest: int64)
      ensures IsOldest(group, now, oldest) && anchor == ClampAnchor(oldest, now)
    {
      oldest := now;
      var least := now;
      for k := 0 to |group|
        invariant least == oldest && IsOldest(group[..k], now, oldest)
      {
        assert group[..k + 1] == group[..k] + [group[k]];
        assert group[k] in group[..k + 1];
        if group[k].updatedAtMs < least {
          least := group[k].updatedAtMs;
          oldest := least;
        }
      }
      assert group[..|group|] == group;
      anchor := ClampAnchor(least, now);
    }

    /** Applies what account `i` reports about one cloid, and keeps the books on it. */
    method Apply(ghost b0: Books, i: nat, now: int64, cloid: string, target: Status, ghost done: set<string>, lateFault: bool)
      returns (ok: bool, ghost done': set<string>)
      requires led.Valid() && env.Valid() && i < |env.accounts| && cloid !in done
      requires Progress(b0, led.Contents(), now, env, i, done)
      requires ReportOf(b0, now, env.accounts[i], env.snaps[i], Key(env.accounts[i].keyID, cloid)) == Some(target)
      modifies this, led
      ensures led.Valid() && Progress(b0, led.Contents(), now, env, i, done')
      ensures AllUp() ==> ok
      ensures ok ==> done' == done + {cloid}
    {
      ghost var b := led.Contents();
      var id := Key(env.accounts[i].keyID, cloid);
      ok := ReconcileOne(id, target, now, lateFault);
      done' := done;
      if ok || led.Contents() != b {
        ghost var wall: int64 :| now <= wall && led.Contents() == ReconcileBooks(b, id, target, wall).0;
        ProgressReport(b0, b, now, env, i, done, cloid, target, wall);
        done' := done + {cloid};
      }
    }

    /** Advances the batch of one account: every cloid the open orders or the fills mention, in
        whatever order the map yields them. */
    method AdvanceBatch(ghost b0: Books, i: nat, now: int64, fills: set<string>, lateFault: bool)
      returns (ok: bool, ghost done: set<string>)
      requires led.Valid() && env.Valid() && i < |env.accounts|
      requires Progress(b0, led.Contents(), now, env, i, {})
      requires FillsAre(b0, now, env, i, fills)
      modifies this, led
      ensures led.Valid() && Progress(b0, led.Contents(), now, env, i, done)
      ensures AllUp() ==> ok
      ensures ok ==> done == env.snaps[i].open + fills
    {
      var open := env.snaps[i].open;
      var seen := open + fills;
      done := {};
      while seen != {}
        invariant led.Valid() && Progress(b0, led.Contents(), now, env, i, done)
        invariant seen !! done && seen + done == open + fills
        decreases seen
      {
        var cloid :| cloid in seen;
        var target := TargetFor(cloid, open, fills);
        ok, done := Apply(b0, i, now, cloid, target.value, done, lateFault);
        if !ok { return; }
        seen := seen - {cloid};
      }
      ok := true;
    }

    /** Asks for the status of one live intent that is neither open nor filled, and reaps it. */
    method ReapOne(ghost b0: Books, i: nat, now: int64, id: Key, fills: set<string>, ghost done: set<string>, lateFault: bool)
      returns (ok: bool, ghost done': set<string>)
      requires led.Valid() && env.Valid() && i < |env.accounts|
      requires Progress(b0, led.Contents(), now, env, i, done)
      requires FillsAre(b0, now, env, i, fills)
      requires IsOrphan(b0, id, CUTOFF_MS) && id.keyID == env.accounts[i].keyID
      requires id.cloid !in env.snaps[i].open && id.cloid !in fills && id.cloid !in done
      modifies this, led
      ensures led.Valid() && Progress(b0, led.Contents(), now, env, i, done')
      ensures AllUp() ==> ok
      ensures ok ==> done' == done + {id.cloid}
    {
      done' := done;
      ok := Reach();
      if !ok { return; }
      var status := env.snaps[i].status;
      var target := if id.cloid in status then ReapTarget(status[id.cloid]) else None;
      assert id == Key(env.accounts[i].keyID, id.cloid);
      if target.Some? {
        ok, done' := Apply(b0, i, now, id.cloid, target.value, done, lateFault);
      } else {
        ProgressSkip(b0, led.Contents(), now, env, i, done, done + {id.cloid});
        done' := done + {id.cloid};
      }
    }

    /** Member `k` of the group: skipped when the batch has spoken for it, reaped otherwise. */
    method ReapMember(ghost b0: Books, i: nat, now: int64, group: seq<Orphan>, k: nat, fills: set<string>, lateFault: bool)
      returns (ok: bool, ghost done: set<string>)
      requires led.Valid() && env.Valid() && i < |env.accounts| && k < |group|
      requires FillsAre(b0, now, env, i, fills)
      requires Progress(b0, led.Contents(), now, env, i, Spoken(env, i, fills, group, k))
      requires IsGroup(b0, group, env.accounts[i].keyID)
      modifies this, led
      ensures led.Valid() && Progress(b0, led.Contents(), now, env, i, done)
      ensures AllUp() ==> ok
      ensures ok ==> done == Spoken(env, i, fills, group, k + 1)
    {
      var id := group[k].id;
      NextCloid(b0, group, env.accounts[i].keyID, k, env.snaps[i].open + fills);
      done := Spoken(env, i, fills, group, k);
      if id.cloid in env.snaps[i].open || id.cloid in fills {
        ok := true;
      } else {
        ok, done := ReapOne(b0, i, now, id, fills, done, lateFault);
      }
    }

    /** Reaps the live intents Hyperliquid no longer reports as open or filled. */
    method ReapGroup(ghost b0: Books, i: nat, now: int64, group: seq<Orphan>, fills: set<string>, lateFault: bool)
      returns (ok: bool, ghost done: set<string>)
      requires led.Valid() && env.Valid() && i < |env.accounts|
      requires FillsAre(b0, now, env, i, fills)
      requires Progress(b0, led.Contents(), now, env, i, env.snaps[i].open + fills)
      requires IsGroup(b0, group, env.accounts[i].keyID)
      modifies this, led
      ensures led.Valid() && Progress(b0, led.Contents(), now, env, i, done)
      ensures AllUp() ==> ok
      ensures ok ==> done == Spoken(env, i, fills, group, |group|)
    {
      hide FillsAre, IsGroup, Progress;
      done := Spoken(env, i, fills, group, 0);
      assert done == env.snaps[i].open + fills;
      for k := 0 to |group|
        invariant led.Valid() && done == Spoken(env, i, fills, group, k)
        invariant Progress(b0, led.Contents(), now, env, i, done)
      {
        ok, done := ReapMember(b0, i, now, group, k, fills, lateFault);
        if !ok { return; }
      }
      ok := true;
    }

    /** Polls one account and reconciles what it reports. */
    method PollAccount(ghost b0: Books, orphs: seq<Orphan>, i: nat, now: int64, lateFault: bool)
      returns (ok: bool, ghost done: set<string>)
      requires led.Valid() && env.Valid() && i < |env.accounts|
      requires ListsOrphans(b0, CUTOFF_MS, orphs) && AllAt(b0, led.Contents(), now, env, i)
      modifies this, led
      ensures led.Valid()
      ensures AllUp() ==> ok
      ensures ok ==> AllAt(b0, led.Contents(), now, env, i + 1)
      ensures !ok ==> Progress(b0, led.Contents(), now, env, i, done)
    {
      hide AllAt, Progress, IsGroup, IsOldest, ListsOrphans, FillsAre;
      var keyID, snap := env.accounts[i].keyID, env.snaps[i];
      AccountBegins(b0, led.Contents(), now, env, i);
      done := {};
      var group := GroupOf(orphs, keyID);
      GroupIsLive(b0, orphs, group, keyID);
      var anchor;
      ghost var oldest;
      anchor, oldest := AnchorOf(group, now);
      ok := Reach(); // open orders
      if !ok { return; }
      ok := Reach(); // fills since the anchor
      if !ok { return; }
      var fills := set c | c in snap.fills && anchor <= snap.fills[c];
      AnchorMatches(b0, group, env, i, now, oldest, fills);
      ok, done := AdvanceBatch(b0, i, now, fills, lateFault);
      if !ok { return; }
      ok, done := ReapGroup(b0, i, now, group, fills, lateFault);
      if !ok { return; }
      NothingElseReported(b0, env, i, now, group, fills, done);
      ProgressDone(b0, led.Contents(), now, env, i, done);
    }

    /** Polls the accounts one after another, up to the first outage. */
    method PollAll(ghost b0: Books, orphs: seq<Orphan>, now: int64, lateFault: bool) returns (ok: bool)
      requires led.Valid() && env.Valid()
      requires ListsOrphans(b0, CUTOFF_MS, orphs) && AllAt(b0, led.Contents(), now, env, 0)
      modifies this, led
      ensures led.Valid()
      ensures AllUp() ==> ok
      ensures ok ==> AllAt(b0, led.Contents(), now, env, |env.accounts|)
      ensures !ok ==> PartialPass(b0, led.Contents(), now, env)
    {
      hide *;
      for i := 0 to |env.accounts|
        invariant led.Valid() && AllAt(b0, led.Contents(), now, env, i)
      {
        ghost var done;
        ok, done := PollAccount(b0, orphs, i, now, lateFault);
        if !ok {
          ProgressIsPartial(b0, led.Contents(), now, env, i, done);
          return;
        }
      }
      ok := true;
    }

    /** One pass over all accounts; a non-leader does nothing. */
    method Step(now: int64, leader: bool, lateFault: bool) returns (ok: bool)
      requires led.Valid() && env.Valid()
      modifies this, led
      ensures led.Valid()
      ensures !leader ==> ok && led.Contents() == old(led.Contents())
      ensures AllUp() ==> ok
      ensures leader && ok ==> FullPass(old(led.Contents()), led.Contents(), now, env)
      ensures leader && !ok ==> PartialPass(old(led.Contents()), led.Contents(), now, env)
    {
      hide AllAt, Progress, PartialPass, ListsOrphans;
      if !leader { return true; }
      ghost var b0 := led.Contents();
      PassBegins(b0, now, env);
      ok := Reach();
      if !ok { return; }
      var orphs := led.Orphans(CUTOFF_MS);
      ok := PollAll(b0, orphs, now, lateFault);
    }
  }

  /** Filtering the orphans by key yields the key's live intents. */
  lemma GroupIsLive(b: Books, orphs: seq<Orphan>, group: seq<Orphan>, keyID: string)
    requires ListsOrphans(b, CUTOFF_MS, orphs)
    requires forall o :: o in group <==> o in orphs && o.id.keyID == keyID
    requires (forall i, j :: 0 <= i < j < |orphs| ==> orphs[i].id != orphs[j].id) ==>
               forall i, j :: 0 <= i < j < |group| ==> group[i].id != group[j].id
    ensures IsGroup(b, group, keyID)
    ensures forall k :: 0 <= k < |group| ==> group[k] == OrphanOf(b, group[k].id)
  {
    forall k | 0 <= k < |group|
      ensures IsOrphan(b, group[k].id, CUTOFF_MS) && group[k].id.keyID == keyID && group[k] == OrphanOf(b, group[k].id)
    {
      assert group[k] in group;
      var j :| 0 <= j < |orphs| && orphs[j] == group[k];
    }
    forall id: Key | id.keyID == keyID && IsOrphan(b, id, CUTOFF_MS) ensures exists k :: 0 <= k < |group| && group[k].id == id {
      var k :| 0 <= k < |orphs| && orphs[k].id == id;
      assert orphs[k] in group;
      var j :| 0 <= j < |group| && group[j] == orphs[k];
    }
  }

  lemma NothingElseReported(b0: Books, env: Env, i: nat, now: int64, group: seq<Orphan>, fills: set<string>, done: set<string>)
    requires env.Valid() && i < |env.accounts| && FillsAre(b0, now, env, i, fills)
    requires done == Spoken(env, i, fills, group, |group|)
    requires IsGroup(b0, group, env.accounts[i].keyID)
    ensures forall c :: c !in done ==> ReportOf(b0, now, env.accounts[i], env.snaps[i], Key(env.accounts[i].keyID, c)) == None
  {
    forall c | c !in done ensures ReportOf(b0, now, env.accounts[i], env.snaps[i], Key(env.accounts[i].keyID, c)) == None {
      CloidsNamed(group, |group|, c);
    }
  }

  /** The computed anchor lets through exactly the fills the specification says are seen. */
  lemma AnchorMatches(b: Books, group: seq<Orphan>, env: Env, i: nat, now: int64, oldest: int64, fills: set<string>)
    requires env.Valid() && i < |env.accounts|
    requires IsGroup(b, group, env.accounts[i].keyID) && IsOldest(group, now, oldest)
    requires forall k :: 0 <= k < |group| ==> group[k] == OrphanOf(b, group[k].id)
    requires fills == set c | c in env.snaps[i].fills && ClampAnchor(oldest, now) <= env.snaps[i].fills[c]
    ensures FillsAre(b, now, env, i, fills)
  {
    var keyID := env.accounts[i].keyID;
    hide Frame;
    forall t: int ensures SeesFill(b, keyID, now, t) <==> ClampAnchor(oldest, now) <= t {
      if o :| o in group && o.updatedAtMs == oldest && oldest <= t {
        var k :| 0 <= k < |group| && group[k] == o;
        assert o.id.keyID == keyID && IsOrphan(b, o.id, CUTOFF_MS) && b.updatedAt[o.id] <= t;
      }
      if id: Key :| id.keyID == keyID && IsOrphan(b, id, CUTOFF_MS) && b.updatedAt[id] <= t {
        var k :| 0 <= k < |group| && group[k].id == id;
        assert group[k] in group;
      }
    }
  }
}
