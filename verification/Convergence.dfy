/** What repeated and interrupted reconciler passes amount to. */
module Convergence {
  import opened Numbers
  import opened Wrappers
  import opened Ledger
  import opened Lifecycle
  import opened Reconciler

  /** No stamp lies in the future of `now`. */
  ghost predicate StampedBy(b: Books, now: int64) {
    forall id :: id in b.updatedAt ==> b.updatedAt[id] <= now
  }

  /** The stamps are older than the orphan cutoff, so the orphans are the live intents. */
  ghost predicate BeforeCutoff(b: Books) {
    forall id :: id in b.updatedAt ==> b.updatedAt[id] < CUTOFF_MS
  }

  /** Both passes get the same fills answers, though their anchors may differ. */
  ghost predicate SameFills(b0: Books, now0: int64, b1: Books, now1: int64, env: Env)
    requires env.Valid()
  {
    forall i, c :: 0 <= i < |env.accounts| ==>
      (Mentions(b0, env.accounts[i].keyID, now0, env.snaps[i], c) <==> Mentions(b1, env.accounts[i].keyID, now1, env.snaps[i], c))
  }

  /** Whatever order the maps were walked in, a completed pass ends with the same records, and
      with the same ids, nonces and digests it found. */
  lemma PassIsDeterministic(b0: Books, b: Books, b': Books, now: int64, env: Env)
    requires env.Valid() && FullPass(b0, b, now, env) && FullPass(b0, b', now, env)
    ensures b.records == b'.records
    ensures b.records.Keys == b0.records.Keys && b.sw == b0.sw && b.addrSpend == b0.addrSpend
    ensures forall id :: id in b0.records ==>
      b.records[id].nonce == b0.records[id].nonce && b.records[id].digest == b0.records[id].digest
      && Rank(b0.records[id].status) <= Rank(b.records[id].status)
  {
    forall id | id in b0.records
      ensures b.records[id] == b'.records[id] && b.records[id] == b0.records[id].(status := b.records[id].status)
      ensures Rank(b0.records[id].status) <= Rank(b.records[id].status)
    {
      assert At(b0, b, now, env, |env.accounts|, id) && At(b0, b', now, env, |env.accounts|, id);
      FoldMovesForward(b0.records[id].status, Reports(b0, now, env, |env.accounts|, id));
    }
  }

  /** As stamps only move forward, a later pass sees no fill that an earlier one did not. */
  lemma LaterPassSeesFewerFills(b0: Books, b1: Books, now0: int64, now1: int64, keyID: string, t: int)
    requires Frame(b0, b1, now0) && StampedBy(b0, now0) && now0 <= now1
    requires forall id :: id in b0.records && IsTerminal(b0.records[id].status) ==> IsTerminal(b1.records[id].status)
    requires SeesFill(b1, keyID, now1, t)
    ensures SeesFill(b0, keyID, now0, t)
  {
    if id: Key :| id.keyID == keyID && IsOrphan(b1, id, CUTOFF_MS) && b1.updatedAt[id] <= t {
      assert Kept(b0, b1, now0, id);
      assert IsOrphan(b0, id, CUTOFF_MS) && b0.updatedAt[id] <= t;
    }
  }

  lemma {:induction false} ReportInList(b: Books, now: int64, env: Env, n: nat, i: nat, id: Key, t: Status)
    requires env.Valid() && i < n <= |env.accounts| && ReportOf(b, now, env.accounts[i], env.snaps[i], id) == Some(t)
    ensures t in Reports(b, now, env, n, id)
  {
    if i < n - 1 { ReportInList(b, now, env, n - 1, i, id, t); }
  }

  /** An intent still live after the first `n` accounts was reported filled by none of them. */
  lemma LiveMeansNoTerminalReport(b: Books, now: int64, env: Env, n: nat, i: nat, id: Key, s: Status)
    requires env.Valid() && i < n <= |env.accounts| && !IsTerminal(Fold(s, Reports(b, now, env, n, id)))
    requires ReportOf(b, now, env.accounts[i], env.snaps[i], id).Some?
    ensures Rank(ReportOf(b, now, env.accounts[i], env.snaps[i], id).value) <= Rank(Fold(s, Reports(b, now, env, n, id))) <= 2
  {
    if IsTerminal(s) { FoldMovesForward(s, Reports(b, now, env, n, id)); }
    FoldIsHighest(s, Reports(b, now, env, n, id));
    ReportInList(b, now, env, n, i, id, ReportOf(b, now, env.accounts[i], env.snaps[i], id).value);
  }

  lemma PassKeepsTerminal(b0: Books, b1: Books, now: int64, env: Env)
    requires env.Valid() && PartialPass(b0, b1, now, env)
    ensures forall id :: id in b0.records && IsTerminal(b0.records[id].status) ==> IsTerminal(b1.records[id].status)
  {
    forall id | id in b0.records && IsTerminal(b0.records[id].status) ensures IsTerminal(b1.records[id].status) {
      var n: nat :| n <= |env.accounts| && At(b0, b1, now, env, n, id);
      FoldMovesForward(b0.records[id].status, Reports(b0, now, env, n, id));
    }
  }

  lemma FullIsPartial(b0: Books, b1: Books, now: int64, env: Env)
    requires env.Valid() && FullPass(b0, b1, now, env)
    ensures PartialPass(b0, b1, now, env)
  {
    forall id | id in b0.records ensures exists n: nat :: n <= |env.accounts| && At(b0, b1, now, env, n, id) {
      assert At(b0, b1, now, env, |env.accounts|, id);
    }
  }

  lemma RecordSettled(b0: Books, b1: Books, b2: Books, now0: int64, now1: int64, env: Env, id: Key)
    requires env.Valid() && FullPass(b0, b1, now0, env) && FullPass(b1, b2, now1, env)
    requires StampedBy(b0, now0) && now0 <= now1 && id in b1.records && id in b2.records
    requires forall x :: x in b0.records && IsTerminal(b0.records[x].status) ==> IsTerminal(b1.records[x].status)
    ensures b2.records[id] == b1.records[id]
  {
    hide SeesFill, ReapTarget, Reports, Fold;
    assert At(b1, b2, now1, env, |env.accounts|, id);
    var s, reports := b1.records[id].status, Reports(b1, now1, env, |env.accounts|, id);
    if IsTerminal(s) {
      FoldMovesForward(s, reports);
    } else {
      NoNewReports(b0, b1, now0, now1, env, |env.accounts|, id);
      NothingNew(s, reports);
    }
  }

  /** A second pass against the same answers, at any later time, changes no record. */
  lemma SecondPassChangesNothing(b0: Books, b1: Books, b2: Books, now0: int64, now1: int64, env: Env)
    requires env.Valid() && FullPass(b0, b1, now0, env) && FullPass(b1, b2, now1, env)
    requires StampedBy(b0, now0) && now0 <= now1
    ensures b2.records == b1.records
  {
    hide FullPass, PartialPass, StampedBy;
    PassIsDeterministic(b1, b2, b2, now1, env);
    FullIsPartial(b0, b1, now0, env);
    PassKeepsTerminal(b0, b1, now0, env);
    forall id | id in b1.records ensures b2.records[id] == b1.records[id] {
      RecordSettled(b0, b1, b2, now0, now1, env, id);
    }
  }

  lemma NoNewReport(b0: Books, b1: Books, now0: int64, now1: int64, env: Env, i: nat, id: Key)
    requires env.Valid() && FullPass(b0, b1, now0, env) && StampedBy(b0, now0) && now0 <= now1 && i < |env.accounts|
    requires forall id :: id in b0.records && IsTerminal(b0.records[id].status) ==> IsTerminal(b1.records[id].status)
    requires id in b1.records && !IsTerminal(b1.records[id].status)
    ensures var r := ReportOf(b1, now1, env.accounts[i], env.snaps[i], id);
      r.Some? ==> Rank(r.value) <= Rank(b1.records[id].status)
  {
    hide SeesFill, ReapTarget, Fold;
    var a, snap := env.accounts[i], env.snaps[i];
    assert At(b0, b1, now0, env, |env.accounts|, id) && Kept(b0, b1, now0, id);
    if ReportOf(b0, now0, a, snap, id).Some? {
      LiveMeansNoTerminalReport(b0, now0, env, |env.accounts|, i, id, b0.records[id].status);
    }
    if Mentions(b1, a.keyID, now1, snap, id.cloid) {
      LaterPassSeesFewerFills(b0, b1, now0, now1, a.keyID, snap.fills[id.cloid]);
    }
  }

  lemma {:induction false} NoNewReports(b0: Books, b1: Books, now0: int64, now1: int64, env: Env, n: nat, id: Key)
    requires env.Valid() && FullPass(b0, b1, now0, env) && StampedBy(b0, now0) && now0 <= now1 && n <= |env.accounts|
    requires forall id :: id in b0.records && IsTerminal(b0.records[id].status) ==> IsTerminal(b1.records[id].status)
    requires id in b1.records && !IsTerminal(b1.records[id].status)
    ensures forall r :: r in Reports(b1, now1, env, n, id) ==> Rank(r) <= Rank(b1.records[id].status)
  {
    hide ReportOf, FullPass, StampedBy;
    if n > 0 {
      NoNewReports(b0, b1, now0, now1, env, n - 1, id);
      NoNewReport(b0, b1, now0, now1, env, n - 1, id);
    }
  }

  lemma FullPassAt(b0: Books, b: Books, now: int64, env: Env, id: Key)
    requires env.Valid() && FullPass(b0, b, now, env) && id in b0.records
    ensures At(b0, b, now, env, |env.accounts|, id)
  {
  }

  lemma PartialPassAt(b0: Books, b: Books, now: int64, env: Env, id: Key) returns (n: nat)
    requires env.Valid() && PartialPass(b0, b, now, env) && id in b0.records
    ensures n <= |env.accounts| && At(b0, b, now, env, n, id)
  {
    hide At;
    n :| n <= |env.accounts| && At(b0, b, now, env, n, id);
  }

  lemma RecordCatchesUp(b0: Books, part: Books, caughtUp: Books, full: Books, now0: int64, now1: int64, env: Env, id: Key)
    requires env.Valid() && PartialPass(b0, part, now0, env) && id in b0.records
    requires FullPass(part, caughtUp, now1, env) && FullPass(b0, full, now0, env)
    requires BeforeCutoff(b0) && BeforeCutoff(part) && SameFills(b0, now0, part, now1, env)
    ensures id in caughtUp.records && id in full.records && caughtUp.records[id] == full.records[id]
  {
    hide Reports, SameFills, BeforeCutoff, Fold, FullPass, PartialPass;
    var m := |env.accounts|;
    var n := PartialPassAt(b0, part, now0, env, id);
    FullPassAt(b0, full, now0, env, id);
    FullPassAt(part, caughtUp, now1, env, id);
    var s := b0.records[id].status;
    var rest := ReportsGrow(b0, now0, env, n, m, id);
    if IsTerminal(part.records[id].status) {
      FoldConcat(s, Reports(b0, now0, env, n, id), rest);
      FoldMovesForward(part.records[id].status, rest);
      FoldMovesForward(part.records[id].status, Reports(part, now1, env, m, id));
    } else {
      if IsTerminal(s) { FoldMovesForward(s, Reports(b0, now0, env, n, id)); }
      PassIsFramed(b0, part, now0, env);
      SameReports(b0, part, now0, now1, env, m, id);
      FoldAbsorbsPrefix(s, Reports(b0, now0, env, n, id), rest);
    }
  }

  lemma PassIsFramed(b0: Books, b: Books, now: int64, env: Env)
    requires env.Valid() && PartialPass(b0, b, now, env)
    ensures Frame(b0, b, now) && b.records.Keys == b0.records.Keys
  {
  }

  /** A pass cut short by an error, then a full pass that gets the same answers, ends with exactly
      the records the full pass alone would have left. */
  lemma InterruptedPassCatchesUp(b0: Books, part: Books, caughtUp: Books, full: Books, now0: int64, now1: int64, env: Env)
    requires env.Valid() && PartialPass(b0, part, now0, env)
    requires FullPass(part, caughtUp, now1, env) && FullPass(b0, full, now0, env)
    requires BeforeCutoff(b0) && BeforeCutoff(part) && SameFills(b0, now0, part, now1, env)
    ensures caughtUp.records == full.records
  {
    hide *;
    FullIsPartial(part, caughtUp, now1, env);
    FullIsPartial(b0, full, now0, env);
    PassIsFramed(b0, part, now0, env);
    PassIsFramed(part, caughtUp, now1, env);
    PassIsFramed(b0, full, now0, env);
    forall id | id in b0.records ensures caughtUp.records[id] == full.records[id] {
      RecordCatchesUp(b0, part, caughtUp, full, now0, now1, env, id);
    }
  }

  lemma {:induction false} ReportsGrow(b: Books, now: int64, env: Env, n: nat, m: nat, id: Key) returns (rest: seq<Status>)
    requires env.Valid() && n <= m <= |env.accounts|
    ensures Reports(b, now, env, m, id) == Reports(b, now, env, n, id) + rest
  {
    if n == m {
      rest := [];
    } else {
      rest := ReportsGrow(b, now, env, n, m - 1, id);
      rest := Append(rest, ReportOf(b, now, env.accounts[m - 1], env.snaps[m - 1], id));
    }
  }

  lemma {:induction false} SameReports(b0: Books, b1: Books, now0: int64, now1: int64, env: Env, n: nat, id: Key)
    requires env.Valid() && n <= |env.accounts| && Frame(b0, b1, now0)
    requires BeforeCutoff(b0) && BeforeCutoff(b1) && SameFills(b0, now0, b1, now1, env)
    requires id in b0.records && !IsTerminal(b0.records[id].status) && !IsTerminal(b1.records[id].status)
    ensures Reports(b1, now1, env, n, id) == Reports(b0, now0, env, n, id)
  {
    if n > 0 {
      SameReports(b0, b1, now0, now1, env, n - 1, id);
      assert Mentions(b0, env.accounts[n - 1].keyID, now0, env.snaps[n - 1], id.cloid)
        <==> Mentions(b1, env.accounts[n - 1].keyID, now1, env.snaps[n - 1], id.cloid);
    }
  }

  // ---- the anchor moves: exactly when an interrupted pass does not catch up ----

  /** Account `i` is the only one with the key. */
  ghost predicate SoleAccount(env: Env, i: nat, keyID: string)
    requires env.Valid()
  {
    i < |env.accounts| && forall j :: 0 <= j < |env.accounts| ==> (env.accounts[j].keyID == keyID <==> j == i)
  }

  /** A fill the first pass could see has dropped behind the retry's anchor. */
  ghost predicate LostFill(b0: Books, part: Books, now0: int64, now1: int64, keyID: string, snap: Snapshot, cloid: string) {
    cloid !in snap.open && Mentions(b0, keyID, now0, snap, cloid) && !Mentions(part, keyID, now1, snap, cloid)
  }

  lemma {:induction false} SoleReport(b: Books, now: int64, env: Env, i: nat, n: nat, id: Key)
    requires env.Valid() && SoleAccount(env, i, id.keyID) && n <= |env.accounts|
    ensures Reports(b, now, env, n, id) ==
      if i < n then Append([], ReportOf(b, now, env.accounts[i], env.snaps[i], id)) else []
  {
    if n > 0 { SoleReport(b, now, env, i, n - 1, id); }
  }

  /** What the retry hears about a live intent: the same as the first pass would have, unless the
      fill was lost, when it hears the order status instead. */
  lemma RetryHears(b0: Books, part: Books, now0: int64, now1: int64, env: Env, i: nat, id: Key)
    requires env.Valid() && i < |env.accounts| && env.accounts[i].keyID == id.keyID
    requires PartialPass(b0, part, now0, env) && StampedBy(b0, now0) && now0 <= now1
    requires BeforeCutoff(b0) && BeforeCutoff(part)
    requires id in b0.records && !IsTerminal(part.records[id].status)
    ensures !IsTerminal(b0.records[id].status)
    ensures var r0 := ReportOf(b0, now0, env.accounts[i], env.snaps[i], id);
      var r1 := ReportOf(part, now1, env.accounts[i], env.snaps[i], id);
      var status := env.snaps[i].status;
      if LostFill(b0, part, now0, now1, id.keyID, env.snaps[i], id.cloid)
      then r0 == Some(Filled) && r1 == if id.cloid in status then ReapTarget(status[id.cloid]) else None
      else r1 == r0
  {
    PassKeepsTerminal(b0, part, now0, env);
    assert Kept(b0, part, now0, id);
    if Mentions(part, id.keyID, now1, env.snaps[i], id.cloid) {
      LaterPassSeesFewerFills(b0, part, now0, now1, id.keyID, env.snaps[i].fills[id.cloid]);
    }
  }

  /** Where the three passes leave an intent of a key with one account. */
  lemma SolePasses(b0: Books, part: Books, caughtUp: Books, full: Books, now0: int64, now1: int64, env: Env, i: nat, id: Key)
    requires env.Valid() && PartialPass(b0, part, now0, env)
    requires FullPass(part, caughtUp, now1, env) && FullPass(b0, full, now0, env)
    requires id in b0.records && SoleAccount(env, i, id.keyID)
    ensures var r0 := ReportOf(b0, now0, env.accounts[i], env.snaps[i], id);
      var r1 := ReportOf(part, now1, env.accounts[i], env.snaps[i], id);
      var s := b0.records[id].status;
      && full.records[id] == b0.records[id].(status := Apply(s, r0))
      && caughtUp.records[id] == b0.records[id].(status := Apply(part.records[id].status, r1))
      && (part.records[id].status == s || part.records[id].status == Apply(s, r0))
  {
    hide ReportOf, Reports, Fold;
    var m := |env.accounts|;
    var n: nat :| n <= m && At(b0, part, now0, env, n, id);
    assert At(b0, full, now0, env, m, id) && At(part, caughtUp, now1, env, m, id);
    SoleReport(b0, now0, env, i, n, id);
    SoleReport(b0, now0, env, i, m, id);
    SoleReport(part, now1, env, i, m, id);
    OneReportFold(b0.records[id].status, ReportOf(b0, now0, env.accounts[i], env.snaps[i], id));
    OneReportFold(part.records[id].status, ReportOf(part, now1, env.accounts[i], env.snaps[i], id));
  }

  function Apply(s: Status, report: Option<Status>): Status {
    if report.Some? then Advance(s, report.value) else s
  }

  lemma OneReportFold(s: Status, report: Option<Status>)
    ensures Fold(s, Append([], report)) == Apply(s, report) && Fold(s, []) == s
  {
    if report.Some? {
      assert Append([], report) == [report.value] && [report.value][..0] == [];
    }
  }

  /** What a full pass makes of an intent of a key with one account. An intent that is over stays; a
      resting order is open whatever was filled; a fill from the last week and no older than the
      intent's own stamp fills it; a live intent that neither answer mentions goes by its order status, if
      that is known and says anything. Fills from before that week are not asked for. */
  lemma PassOutcome(b0: Books, b: Books, now: int64, env: Env, i: nat, id: Key)
    requires env.Valid() && FullPass(b0, b, now, env) && SoleAccount(env, i, id.keyID)
    requires id in b0.records && id in b0.updatedAt
    ensures id in b.records
    ensures var s, s', snap, stamp := b0.records[id].status, b.records[id].status, env.snaps[i], b0.updatedAt[id];
      var fillTime := if id.cloid in snap.fills then snap.fills[id.cloid] else now - 604_800_001;
      var reaped := if id.cloid in snap.status then ReapTarget(snap.status[id.cloid]) else None;
      && (s.Filled? || s.Rejected? || s.Canceled? ==> s' == s)
      && (s.Signed? || s.Submitted? || s.Open? ==>
            && (id.cloid in snap.open ==> s' == Open)
            && (id.cloid !in snap.open && now - 604_800_000 <= fillTime && stamp <= fillTime && stamp < 4_000_000_000_000 ==> s' == Filled)
            && (id.cloid !in snap.open && fillTime < now - 604_800_000 ==>
                  s' == if stamp < 4_000_000_000_000 && reaped.Some? then reaped.value else s))
  {
    hide Fold, Reports, ReapTarget;
    var r := ReportOf(b0, now, env.accounts[i], env.snaps[i], id);
    assert At(b0, b, now, env, |env.accounts|, id);
    SoleReport(b0, now, env, i, |env.accounts|, id);
    OneReportFold(b0.records[id].status, r);
    ReapsForward(env.snaps[i].status, id.cloid);
  }

  /** No order status takes an intent back to signed or submitted. */
  lemma ReapsForward(status: map<string, string>, cloid: string)
    ensures cloid in status && ReapTarget(status[cloid]).Some? ==> Rank(ReapTarget(status[cloid]).value) >= 2
  {
  }

  /** With one account a key, the retry leaves intent `id` as the full pass would have, unless the
      intent is still live, its fill was lost to the moving anchor, and the order status does not
      say filled either. */
  lemma CatchesUpExactlyUnlessFillLost(b0: Books, part: Books, caughtUp: Books, full: Books, now0: int64, now1: int64,
                                       env: Env, i: nat, id: Key)
    requires env.Valid() && PartialPass(b0, part, now0, env)
    requires FullPass(part, caughtUp, now1, env) && FullPass(b0, full, now0, env)
    requires BeforeCutoff(b0) && BeforeCutoff(part) && StampedBy(b0, now0) && now0 <= now1
    requires id in b0.records && SoleAccount(env, i, id.keyID)
    ensures caughtUp.records[id] == full.records[id] <==>
      !(&& !IsTerminal(part.records[id].status)
        && LostFill(b0, part, now0, now1, id.keyID, env.snaps[i], id.cloid)
        && (id.cloid !in env.snaps[i].status || ReapTarget(env.snaps[i].status[id.cloid]) != Some(Filled)))
  {
    hide SeesFill, ReapTarget, Mentions, At, Kept;
    SolePasses(b0, part, caughtUp, full, now0, now1, env, i, id);
    if !IsTerminal(part.records[id].status) {
      RetryHears(b0, part, now0, now1, env, i, id);
    } else if part.records[id].status == b0.records[id].status {
      assert full.records[id] == b0.records[id] == caughtUp.records[id];
    }
  }

  /** Why a fill is lost: the look-back has moved past it, or each older live intent that had held
      the anchor back is over or has been stamped anew. */
  lemma WhyFillsAreLost(b0: Books, part: Books, now0: int64, now1: int64, keyID: string, snap: Snapshot, cloid: string, id: Key)
    requires Frame(b0, part, now0) && LostFill(b0, part, now0, now1, keyID, snap, cloid) && BeforeCutoff(part)
    requires id.keyID == keyID && IsOrphan(b0, id, CUTOFF_MS) && b0.updatedAt[id] <= snap.fills[cloid]
    ensures var t := snap.fills[cloid];
      t < now1 - LOOKBACK_MS || (t < now1 && (IsTerminal(part.records[id].status) || t < part.updatedAt[id]))
  {
  }

  /** Account `i` leaves intent `id` otherwise after an interruption. */
  ghost predicate Strands(b0: Books, part: Books, now0: int64, now1: int64, env: Env, i: nat, id: Key)
    requires env.Valid() && i < |env.accounts|
  {
    && id in part.records && !IsTerminal(part.records[id].status) && env.accounts[i].keyID == id.keyID
    && LostFill(b0, part, now0, now1, id.keyID, env.snaps[i], id.cloid)
    && (id.cloid !in env.snaps[i].status || ReapTarget(env.snaps[i].status[id.cloid]) != Some(Filled))
  }

  ghost predicate DistinctKeys(env: Env) {
    forall i, j :: 0 <= i < j < |env.accounts| ==> env.accounts[i].keyID != env.accounts[j].keyID
  }

  lemma {:induction false} NoAccountNoReports(b: Books, now: int64, env: Env, n: nat, id: Key)
    requires env.Valid() && n <= |env.accounts| && forall i :: 0 <= i < |env.accounts| ==> env.accounts[i].keyID != id.keyID
    ensures Reports(b, now, env, n, id) == []
  {
    if n > 0 { NoAccountNoReports(b, now, env, n - 1, id); }
  }

  lemma NoAccountNoChange(b0: Books, part: Books, caughtUp: Books, full: Books, now0: int64, now1: int64, env: Env, id: Key)
    requires env.Valid() && PartialPass(b0, part, now0, env)
    requires FullPass(part, caughtUp, now1, env) && FullPass(b0, full, now0, env)
    requires id in b0.records && forall i :: 0 <= i < |env.accounts| ==> env.accounts[i].keyID != id.keyID
    ensures id in caughtUp.records && id in full.records && caughtUp.records[id] == full.records[id]
  {
    hide ReportOf, Reports, FullPass, PartialPass;
    var n := PartialPassAt(b0, part, now0, env, id);
    FullPassAt(b0, full, now0, env, id);
    FullPassAt(part, caughtUp, now1, env, id);
    NoAccountNoReports(b0, now0, env, n, id);
    NoAccountNoReports(b0, now0, env, |env.accounts|, id);
    NoAccountNoReports(part, now1, env, |env.accounts|, id);
  }

  lemma CatchesUpAt(b0: Books, part: Books, caughtUp: Books, full: Books, now0: int64, now1: int64, env: Env, id: Key)
    requires env.Valid() && DistinctKeys(env) && PartialPass(b0, part, now0, env)
    requires FullPass(part, caughtUp, now1, env) && FullPass(b0, full, now0, env)
    requires BeforeCutoff(b0) && BeforeCutoff(part) && StampedBy(b0, now0) && now0 <= now1 && id in b0.records
    ensures caughtUp.records[id] == full.records[id] <==>
      forall i: nat :: i < |env.accounts| ==> !Strands(b0, part, now0, now1, env, i, id)
  {
    hide LostFill, FullPass, PartialPass, ReapTarget, BeforeCutoff, StampedBy, Frame;
    PassIsFramed(b0, part, now0, env);
    FullIsPartial(part, caughtUp, now1, env);
    FullIsPartial(b0, full, now0, env);
    PassIsFramed(part, caughtUp, now1, env);
    PassIsFramed(b0, full, now0, env);
    if i: nat :| i < |env.accounts| && env.accounts[i].keyID == id.keyID {
      assert SoleAccount(env, i, id.keyID);
      CatchesUpExactlyUnlessFillLost(b0, part, caughtUp, full, now0, now1, env, i, id);
      assert forall j: nat :: j < |env.accounts| && Strands(b0, part, now0, now1, env, j, id) ==> j == i;
      assert caughtUp.records[id] == full.records[id] <==> !Strands(b0, part, now0, now1, env, i, id);
    } else {
      NoAccountNoChange(b0, part, caughtUp, full, now0, now1, env, id);
    }
  }

  /** With distinct account keys, an interrupted pass and its retry end with the records of the one
      full pass if and only if no account strands an intent. */
  lemma RetryCatchesUpIff(b0: Books, part: Books, caughtUp: Books, full: Books, now0: int64, now1: int64, env: Env)
    requires env.Valid() && DistinctKeys(env) && PartialPass(b0, part, now0, env)
    requires FullPass(part, caughtUp, now1, env) && FullPass(b0, full, now0, env)
    requires BeforeCutoff(b0) && BeforeCutoff(part) && StampedBy(b0, now0) && now0 <= now1
    ensures caughtUp.records == full.records <==>
      forall i: nat, id :: i < |env.accounts| && id in b0.records ==> !Strands(b0, part, now0, now1, env, i, id)
  {
    hide Strands, FullPass, PartialPass, DistinctKeys, BeforeCutoff, StampedBy, Frame;
    PassIsFramed(b0, part, now0, env);
    FullIsPartial(part, caughtUp, now1, env);
    FullIsPartial(b0, full, now0, env);
    PassIsFramed(part, caughtUp, now1, env);
    PassIsFramed(b0, full, now0, env);
    forall id | id in b0.records
      ensures caughtUp.records[id] == full.records[id] <==>
        forall i: nat :: i < |env.accounts| ==> !Strands(b0, part, now0, now1, env, i, id)
    {
      CatchesUpAt(b0, part, caughtUp, full, now0, now1, env, id);
    }
  }

  // ---- a lost fill happens ----

  const OLDER := Key("k", "old")
  const NEWER := Key("k", "new")

  /** An order filled in part and then canceled, next to an older resting one. */
  const LOSS_ENV := Env([Account("k", "0x")], [Snapshot({"old"}, map["new" := 50], map["new" := "canceled"])])

  const LOSS_BEFORE := Books(map[], map[],
    map[OLDER := Record(1, [], Signed), NEWER := Record(2, [], Open)], map[OLDER := 0, NEWER := 100])

  /** The pass broke off after the older order. */
  const LOSS_PART := Books(map[], map[],
    map[OLDER := Record(1, [], Open), NEWER := Record(2, [], Open)], map[OLDER := 1000, NEWER := 100])

  lemma CanceledIsReaped()
    ensures ReapTarget("canceled") == Some(Canceled)
  {
    assert "canceled"[0] != "Rejected"[0];
  }

  lemma LossAt()
    ensures At(LOSS_BEFORE, LOSS_PART, 1000, LOSS_ENV, 1, OLDER) && At(LOSS_BEFORE, LOSS_PART, 1000, LOSS_ENV, 0, NEWER)
  {
    hide SeesFill, ReapTarget, Fold;
    assert "new" != "old" by { assert "new"[0] != "old"[0]; }
    OneReportFold(Signed, Some(Open));
    OneReportFold(Open, None);
    SoleReport(LOSS_BEFORE, 1000, LOSS_ENV, 0, 1, OLDER);
    SoleReport(LOSS_BEFORE, 1000, LOSS_ENV, 0, 0, NEWER);
  }

  lemma LossPartIsPartial()
    ensures PartialPass(LOSS_BEFORE, LOSS_PART, 1000, LOSS_ENV)
  {
    LossAt();
    hide At;
    assert Kept(LOSS_BEFORE, LOSS_PART, 1000, OLDER) && Kept(LOSS_BEFORE, LOSS_PART, 1000, NEWER);
    assert LOSS_BEFORE.records.Keys == {OLDER, NEWER} == LOSS_PART.records.Keys;
  }

  const LOSS_FULL := Books(map[], map[],
    map[OLDER := Record(1, [], Open), NEWER := Record(2, [], Filled)], map[OLDER := 1000, NEWER := 1000])

  const LOSS_RETRIED := Books(map[], map[],
    map[OLDER := Record(1, [], Open), NEWER := Record(2, [], Canceled)], map[OLDER := 1000, NEWER := 1000])

  lemma LossReports()
    ensures LostFill(LOSS_BEFORE, LOSS_PART, 1000, 1000, "k", LOSS_ENV.snaps[0], "new")
    ensures ReportOf(LOSS_BEFORE, 1000, LOSS_ENV.accounts[0], LOSS_ENV.snaps[0], NEWER) == Some(Filled)
    ensures ReportOf(LOSS_PART, 1000, LOSS_ENV.accounts[0], LOSS_ENV.snaps[0], NEWER) == Some(Canceled)
  {
    hide ReapTarget, PartialPass;
    CanceledIsReaped();
    assert "new" != "old" by { assert "new"[0] != "old"[0]; }
    assert IsOrphan(LOSS_BEFORE, OLDER, CUTOFF_MS) && LOSS_BEFORE.updatedAt[OLDER] <= 50;
    assert SeesFill(LOSS_BEFORE, "k", 1000, 50);
    assert !SeesFill(LOSS_PART, "k", 1000, 50);
  }

  /** A pass over the one account that leaves both intents where their one report brings them. */
  lemma LossPass(b: Books, after: Books)
    requires b == LOSS_BEFORE || b == LOSS_PART
    requires after.sw == map[] && after.addrSpend == map[]
    requires after.records.Keys == after.updatedAt.Keys == {OLDER, NEWER}
    requires after.updatedAt[OLDER] == after.updatedAt[NEWER] == 1000
    requires after.records[OLDER] == Record(1, [], Open)
    requires var r := ReportOf(b, 1000, LOSS_ENV.accounts[0], LOSS_ENV.snaps[0], NEWER);
      after.records[NEWER] == Record(2, [], Apply(Open, r))
    ensures FullPass(b, after, 1000, LOSS_ENV)
  {
    hide SeesFill, ReapTarget, Fold;
    assert b.records.Keys == {OLDER, NEWER} == b.updatedAt.Keys;
    SoleReport(b, 1000, LOSS_ENV, 0, 1, OLDER);
    SoleReport(b, 1000, LOSS_ENV, 0, 1, NEWER);
    OneReportFold(b.records[OLDER].status, Some(Open));
    OneReportFold(Open, ReportOf(b, 1000, LOSS_ENV.accounts[0], LOSS_ENV.snaps[0], NEWER));
    assert At(b, after, 1000, LOSS_ENV, 1, OLDER) && At(b, after, 1000, LOSS_ENV, 1, NEWER);
    assert Kept(b, after, 1000, OLDER) && Kept(b, after, 1000, NEWER);
  }

  /** In one pass the newer order ends filled; interrupted after the older one and retried at once
      with the same answers, it ends canceled. */
  lemma PartialFillThenCancelDiverges()
    ensures PartialPass(LOSS_BEFORE, LOSS_PART, 1000, LOSS_ENV) && FullPass(LOSS_PART, LOSS_RETRIED, 1000, LOSS_ENV)
    ensures FullPass(LOSS_BEFORE, LOSS_FULL, 1000, LOSS_ENV)
    ensures LOSS_FULL.records[NEWER].status == Filled && LOSS_RETRIED.records[NEWER].status == Canceled
  {
    hide PartialPass, FullPass, ReportOf;
    LossPartIsPartial();
    LossReports();
    LossPass(LOSS_BEFORE, LOSS_FULL);
    LossPass(LOSS_PART, LOSS_RETRIED);
  }

  /** Nothing need be refreshed for a fill to be lost: the look-back moves on by itself. */
  lemma LookBackLosesFills()
    ensures LostFill(LOSS_BEFORE, LOSS_BEFORE, 1000, LOOKBACK_MS + 100, "k", LOSS_ENV.snaps[0], "new")
  {
    hide ReapTarget;
    assert "new" != "old" by { assert "new"[0] != "old"[0]; }
    assert IsOrphan(LOSS_BEFORE, OLDER, CUTOFF_MS) && LOSS_BEFORE.updatedAt[OLDER] <= 50;
    assert SeesFill(LOSS_BEFORE, "k", 1000, 50);
  }
}
