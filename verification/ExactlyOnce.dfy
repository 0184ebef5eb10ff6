/** Whole runs of the ledger: authorizations and status reports interleaved in any way. */
module ExactlyOnce {
  import opened Numbers
  import opened Wrappers
  import L1Hash
  import Ledger
  import LongArrays
  import Msgpack
  import Nonce
  import SingleWriter

  datatype Step =
    | Authorize(req: Ledger.Request, wall: int64)
    | Reconcile(id: Ledger.Key, status: Ledger.Status, wall: int64)

  datatype Reply = Answer(grant: Result<Ledger.Grant, Ledger.Error>) | Moved(status: Result<Ledger.Status, Ledger.Error>)

  function Next(b: Ledger.Books, s: Step): (Ledger.Books, Reply) {
    match s
    case Authorize(req, wall) => var (b', out) := Ledger.AuthorizeBooks(b, req, wall); (b', Answer(out))
    case Reconcile(id, status, wall) => var (b', out) := Ledger.ReconcileBooks(b, id, status, wall); (b', Moved(out))
  }

  function Run(steps: seq<Step>): Ledger.Books {
    if steps == [] then Ledger.EMPTY else Next(Run(steps[..|steps| - 1]), steps[|steps| - 1]).0
  }

  /** What the ledger answered at step `i`. */
  function ReplyAt(steps: seq<Step>, i: nat): Reply
    requires i < |steps|
  {
    Next(Run(steps[..i]), steps[i]).1
  }

  predicate Succeeds(steps: seq<Step>, i: nat)
    requires i < |steps|
  {
    steps[i].Authorize? && ReplyAt(steps, i).grant.Ok?
  }

  function GrantAt(steps: seq<Step>, i: nat): Ledger.Grant
    requires i < |steps| && Succeeds(steps, i)
  {
    ReplyAt(steps, i).grant.value
  }

  predicate Fresh(steps: seq<Step>, i: nat)
    requires i < |steps|
  {
    Succeeds(steps, i) && !GrantAt(steps, i).duplicate
  }

  lemma RunStep(steps: seq<Step>, i: nat)
    requires i < |steps|
    ensures Run(steps[..i + 1]) == Next(Run(steps[..i]), steps[i]).0
    ensures steps[..i + 1][..i] == steps[..i]
  {
    assert steps[..i + 1][..i] == steps[..i];
  }

  // ---- records are never dropped and never change their nonce or digest ----

  ghost predicate Filed(b: Ledger.Books, id: Ledger.Key, nonce: uint64, digest: Ledger.Digest) {
    id in b.records && b.records[id].nonce == nonce && b.records[id].digest == digest
  }

  lemma StepKeepsRecord(b: Ledger.Books, s: Step, id: Ledger.Key, nonce: uint64, digest: Ledger.Digest)
    requires Filed(b, id, nonce, digest)
    ensures Filed(Next(b, s).0, id, nonce, digest)
  {
    if s.Authorize? {
      Ledger.AuthorizeMeaning(b, s.req, s.wall);
      hide Ledger.AuthorizeBooks;
    }
  }

  lemma {:induction false} RecordSticks(steps: seq<Step>, i: nat, j: nat, id: Ledger.Key, nonce: uint64, digest: Ledger.Digest)
    requires i <= j <= |steps| && Filed(Run(steps[..i]), id, nonce, digest)
    ensures Filed(Run(steps[..j]), id, nonce, digest)
  {
    hide Next, Filed;
    if i < j {
      RecordSticks(steps, i, j - 1, id, nonce, digest);
      RunStep(steps, j - 1);
      StepKeepsRecord(Run(steps[..j - 1]), steps[j - 1], id, nonce, digest);
    }
  }

  lemma SuccessIsFiled(steps: seq<Step>, i: nat)
    requires i < |steps| && Succeeds(steps, i)
    ensures Filed(Run(steps[..i + 1]), steps[i].req.Id(), GrantAt(steps, i).nonce, steps[i].req.digest)
  {
    RunStep(steps, i);
    Ledger.AuthorizeMeaning(Run(steps[..i]), steps[i].req, steps[i].wall);
    hide Ledger.AuthorizeBooks, Run;
  }

  /** Exactly once: after a success, every later authorization of the same key and cloid is
      answered from the record: same nonce if it brings the same digest, refused if another.
      So there is never a second fresh grant. */
  lemma LaterAnswersRepeat(steps: seq<Step>, i: nat, j: nat)
    requires i < j < |steps| && Succeeds(steps, i)
    requires steps[j].Authorize? && steps[j].req.Id() == steps[i].req.Id()
    ensures ReplyAt(steps, j) == Answer(
      if steps[j].req.digest == steps[i].req.digest
      then Ok(Ledger.Grant(GrantAt(steps, i).nonce, true)) else Err(Ledger.ErrCloidReuse))
    ensures !Fresh(steps, j)
  {
    SuccessIsFiled(steps, i);
    RecordSticks(steps, i + 1, j, steps[i].req.Id(), GrantAt(steps, i).nonce, steps[i].req.digest);
    NonEmptyCloid(steps, i);
    Ledger.AuthorizeMeaning(Run(steps[..j]), steps[j].req, steps[j].wall);
    hide Ledger.AuthorizeBooks, Run;
  }

  lemma NonEmptyCloid(steps: seq<Step>, i: nat)
    requires i < |steps| && Succeeds(steps, i)
    ensures steps[i].req.cloid != ""
  {
    Ledger.AuthorizeMeaning(Run(steps[..i]), steps[i].req, steps[i].wall);
    hide Ledger.AuthorizeBooks, Run;
  }

  /** The step that filed a record. */
  ghost predicate Origin(steps: seq<Step>, i: nat, id: Ledger.Key, nonce: uint64, digest: Ledger.Digest) {
    i < |steps| && Fresh(steps, i) && steps[i].req.Id() == id && GrantAt(steps, i).nonce == nonce && steps[i].req.digest == digest
  }

  /** Nothing is on file that was not freshly granted at some step. */
  lemma {:induction false} RecordHasOrigin(steps: seq<Step>, n: nat, id: Ledger.Key) returns (i: nat)
    requires n <= |steps| && id in Run(steps[..n]).records
    ensures i < n && Origin(steps, i, id, Run(steps[..n]).records[id].nonce, Run(steps[..n]).records[id].digest)
  {
    if n == 0 {
      assert false;
    } else {
      RunStep(steps, n - 1);
      var b := Run(steps[..n - 1]);
      hide Run;
      if id in b.records {
        i := RecordHasOrigin(steps, n - 1, id);
        StepKeepsRecord(b, steps[n - 1], id, b.records[id].nonce, b.records[id].digest);
      } else {
        i := n - 1;
        OnlyGrantsFile(b, steps[i], id);
      }
    }
  }

  lemma OnlyGrantsFile(b: Ledger.Books, s: Step, id: Ledger.Key)
    requires id !in b.records && id in Next(b, s).0.records
    ensures s.Authorize? && s.req.Id() == id
    ensures var out := Next(b, s).1.grant;
      out.Ok? && !out.value.duplicate && Filed(Next(b, s).0, id, out.value.nonce, s.req.digest)
  {
    if s.Authorize? {
      Ledger.AuthorizeMeaning(b, s.req, s.wall);
      hide Ledger.AuthorizeBooks;
    }
  }

  /** A replayed success always has one original: an earlier fresh grant of the same pair, with
      the same nonce and digest. */
  lemma ReplayHasOriginal(steps: seq<Step>, j: nat) returns (i: nat)
    requires j < |steps| && Succeeds(steps, j) && GrantAt(steps, j).duplicate
    ensures i < j && Origin(steps, i, steps[j].req.Id(), GrantAt(steps, j).nonce, steps[j].req.digest)
  {
    Ledger.AuthorizeMeaning(Run(steps[..j]), steps[j].req, steps[j].wall);
    hide Ledger.AuthorizeBooks, Run;
    i := RecordHasOrigin(steps, j, steps[j].req.Id());
  }

  // ---- retries are invisible ----

  lemma RunAppended(a: seq<Step>, rest: seq<Step>, n: nat)
    requires 0 < n <= |rest|
    ensures Run(a + rest[..n]) == Next(Run(a + rest[..n - 1]), rest[n - 1]).0
  {
    var steps := a + rest[..n];
    assert steps[..|steps| - 1] == a + rest[..n - 1];
    hide Next;
  }

  lemma {:induction false} SameStateSameRest(a: seq<Step>, b: seq<Step>, rest: seq<Step>, n: nat)
    requires n <= |rest| && Run(a) == Run(b)
    ensures Run(a + rest[..n]) == Run(b + rest[..n])
  {
    if n == 0 {
      assert a + rest[..0] == a && b + rest[..0] == b;
    } else {
      SameStateSameRest(a, b, rest, n - 1);
      RunAppended(a, rest, n);
      RunAppended(b, rest, n);
      hide Next, Run;
    }
  }

  lemma RetryMovesNothing(before: seq<Step>, i: nat, retry: Ledger.Request, wall: int64)
    requires i < |before| && Succeeds(before, i)
    requires retry.Id() == before[i].req.Id() && retry.digest == before[i].req.digest
    ensures var with := before + [Authorize(retry, wall)];
      && Run(with) == Run(before)
      && ReplyAt(with, |before|) == Answer(Ok(Ledger.Grant(GrantAt(before, i).nonce, true)))
  {
    var with := before + [Authorize(retry, wall)];
    assert with[..|before|] == before && with[i] == before[i] && with[..i] == before[..i];
    LaterAnswersRepeat(with, i, |before|);
    Ledger.AuthorizeMeaning(Run(before), retry, wall);
    RunStep(with, |before|);
    assert with[..|before| + 1] == with;
    hide Run, Ledger.AuthorizeBooks;
  }

  /** The same later step, with and without the inserted one. */
  lemma Shifted(before: seq<Step>, x: Step, rest: seq<Step>, k: nat)
    requires k < |rest|
    ensures var longer := before + [x] + rest;
      && longer[..|before|] == before && longer[|before|] == x
      && longer[..|before| + 1 + k] == before + [x] + rest[..k] && longer[|before| + 1 + k] == rest[k]
      && (before + rest)[..|before| + k] == before + rest[..k] && (before + rest)[|before| + k] == rest[k]
      && (before + [x])[..|before|] == before && (before + [x])[|before|] == x && rest[..|rest|] == rest
  {
  }

  /** Inserting a retry of a granted intent anywhere after the grant: it gets the nonce it got
      before, and no later answer and no later state changes. */
  lemma InsertedReplayIsInvisible(before: seq<Step>, rest: seq<Step>, i: nat, retry: Ledger.Request, wall: int64, k: nat)
    requires i < |before| && Succeeds(before, i) && k < |rest|
    requires retry.Id() == before[i].req.Id() && retry.digest == before[i].req.digest
    ensures var longer := before + [Authorize(retry, wall)] + rest;
      && Run(longer) == Run(before + rest)
      && ReplyAt(longer, |before|) == Answer(Ok(Ledger.Grant(GrantAt(before, i).nonce, true)))
      && ReplyAt(longer, |before| + 1 + k) == ReplyAt(before + rest, |before| + k)
  {
    var with := before + [Authorize(retry, wall)];
    var longer := with + rest;
    RetryMovesNothing(before, i, retry, wall);
    SameStateSameRest(with, before, rest, |rest|);
    SameStateSameRest(with, before, rest, k);
    Shifted(before, Authorize(retry, wall), rest, k);
    hide Next, Run, Succeeds, GrantAt;
    assert ReplyAt(longer, |before|) == ReplyAt(with, |before|);
  }

  // ---- and the signature is always over the same thing ----

  /** What the endpoint asks to have signed, and the authorization that goes with it: the digest
      is the hash of the encoded action and the network. */
  ghost predicate Commits(sha: L1Hash.Hash, s: Step, action: Msgpack.Value, testnet: bool) {
    s.Authorize? && s.req.digest == sha(L1Hash.IntentPreimage(action, testnet))
  }

  /** All successful answers for one key and cloid sign the same action bytes, nonce and network,
      hence the same digest, or two intent preimages collide under SHA-256. */
  lemma OneIntentPerCloid(keccak: L1Hash.Hash, sha: L1Hash.Hash, steps: seq<Step>, i: nat, j: nat,
                          a: Msgpack.Value, b: Msgpack.Value, p: bool, q: bool)
    requires i < j < |steps| && Succeeds(steps, i) && Succeeds(steps, j)
    requires steps[i].req.Id() == steps[j].req.Id()
    requires Commits(sha, steps[i], a, p) && Commits(sha, steps[j], b, q)
    ensures
      || L1Hash.Collide(sha, L1Hash.IntentPreimage(a, p), L1Hash.IntentPreimage(b, q))
      || (&& Msgpack.Enc(a) == Msgpack.Enc(b) && p == q && GrantAt(steps, i).nonce == GrantAt(steps, j).nonce
          && L1Hash.SignedDigest(keccak, a, GrantAt(steps, i).nonce, p)
             == L1Hash.SignedDigest(keccak, b, GrantAt(steps, j).nonce, q)
          && (LongArrays.SelfDelimiting(a) && LongArrays.SelfDelimiting(b) ==> Msgpack.Canon(a) == Msgpack.Canon(b)))
  {
    hide Msgpack.Enc, Msgpack.Canon, LongArrays.SelfDelimiting, L1Hash.SignedDigest, L1Hash.IntentPreimage;
    hide Next, Run;
    LaterAnswersRepeat(steps, i, j);
    if L1Hash.IntentPreimage(a, p) == L1Hash.IntentPreimage(b, q) {
      L1Hash.IntentPreimageUnambiguous(a, b, p, q);
      SameBytesSameDigest(keccak, a, b, GrantAt(steps, i).nonce, p);
    }
  }

  lemma SameBytesSameDigest(keccak: L1Hash.Hash, a: Msgpack.Value, b: Msgpack.Value, nonce: uint64, testnet: bool)
    requires Msgpack.Enc(a) == Msgpack.Enc(b)
    ensures L1Hash.SignedDigest(keccak, a, nonce, testnet) == L1Hash.SignedDigest(keccak, b, nonce, testnet)
  {
    hide Msgpack.Enc, Msgpack.BE, L1Hash.AgentPreimage;
  }

  /** A different action or network under a used cloid is refused, unless the hash collides. */
  lemma CloidIsNotReused(sha: L1Hash.Hash, steps: seq<Step>, i: nat, j: nat,
                         a: Msgpack.Value, b: Msgpack.Value, p: bool, q: bool)
    requires i < j < |steps| && Succeeds(steps, i)
    requires Commits(sha, steps[i], a, p) && Commits(sha, steps[j], b, q)
    requires steps[i].req.Id() == steps[j].req.Id()
    requires !L1Hash.Collide(sha, L1Hash.IntentPreimage(a, p), L1Hash.IntentPreimage(b, q))
    ensures Succeeds(steps, j) <==> Msgpack.Enc(a) == Msgpack.Enc(b) && p == q
  {
    hide Msgpack.Enc, Next, Run;
    LaterAnswersRepeat(steps, i, j);
    if L1Hash.IntentPreimage(a, p) == L1Hash.IntentPreimage(b, q) {
      L1Hash.IntentPreimageUnambiguous(a, b, p, q);
    }
  }

  // ---- how far nonces run ahead of the clock ----

  predicate OnKey(s: Step, keyID: string) { s.Authorize? && s.req.keyID == keyID }

  /** Fresh grants made to the key. */
  function Grants(steps: seq<Step>, keyID: string): nat {
    if steps == [] then 0
    else
      var n := |steps| - 1;
      Grants(steps[..n], keyID) + if OnKey(steps[n], keyID) && Fresh(steps, n) then 1 else 0
  }

  ghost predicate ClockSteady(steps: seq<Step>, keyID: string) {
    forall i, j :: 0 <= i < j < |steps| && OnKey(steps[i], keyID) && OnKey(steps[j], keyID) ==>
      steps[i].req.nowMs <= steps[j].req.nowMs
  }

  ghost predicate ClockUpTo(steps: seq<Step>, keyID: string, now: int64) {
    forall i :: 0 <= i < |steps| && OnKey(steps[i], keyID) ==> steps[i].req.nowMs <= now
  }

  function HighWater(b: Ledger.Books, keyID: string): uint64 { b.WriterOf(keyID).lastNonce }

  lemma {:induction false} GrantsAreSteps(steps: seq<Step>, keyID: string)
    ensures Grants(steps, keyID) <= |steps|
  {
    if steps != [] {
      GrantsAreSteps(steps[..|steps| - 1], keyID);
    }
  }

  lemma WriterMark(s: SingleWriter.State, r: SingleWriter.Request)
    requires SingleWriter.Decide(s, r).1.Ok?
    ensures var (s', out) := SingleWriter.Decide(s, r);
      s'.lastNonce == out.value == Nonce.NextAfter(s.lastNonce, r.nowMs) && 0 < r.nowMs
  {
  }

  lemma FreshMark(b: Ledger.Books, r: Ledger.Request, wall: int64)
    requires Ledger.AuthorizeBooks(b, r, wall).1.Ok? && !Ledger.AuthorizeBooks(b, r, wall).1.value.duplicate
    ensures var (b', out) := Ledger.AuthorizeBooks(b, r, wall);
      HighWater(b', r.keyID) == out.value.nonce == Nonce.NextAfter(HighWater(b, r.keyID), r.nowMs) && 0 < r.nowMs
  {
    Ledger.AuthorizeMeaning(b, r, wall);
    WriterMark(b.WriterOf(r.keyID), r.ForWriter());
    hide Ledger.AuthorizeBooks, SingleWriter.Decide, Ledger.DecideSpend, Ledger.Books.WriterOf, Ledger.Books.SpendOf;
    hide Nonce.NextAfter;
  }

  lemma OtherMarks(b: Ledger.Books, s: Step, keyID: string)
    requires !(OnKey(s, keyID) && Next(b, s).1.grant.Ok? && !Next(b, s).1.grant.value.duplicate)
    ensures HighWater(Next(b, s).0, keyID) == HighWater(b, keyID)
  {
    if s.Authorize? {
      Ledger.AuthorizeMeaning(b, s.req, s.wall);
      hide Ledger.AuthorizeBooks, SingleWriter.Decide, Ledger.DecideSpend, Ledger.Books.WriterOf, Ledger.Books.SpendOf;
    }
  }

  /** The high-water mark moves only on fresh grants of the key. */
  lemma MarkMoves(b: Ledger.Books, s: Step, keyID: string)
    ensures var (b', out) := Next(b, s);
      if OnKey(s, keyID) && out.grant.Ok? && !out.grant.value.duplicate
      then
        && HighWater(b', keyID) == out.grant.value.nonce == Nonce.NextAfter(HighWater(b, keyID), s.req.nowMs)
        && 0 < s.req.nowMs
      else HighWater(b', keyID) == HighWater(b, keyID)
  {
    hide Ledger.AuthorizeBooks, Ledger.ReconcileBooks, HighWater, Nonce.NextAfter;
    if OnKey(s, keyID) && Next(b, s).1.grant.Ok? && !Next(b, s).1.grant.value.duplicate {
      FreshMark(b, s.req, s.wall);
    } else {
      OtherMarks(b, s, keyID);
    }
  }

  lemma LastStepMarks(steps: seq<Step>, keyID: string)
    requires steps != []
    ensures var n := |steps| - 1;
      var b, b' := Run(steps[..n]), Run(steps);
      if OnKey(steps[n], keyID) && Fresh(steps, n)
      then
        && Grants(steps, keyID) == Grants(steps[..n], keyID) + 1 && 0 < steps[n].req.nowMs
        && HighWater(b', keyID) == Nonce.NextAfter(HighWater(b, keyID), steps[n].req.nowMs)
      else Grants(steps, keyID) == Grants(steps[..n], keyID) && HighWater(b', keyID) == HighWater(b, keyID)
  {
    hide Next, HighWater, Nonce.NextAfter;
    var n := |steps| - 1;
    MarkMoves(Run(steps[..n]), steps[n], keyID);
  }

  predicate Near(mark: int, grants: nat, now: int) { mark <= if grants == 0 then 0 else now + grants - 1 }

  lemma NextIsNear(mark: uint64, grants: nat, nowMs: int64, now: int64)
    requires 0 < nowMs <= now && grants < TWO63 && Near(mark, grants, nowMs)
    ensures Near(Nonce.NextAfter(mark, nowMs), grants + 1, now)
  {
  }

  lemma ClockBefore(steps: seq<Step>, keyID: string, now: int64)
    requires steps != [] && ClockSteady(steps, keyID) && ClockUpTo(steps, keyID, now)
    ensures var n := |steps| - 1;
      && ClockSteady(steps[..n], keyID) && ClockUpTo(steps[..n], keyID, now)
      && (OnKey(steps[n], keyID) ==> ClockUpTo(steps[..n], keyID, steps[n].req.nowMs) && steps[n].req.nowMs <= now)
  {
  }

  lemma {:induction false} MarkIsNear(steps: seq<Step>, keyID: string, now: int64)
    requires |steps| < TWO63 && ClockSteady(steps, keyID) && ClockUpTo(steps, keyID, now)
    ensures Near(HighWater(Run(steps), keyID), Grants(steps, keyID), now)
    decreases |steps|, 1
  {
    if steps == [] {
      assert HighWater(Run(steps), keyID) == 0;
    } else {
      LastStepNear(steps, keyID, now);
    }
  }

  lemma {:induction false} LastStepNear(steps: seq<Step>, keyID: string, now: int64)
    requires 0 < |steps| < TWO63 && ClockSteady(steps, keyID) && ClockUpTo(steps, keyID, now)
    ensures Near(HighWater(Run(steps), keyID), Grants(steps, keyID), now)
    decreases |steps|, 0
  {
    hide Run, Grants, Fresh, HighWater, Near, ClockSteady, ClockUpTo, Nonce.NextAfter;
    var n := |steps| - 1;
    var before, s := steps[..n], steps[n];
    ClockBefore(steps, keyID, now);
    LastStepMarks(steps, keyID);
    GrantsAreSteps(before, keyID);
    if OnKey(s, keyID) && Fresh(steps, n) {
      MarkIsNear(before, keyID, s.req.nowMs);
      NextIsNear(HighWater(Run(before), keyID), Grants(before, keyID), s.req.nowMs, now);
    } else {
      MarkIsNear(before, keyID, now);
    }
  }

  /** Nonce drift: on a key whose clock does not go backwards, a fresh nonce lies between now and
      now plus the number of earlier fresh grants, so it does not wrap and the exchange accepts it
      while fewer than 86,400,000 grants have been made. */
  lemma NonceDrift(steps: seq<Step>, i: nat)
    requires |steps| < TWO63 && i < |steps| && Fresh(steps, i) && ClockSteady(steps, steps[i].req.keyID)
    ensures var (n, now, c) := (GrantAt(steps, i).nonce, steps[i].req.nowMs, Grants(steps[..i], steps[i].req.keyID));
      && now <= n <= now + c
      && (c < 86_400_000 && now < TWO63 - 2 * Nonce.WINDOW_FUTURE_MS ==> Nonce.WithinWindow(n, now))
  {
    hide Run, Next, Grants, ClockSteady, Nonce.WithinWindow, ReplyAt;
    var n, now, c := GrantAt(steps, i).nonce, steps[i].req.nowMs, Grants(steps[..i], steps[i].req.keyID);
    NonceIsNear(steps, i);
    if c < 86_400_000 && now < TWO63 - 2 * Nonce.WINDOW_FUTURE_MS {
      Nonce.CurrentNonceInWindow(n, now);
    }
  }

  lemma NonceIsNear(steps: seq<Step>, i: nat)
    requires |steps| < TWO63 && i < |steps| && Fresh(steps, i) && ClockSteady(steps, steps[i].req.keyID)
    ensures var (n, now, c) := (GrantAt(steps, i).nonce, steps[i].req.nowMs, Grants(steps[..i], steps[i].req.keyID));
      0 < now <= n <= now + c && c <= i
  {
    hide Run, Grants, Nonce.ToInt64;
    var keyID, now := steps[i].req.keyID, steps[i].req.nowMs;
    MarkMoves(Run(steps[..i]), steps[i], keyID);
    MarkIsNear(steps[..i], keyID, now);
    GrantsAreSteps(steps[..i], keyID);
    hide Next;
  }

  function Plain(keyID: string, cloid: string, nowMs: int64): Ledger.Request {
    Ledger.Request(keyID, cloid, [], 0, Fin(0.0), Fin(0.0), "", Fin(0.0), nowMs)
  }

  lemma PlainIsGranted(b: Ledger.Books, keyID: string, cloid: string, nowMs: int64)
    requires cloid != "" && Ledger.Key(keyID, cloid) !in b.records && b.WriterOf(keyID).fence == 0 && 0 < nowMs
    ensures var (b', out) := Ledger.AuthorizeBooks(b, Plain(keyID, cloid, nowMs), 0);
      && out.Ok? && !out.value.duplicate && b'.WriterOf(keyID).fence == 0
      && b'.records.Keys == b.records.Keys + {Ledger.Key(keyID, cloid)}
      && HighWater(b', keyID) == out.value.nonce == Nonce.NextAfter(HighWater(b, keyID), nowMs)
  {
    Ledger.UncappedIntentIsGranted(b, Plain(keyID, cloid, nowMs), 0);
    FreshMark(b, Plain(keyID, cloid, nowMs), 0);
    hide Ledger.AuthorizeBooks;
  }

  /** The clock matters: after a grant at `now`, a clock set back to 1 gets a nonce `now` ahead. */
  lemma RegressingClockRunsAhead(now: int64)
    requires now > 1
    ensures var steps := [Authorize(Plain("k", "a", now), 0), Authorize(Plain("k", "b", 1), 0)];
      Fresh(steps, 1) && GrantAt(steps, 1).nonce == steps[1].req.nowMs + now && Grants(steps[..1], "k") == 1
  {
    var steps := [Authorize(Plain("k", "a", now), 0), Authorize(Plain("k", "b", 1), 0)];
    assert steps[..0] == [] && steps[..1] == [steps[0]] && [steps[0]][..0] == [];
    PlainIsGranted(Ledger.EMPTY, "k", "a", now);
    PlainIsGranted(Next(Ledger.EMPTY, steps[0]).0, "k", "b", 1);
    hide Ledger.AuthorizeBooks;
    assert Run(steps[..1]) == Next(Ledger.EMPTY, steps[0]).0;
  }
}
