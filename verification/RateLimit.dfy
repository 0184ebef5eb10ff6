/** The token-bucket limiter, with and without eviction of idle buckets. */
module RateLimit {
  import opened Numbers
  import opened Wrappers

  datatype Bucket = Bucket(tokens: real, lastMs: int64)

  datatype Call = Call(keyID: string, rate: Float, burst: Float, now: int64)

  /** `maxIdleMs` and `maxBuckets` are zero when there is no such bound. */
  datatype State = State(maxIdleMs: int64, maxBuckets: int64, calls: uint64, buckets: map<string, Bucket>)

  function New(maxIdleMs: int64, maxBuckets: int64): State {
    State(if maxIdleMs <= 0 then 0 else maxIdleMs, if maxBuckets <= 0 then 0 else maxBuckets, 0, map[])
  }

  /** The answer that needs no bucket: misconfigured is denied, rate zero is unlimited. */
  function Gate(rate: Float, burst: Float): Option<bool> {
    if !rate.Fin? || !burst.Fin? then Some(false)
    else if rate.r < 0.0 then Some(false)
    else if rate.r == 0.0 then Some(true)
    else if burst.r <= 0.0 then Some(false)
    else None
  }

  predicate Idle(b: Bucket, maxIdleMs: int64, now: int64) { Sub64(now, b.lastMs) > maxIdleMs }

  function Reaped(buckets: map<string, Bucket>, maxIdleMs: int64, now: int64): map<string, Bucket> {
    if maxIdleMs <= 0 then buckets else map k | k in buckets && !Idle(buckets[k], maxIdleMs, now) :: buckets[k]
  }

  /** Tokens that so many milliseconds bring. */
  function Worth(rate: real, ms: int): real { ms as real / 1000.0 * rate }

  function Refill(b: Bucket, rate: real, burst: real, now: int64): Bucket {
    var elapsed := Sub64(now, b.lastMs);
    var tokens := if elapsed > 0 then b.tokens + Worth(rate, elapsed) else b.tokens;
    Bucket(if elapsed > 0 && tokens > burst then burst else tokens, now)
  }

  /** One token is taken if there is one. */
  function Take(b: Bucket): (Bucket, bool) { if b.tokens >= 1.0 then (b.(tokens := b.tokens - 1.0), true) else (b, false) }

  /** A key seen for the first time starts with a full bucket. */
  function Touch(b: Option<Bucket>, rate: real, burst: real, now: int64): (Bucket, bool) {
    Take(if b.Some? then Refill(b.value, rate, burst, now) else Bucket(burst, now))
  }

  function BucketOf(buckets: map<string, Bucket>, keyID: string): Option<Bucket> {
    if keyID in buckets then Some(buckets[keyID]) else None
  }

  /** Counts the call, and on the first and every 256th evicts idle buckets. */
  function Counted(s: State, now: int64): State {
    if s.maxIdleMs <= 0 && s.maxBuckets <= 0 then s
    else
      var calls := Succ64(s.calls);
      s.(calls := calls,
         buckets := if calls == 1 || calls % 256 == 0 then Reaped(s.buckets, s.maxIdleMs, now) else s.buckets)
  }

  /** A new key needs room, and evicts idle buckets to find some. */
  function Roomed(s: State, keyID: string, now: int64): State {
    if keyID !in s.buckets && s.maxBuckets > 0 && |s.buckets| >= s.maxBuckets
    then s.(buckets := Reaped(s.buckets, s.maxIdleMs, now)) else s
  }

  function Allow(s: State, c: Call): (State, bool) {
    match Gate(c.rate, c.burst)
    case Some(answer) => (s, answer)
    case None =>
      var s1 := Roomed(Counted(s, c.now), c.keyID, c.now);
      if c.keyID !in s1.buckets && s1.maxBuckets > 0 && |s1.buckets| >= s1.maxBuckets then (s1, false)
      else
        var (b, ok) := Touch(BucketOf(s1.buckets, c.keyID), c.rate.r, c.burst.r, c.now);
        (s1.(buckets := s1.buckets[c.keyID := b]), ok)
  }

  function Run(s: State, calls: seq<Call>): State {
    if calls == [] then s else Allow(Run(s, calls[..|calls| - 1]), calls[|calls| - 1]).0
  }

  function ReplyAt(s: State, calls: seq<Call>, i: nat): bool
    requires i < |calls|
  {
    Allow(Run(s, calls[..i]), calls[i]).1
  }

  // ---- the limiter ----

  class Limiter {
    const maxIdleMs: int64
    const maxBuckets: int64
    var calls: uint64
    var buckets: map<string, Bucket>

    constructor (maxIdleMs: int64, maxBuckets: int64)
      ensures Contents() == New(maxIdleMs, maxBuckets)
    {
      this.maxIdleMs := if maxIdleMs <= 0 then 0 else maxIdleMs;
      this.maxBuckets := if maxBuckets <= 0 then 0 else maxBuckets;
      calls, buckets := 0, map[];
    }

    function Contents(): State
      reads this
    {
      State(maxIdleMs, maxBuckets, calls, buckets)
    }

    /** Deletes while walking the buckets in whatever order they come. */
    method ReapExpired(now: int64)
      modifies this`buckets
      ensures buckets == Reaped(old(buckets), maxIdleMs, now)
    {
      if maxIdleMs <= 0 { return; }
      ghost var before := buckets;
      var rest := buckets.Keys;
      while rest != {}
        invariant rest <= before.Keys
        invariant buckets == map k | k in before && (k in rest || !Idle(before[k], maxIdleMs, now)) :: before[k]
        decreases rest
      {
        var key :| key in rest;
        if Idle(buckets[key], maxIdleMs, now) {
          buckets := buckets - {key};
        }
        rest := rest - {key};
      }
    }

    method AllowCall(keyID: string, rate: Float, burst: Float, now: int64) returns (ok: bool)
      modifies this
      ensures (Contents(), ok) == Allow(old(Contents()), Call(keyID, rate, burst, now))
    {
      hide Reaped, Refill, Take;
      if rate == NaN || rate == PosInf || rate == NegInf || burst == NaN || burst == PosInf || burst == NegInf {
        return false;
      }
      if rate.r < 0.0 { return false; }
      if rate.r == 0.0 { return true; }
      if burst.r <= 0.0 { return false; }
      if maxIdleMs > 0 || maxBuckets > 0 {
        calls := Succ64(calls);
        if calls == 1 || calls % 256 == 0 { ReapExpired(now); }
      }
      var b;
      if keyID !in buckets {
        if maxBuckets > 0 && |buckets| >= maxBuckets {
          ReapedIsSmaller(buckets, maxIdleMs, now);
          ReapExpired(now);
          if |buckets| >= maxBuckets { return false; }
        }
        b := Bucket(burst.r, now);
      } else {
        b := Refill(buckets[keyID], rate.r, burst.r, now);
      }
      var (left, granted) := Take(b);
      buckets := buckets[keyID := left];
      return granted;
    }
  }

  // ---- the bound on the map ----

  lemma ReapedIsSmaller(buckets: map<string, Bucket>, maxIdleMs: int64, now: int64)
    ensures var kept := Reaped(buckets, maxIdleMs, now);
      kept.Keys <= buckets.Keys && |kept| <= |buckets| && forall k :: k in kept ==> kept[k] == buckets[k]
  {
    var kept := Reaped(buckets, maxIdleMs, now);
    assert kept.Keys <= buckets.Keys;
    Smaller(kept.Keys, buckets.Keys);
  }

  lemma Smaller(a: set<string>, b: set<string>)
    requires a <= b
    ensures |a| <= |b| && (|a| == |b| ==> a == b)
  {
    assert b == a + (b - a);
  }

  lemma {:induction false} SettingsFixed(maxIdleMs: int64, maxBuckets: int64, calls: seq<Call>)
    ensures var s0, s := New(maxIdleMs, maxBuckets), Run(New(maxIdleMs, maxBuckets), calls);
      s.maxIdleMs == s0.maxIdleMs && s.maxBuckets == s0.maxBuckets
  {
    if calls != [] {
      SettingsFixed(maxIdleMs, maxBuckets, calls[..|calls| - 1]);
    }
  }

  lemma SettingsHold(maxIdleMs: int64, maxBuckets: int64, calls: seq<Call>)
    ensures var s := Run(New(maxIdleMs, maxBuckets), calls);
      && s.maxIdleMs == New(maxIdleMs, maxBuckets).maxIdleMs && s.maxBuckets == New(maxIdleMs, maxBuckets).maxBuckets
      && CapHolds(s)
  {
    hide Run;
    SettingsFixed(maxIdleMs, maxBuckets, calls);
    if maxBuckets > 0 { NeverOverCap(maxIdleMs, maxBuckets, calls); }
  }

  /** However the clock moves, a capped limiter never holds more buckets than its cap. */
  lemma {:induction false} NeverOverCap(maxIdleMs: int64, maxBuckets: int64, calls: seq<Call>)
    requires maxBuckets > 0
    ensures |Run(New(maxIdleMs, maxBuckets), calls).buckets| <= maxBuckets
  {
    if calls != [] {
      var before, c := calls[..|calls| - 1], calls[|calls| - 1];
      var s := Run(New(maxIdleMs, maxBuckets), before);
      NeverOverCap(maxIdleMs, maxBuckets, before);
      SettingsFixed(maxIdleMs, maxBuckets, before);
      CapKept(s, c);
      hide Allow;
    }
  }

  lemma CapKept(s: State, c: Call)
    requires s.maxBuckets > 0 && |s.buckets| <= s.maxBuckets
    ensures |Allow(s, c).0.buckets| <= s.maxBuckets
  {
    hide Reaped, Touch;
    ReapedIsSmaller(s.buckets, s.maxIdleMs, c.now);
    var s1 := Counted(s, c.now);
    ReapedIsSmaller(s1.buckets, s.maxIdleMs, c.now);
    var s2 := Roomed(s1, c.keyID, c.now);
    assert |s2.buckets| <= s.maxBuckets;
    hide Counted, Roomed;
    if Gate(c.rate, c.burst).None? {
      Added(s2.buckets, c.keyID, Touch(BucketOf(s2.buckets, c.keyID), c.rate.r, c.burst.r, c.now).0);
    }
  }

  lemma SettingsKept(s: State, c: Call)
    ensures var s' := Allow(s, c).0; s'.maxIdleMs == s.maxIdleMs && s'.maxBuckets == s.maxBuckets
  {
    hide Reaped, Touch;
  }

  lemma Added(m: map<string, Bucket>, k: string, b: Bucket)
    ensures |m[k := b]| == if k in m then |m| else |m| + 1
  {
    assert m[k := b].Keys == m.Keys + {k};
    if k in m { assert m.Keys + {k} == m.Keys; }
  }

  // ---- one call ----

  /** Without a positive, finite rate and burst there is no bucket and nothing changes: rate zero lets
      the call through, anything else is misconfigured and denied. */
  lemma GateMeans(s: State, c: Call)
    ensures c.rate == Fin(0.0) && c.burst.Fin? ==> Allow(s, c) == (s, true)
    ensures !c.rate.Fin? || !c.burst.Fin? || c.rate.r < 0.0 || (c.rate.r > 0.0 && c.burst.r <= 0.0) ==>
      Allow(s, c) == (s, false)
    ensures Gate(c.rate, c.burst).None? <==> c.rate.Fin? && c.burst.Fin? && c.rate.r > 0.0 && c.burst.r > 0.0
  {
    hide Counted, Roomed, Touch;
  }

  predicate TooIdle(s: State, k: string, now: int64)
    requires k in s.buckets
  {
    s.maxIdleMs > 0 && Idle(s.buckets[k], s.maxIdleMs, now)
  }

  /** Clocks from the epoch on: idle too long means untouched for more than the idle time. */
  lemma TooIdleMeans(s: State, k: string, now: int64)
    requires k in s.buckets && 0 <= s.buckets[k].lastMs && 0 <= now
    ensures TooIdle(s, k, now) <==> 0 < s.maxIdleMs < now - s.buckets[k].lastMs
  {
  }

  predicate Full(s: State) { 0 < s.maxBuckets <= |s.buckets| }

  ghost predicate CapHolds(s: State) { s.maxBuckets > 0 ==> |s.buckets| <= s.maxBuckets }

  /** There is no room for the call's key: it is new, the map is full, and no bucket is idle too long. */
  ghost predicate NoRoom(s: State, c: Call) {
    && Gate(c.rate, c.burst).None? && c.keyID !in s.buckets && Full(s)
    && forall k :: k in s.buckets ==> !TooIdle(s, k, c.now)
  }

  /** Buckets idle too long go on the first call, on every 256th, and when a new key needs room. */
  predicate Sweeps(s: State, c: Call) {
    Succ64(s.calls) == 1 || Succ64(s.calls) % 256 == 0 || (c.keyID !in s.buckets && Full(s))
  }

  predicate Keeps(s: State, c: Call, k: string) { k in s.buckets && !(Sweeps(s, c) && TooIdle(s, k, c.now)) }

  function KeptBucket(s: State, c: Call, k: string): Option<Bucket> {
    if Keeps(s, c, k) then Some(s.buckets[k]) else None
  }

  lemma ReapedExactly(buckets: map<string, Bucket>, maxIdleMs: int64, now: int64)
    ensures var kept := Reaped(buckets, maxIdleMs, now);
      && (forall k :: k in kept <==> k in buckets && !(maxIdleMs > 0 && Idle(buckets[k], maxIdleMs, now)))
      && (forall k :: k in kept ==> kept[k] == buckets[k])
      && Reaped(kept, maxIdleMs, now) == kept
      && |kept| <= |buckets|
      && (|kept| == |buckets| <==> kept == buckets)
      && (kept == buckets <==> forall k :: k in buckets ==> !(maxIdleMs > 0 && Idle(buckets[k], maxIdleMs, now)))
  {
    hide Idle;
    var kept := Reaped(buckets, maxIdleMs, now);
    assert kept.Keys <= buckets.Keys;
    Smaller(kept.Keys, buckets.Keys);
    assert Reaped(kept, maxIdleMs, now) == kept;
    if |kept| == |buckets| {
      assert kept.Keys == buckets.Keys;
      assert kept == buckets;
    }
  }

  /** The state in which the bucket is looked up. */
  lemma SweptMeans(s: State, c: Call)
    requires CapHolds(s)
    ensures var s1 := Roomed(Counted(s, c.now), c.keyID, c.now);
      && s1.maxIdleMs == s.maxIdleMs && s1.maxBuckets == s.maxBuckets
      && (forall k :: k in s1.buckets <==> Keeps(s, c, k))
      && (forall k :: k in s1.buckets ==> s1.buckets[k] == s.buckets[k])
      && (c.keyID !in s1.buckets && Full(s1) <==>
            c.keyID !in s.buckets && Full(s) && forall k :: k in s.buckets ==> !TooIdle(s, k, c.now))
  {
    hide Idle, Reaped;
    ReapedExactly(s.buckets, s.maxIdleMs, c.now);
    var kept := Reaped(s.buckets, s.maxIdleMs, c.now);
    var s1 := Roomed(Counted(s, c.now), c.keyID, c.now);
    assert s1.buckets == if Sweeps(s, c) then kept else s.buckets;
    if c.keyID !in s1.buckets && Full(s1) {
      assert |s1.buckets| == |s.buckets| && s1.buckets == s.buckets;
      assert Sweeps(s, c) && kept == s.buckets;
    }
  }

  /** One call on a bucket, in full: who is evicted, who stays as it was, what the key's own bucket
      becomes, and the answer. */
  lemma AllowMeans(s: State, c: Call)
    requires CapHolds(s) && Gate(c.rate, c.burst).None?
    ensures var (s', ok) := Allow(s, c);
      && s'.maxIdleMs == s.maxIdleMs && s'.maxBuckets == s.maxBuckets
      && (forall k :: k in s'.buckets <==> Keeps(s, c, k) || (k == c.keyID && !NoRoom(s, c)))
      && (forall k :: k in s'.buckets && k != c.keyID ==> s'.buckets[k] == s.buckets[k])
      && (NoRoom(s, c) ==> !ok && s'.buckets == s.buckets)
      && (!NoRoom(s, c) ==> (s'.buckets[c.keyID], ok) == Touch(KeptBucket(s, c, c.keyID), c.rate.r, c.burst.r, c.now))
  {
    SweptMeans(s, c);
    hide Counted, Roomed, TooIdle, Touch, Sweeps;
    var s1 := Roomed(Counted(s, c.now), c.keyID, c.now);
    if NoRoom(s, c) {
      assert s1.buckets == s.buckets;
    } else {
      assert BucketOf(s1.buckets, c.keyID) == KeptBucket(s, c, c.keyID);
    }
  }

  /** A new key with settings worth a token is denied exactly when the map is full of buckets none of
      which has been idle too long; otherwise it starts with a full bucket less one token. */
  lemma NewKeyDeniedExactlyWhen(s: State, c: Call)
    requires CapHolds(s) && c.keyID !in s.buckets
    requires c.rate.Fin? && c.rate.r > 0.0 && c.burst.Fin? && c.burst.r >= 1.0
    ensures var (s', ok) := Allow(s, c);
      && (!ok <==> 0 < s.maxBuckets <= |s.buckets| && forall k :: k in s.buckets ==> !TooIdle(s, k, c.now))
      && (ok ==> c.keyID in s'.buckets && s'.buckets[c.keyID] == Bucket(c.burst.r - 1.0, c.now))
      && (!ok ==> s'.buckets == s.buckets)
  {
    AllowMeans(s, c);
    hide Allow, TooIdle;
  }

  /** A key that has its bucket is never turned away for lack of room: the answer and the bucket are
      those of a limiter without a cap. */
  lemma HeldKeyHasRoom(s: State, c: Call)
    requires CapHolds(s) && c.keyID in s.buckets
    ensures var (s', ok) := Allow(s, c);
      var (u', free) := Allow(s.(maxBuckets := 0), c);
      ok == free && BucketOf(s'.buckets, c.keyID) == BucketOf(u'.buckets, c.keyID)
  {
    hide Touch;
    var u := s.(maxBuckets := 0);
    if Gate(c.rate, c.burst).None? {
      AllowMeans(s, c);
      AllowMeans(u, c);
      assert KeptBucket(u, c, c.keyID) == KeptBucket(s, c, c.keyID);
    }
    hide Allow, Gate;
  }

  /** A full map of one idle bucket: the new key is let in on a call that is no sweep by itself. */
  lemma IdleBucketMakesRoom(c: Call)
    requires c.keyID != "old" && c.rate == Fin(1.0) && c.burst == Fin(1.0) && c.now == 3_600_000
    ensures var s := State(1_800_000, 1, 1, map["old" := Bucket(0.0, 0)]);
      !(Succ64(s.calls) == 1) && Succ64(s.calls) % 256 != 0
      && Allow(s, c).1 && Allow(s, c).0.buckets.Keys == {c.keyID}
  {
    var s := State(1_800_000, 1, 1, map["old" := Bucket(0.0, 0)]);
    assert "old" in s.buckets && |s.buckets| == 1;
    TooIdleMeans(s, "old", c.now);
    AllowMeans(s, c);
    NewKeyDeniedExactlyWhen(s, c);
    hide Allow, TooIdle;
  }

  function StateBefore(s: State, calls: seq<Call>, i: nat): State
    requires i <= |calls|
  {
    Run(s, calls[..i])
  }

  /** No call of the key finds the map without room for it. */
  ghost predicate Roomy(s: State, calls: seq<Call>, keyID: string) {
    forall i :: 0 <= i < |calls| && calls[i].keyID == keyID ==> !NoRoom(StateBefore(s, calls, i), calls[i])
  }

  function KeysOf(calls: seq<Call>): set<string> { set i | 0 <= i < |calls| :: calls[i].keyID }

  lemma {:induction false} OnlyCallersHaveBuckets(maxIdleMs: int64, maxBuckets: int64, calls: seq<Call>)
    ensures Run(New(maxIdleMs, maxBuckets), calls).buckets.Keys <= KeysOf(calls)
  {
    if calls != [] {
      var n := |calls| - 1;
      var before, c := calls[..n], calls[n];
      OnlyCallersHaveBuckets(maxIdleMs, maxBuckets, before);
      SettingsHold(maxIdleMs, maxBuckets, before);
      hide Allow;
      BucketsGrowByCaller(Run(New(maxIdleMs, maxBuckets), before), c);
      assert KeysOf(calls) == KeysOf(before) + {c.keyID} by {
        assert calls == before + [c];
        forall k | k in KeysOf(before) ensures k in KeysOf(calls) {
          var i :| 0 <= i < n && before[i].keyID == k;
          assert calls[i].keyID == k;
        }
      }
    }
  }

  lemma BucketsGrowByCaller(s: State, c: Call)
    requires CapHolds(s)
    ensures Allow(s, c).0.buckets.Keys <= s.buckets.Keys + {c.keyID}
  {
    if Gate(c.rate, c.burst).None? {
      AllowMeans(s, c);
      hide Allow;
    }
  }

  /** No more callers than buckets: there is always room. */
  lemma FewCallersAlwaysFit(maxIdleMs: int64, maxBuckets: int64, calls: seq<Call>, keyID: string)
    requires maxBuckets > 0 ==> |KeysOf(calls)| <= maxBuckets
    ensures Roomy(New(maxIdleMs, maxBuckets), calls, keyID)
  {
    var s0 := New(maxIdleMs, maxBuckets);
    forall i | 0 <= i < |calls| && calls[i].keyID == keyID ensures !NoRoom(StateBefore(s0, calls, i), calls[i]) {
      var s, before := StateBefore(s0, calls, i), calls[..i];
      OnlyCallersHaveBuckets(maxIdleMs, maxBuckets, before);
      SettingsHold(maxIdleMs, maxBuckets, before);
      if keyID !in s.buckets {
        forall k | k in KeysOf(before) ensures k in KeysOf(calls) {
          var j :| 0 <= j < i && before[j].keyID == k;
          assert calls[j].keyID == k;
        }
        assert s.buckets.Keys + {keyID} <= KeysOf(calls);
        Smaller(s.buckets.Keys + {keyID}, KeysOf(calls));
      }
      hide Run, TooIdle;
    }
  }

  // ---- eviction is invisible ----

  /** Every call on the key brings the same positive rate and burst. */
  ghost predicate Steady(calls: seq<Call>, keyID: string, rate: real, burst: real) {
    && rate > 0.0 && burst > 0.0
    && forall i :: 0 <= i < |calls| && calls[i].keyID == keyID ==> calls[i].rate == Fin(rate) && calls[i].burst == Fin(burst)
  }

  /** A clock that starts at or after the epoch and does not go backwards. */
  ghost predicate Forward(calls: seq<Call>) {
    && (forall i :: 0 <= i < |calls| ==> 0 <= calls[i].now)
    && (forall i, j :: 0 <= i < j < |calls| ==> calls[i].now <= calls[j].now)
  }

  ghost predicate Before(calls: seq<Call>, t: int64) { 0 <= t && forall i :: 0 <= i < |calls| ==> calls[i].now <= t }

  /** The bucket would be full again by `t`. */
  predicate Replenished(b: Bucket, rate: real, burst: real, t: int64) {
    b.lastMs < t && b.tokens + Worth(rate, t - b.lastMs) >= burst
  }

  /** Where the evicting limiter has the key's bucket, both have the same; where it has evicted it,
      the other's is due to be full. */
  ghost predicate Alike(evicting: map<string, Bucket>, keeping: map<string, Bucket>, k: string, rate: real, burst: real, t: int64) {
    && (k in evicting ==> k in keeping && evicting[k] == keeping[k])
    && (k in keeping ==> 0.0 <= keeping[k].tokens && 0 <= keeping[k].lastMs <= t)
    && (k in keeping && k !in evicting ==> Replenished(keeping[k], rate, burst, t))
  }

  lemma Longer(rate: real, d: int, e: int)
    requires 0 <= d <= e && rate >= 0.0
    ensures 0.0 <= Worth(rate, d) <= Worth(rate, e)
  {
    assert d as real / 1000.0 <= e as real / 1000.0;
    var x, y := d as real / 1000.0, e as real / 1000.0;
    assert (y - x) * rate >= 0.0;
  }

  lemma LaterStaysAlike(e: map<string, Bucket>, u: map<string, Bucket>, k: string, rate: real, burst: real, t: int64, t': int64)
    requires Alike(e, u, k, rate, burst, t) && t <= t' && rate > 0.0
    ensures Alike(e, u, k, rate, burst, t')
  {
    if k in u && k !in e {
      Longer(rate, t - u[k].lastMs, t' - u[k].lastMs);
    }
  }

  /** One active call on the key itself: same answer, same bucket afterwards. */
  lemma TouchAlike(b: Option<Bucket>, u: map<string, Bucket>, k: string, rate: real, burst: real, now: int64)
    requires rate > 0.0 && burst > 0.0 && 0 <= now
    requires k in u ==> 0.0 <= u[k].tokens && 0 <= u[k].lastMs <= now
    requires b == BucketOf(u, k) || (b.None? && k in u && Replenished(u[k], rate, burst, now))
    ensures Touch(b, rate, burst, now) == Touch(BucketOf(u, k), rate, burst, now)
    ensures var after := Touch(BucketOf(u, k), rate, burst, now).0; 0.0 <= after.tokens && after.lastMs == now
  {
    if k in u {
      Longer(rate, 0, now - u[k].lastMs);
    }
  }

  /** The idle time is enough to refill the bucket. */
  predicate Refills(maxIdleMs: int64, rate: real, burst: real) { maxIdleMs > 0 ==> Worth(rate, maxIdleMs + 1) >= burst }

  /** Only buckets due to be full are evicted. */
  lemma EvictedIsReplenished(s: State, u: map<string, Bucket>, c: Call, k: string, rate: real, burst: real)
    requires Alike(s.buckets, u, k, rate, burst, c.now) && rate > 0.0 && Refills(s.maxIdleMs, rate, burst)
    ensures k in u && !Keeps(s, c, k) ==> Replenished(u[k], rate, burst, c.now)
  {
    hide Sweeps;
    if k in s.buckets && TooIdle(s, k, c.now) {
      Longer(rate, s.maxIdleMs + 1, c.now - u[k].lastMs);
    }
  }

  lemma AllowAlike(s: State, u: State, c: Call, k: string, rate: real, burst: real)
    requires CapHolds(s) && u.maxIdleMs == 0 && u.maxBuckets == 0
    requires 0 <= c.now && Alike(s.buckets, u.buckets, k, rate, burst, c.now) && rate > 0.0 && burst > 0.0
    requires Refills(s.maxIdleMs, rate, burst)
    requires c.keyID == k ==> c.rate == Fin(rate) && c.burst == Fin(burst) && !NoRoom(s, c)
    ensures Alike(Allow(s, c).0.buckets, Allow(u, c).0.buckets, k, rate, burst, c.now)
    ensures c.keyID == k ==> Allow(s, c).1 == Allow(u, c).1
  {
    hide Refills;
    if Gate(c.rate, c.burst).None? {
      EvictedIsReplenished(s, u.buckets, c, k, rate, burst);
      AllowMeans(s, c);
      AllowMeans(u, c);
      assert KeptBucket(u, c, k) == BucketOf(u.buckets, k);
      hide Allow, Touch, Replenished, Sweeps, TooIdle;
      if c.keyID == k {
        TouchAlike(KeptBucket(s, c, k), u.buckets, k, rate, burst, c.now);
      }
    }
  }

  lemma {:induction false} RunsAlike(maxIdleMs: int64, maxBuckets: int64, calls: seq<Call>, k: string, rate: real, burst: real, t: int64)
    requires Forward(calls) && Before(calls, t) && Steady(calls, k, rate, burst)
    requires Refills(maxIdleMs, rate, burst) && Roomy(New(maxIdleMs, maxBuckets), calls, k)
    ensures Alike(Run(New(maxIdleMs, maxBuckets), calls).buckets, Run(New(0, 0), calls).buckets, k, rate, burst, t)
  {
    hide Alike, Allow, NoRoom, Refills;
    if calls == [] {
      NoneAlike(k, rate, burst, t);
    } else {
      var n := |calls| - 1;
      var before, c := calls[..n], calls[n];
      var s0 := New(maxIdleMs, maxBuckets);
      var s, u := Run(s0, before), Run(New(0, 0), before);
      RoomyBefore(s0, calls, k, n);
      RunsAlike(maxIdleMs, maxBuckets, before, k, rate, burst, c.now);
      SettingsHold(maxIdleMs, maxBuckets, before);
      SettingsFixed(0, 0, before);
      RefillsAsNew(maxIdleMs, maxBuckets, rate, burst);
      AllowAlike(s, u, c, k, rate, burst);
      LaterStaysAlike(Allow(s, c).0.buckets, Allow(u, c).0.buckets, k, rate, burst, c.now, t);
    }
  }

  lemma NoneAlike(k: string, rate: real, burst: real, t: int64)
    ensures Alike(map[], map[], k, rate, burst, t)
  {
  }

  lemma RefillsAsNew(maxIdleMs: int64, maxBuckets: int64, rate: real, burst: real)
    ensures Refills(New(maxIdleMs, maxBuckets).maxIdleMs, rate, burst) <==> Refills(maxIdleMs, rate, burst)
  {
  }

  lemma RoomyBefore(s0: State, calls: seq<Call>, k: string, n: nat)
    requires Roomy(s0, calls, k) && n < |calls|
    ensures Roomy(s0, calls[..n], k)
    ensures calls[n].keyID == k ==> !NoRoom(Run(s0, calls[..n]), calls[n])
  {
    hide NoRoom, Run;
    var before := calls[..n];
    forall i | 0 <= i < n && before[i].keyID == k ensures !NoRoom(StateBefore(s0, before, i), before[i]) {
      assert before[..i] == calls[..i] && before[i] == calls[i];
      assert !NoRoom(StateBefore(s0, calls, i), calls[i]);
    }
    assert calls[n].keyID == k ==> !NoRoom(StateBefore(s0, calls, n), calls[n]);
  }

  /** Refinement: with a clock that does not go backwards, idle time enough to refill a bucket, and
      room for the key whenever it calls, a limiter that evicts and caps answers every call exactly
      as one that does neither. The key's own calls share one configuration, valid or not; other
      keys do as they please. */
  lemma EvictionIsInvisible(maxIdleMs: int64, maxBuckets: int64, calls: seq<Call>, i: nat)
    requires i < |calls| && Forward(calls)
    requires forall j :: 0 <= j <= i && calls[j].keyID == calls[i].keyID ==>
      calls[j].rate == calls[i].rate && calls[j].burst == calls[i].burst
    requires maxIdleMs > 0 && Gate(calls[i].rate, calls[i].burst).None? ==>
      Worth(calls[i].rate.r, maxIdleMs + 1) >= calls[i].burst.r
    requires Roomy(New(maxIdleMs, maxBuckets), calls, calls[i].keyID)
    ensures ReplyAt(New(maxIdleMs, maxBuckets), calls, i) == ReplyAt(New(0, 0), calls, i)
  {
    var c, s0 := calls[i], New(maxIdleMs, maxBuckets);
    if Gate(c.rate, c.burst).None? {
      var rate, burst := c.rate.r, c.burst.r;
      RoomyBefore(s0, calls, c.keyID, i);
      RunsAlike(maxIdleMs, maxBuckets, calls[..i], c.keyID, rate, burst, c.now);
      SettingsHold(maxIdleMs, maxBuckets, calls[..i]);
      SettingsFixed(0, 0, calls[..i]);
      RefillsAsNew(maxIdleMs, maxBuckets, rate, burst);
      hide Alike, Run, Allow, NoRoom, Worth;
      AllowAlike(Run(s0, calls[..i]), Run(New(0, 0), calls[..i]), c, c.keyID, rate, burst);
    }
  }

  // ---- how much gets through ----

  /** Grants to the key among `calls[i..]`. */
  function Grants(s: State, calls: seq<Call>, keyID: string, i: nat): nat
    requires i <= |calls|
    decreases |calls|
  {
    if i == |calls| then 0
    else
      var n := |calls| - 1;
      Grants(s, calls[..n], keyID, i) + if calls[n].keyID == keyID && ReplyAt(s, calls, n) then 1 else 0
  }

  /** Tokens on hand at `t`. */
  function OnHand(buckets: map<string, Bucket>, k: string, rate: real, burst: real, t: int64): real {
    if k !in buckets then burst
    else
      var tokens := buckets[k].tokens + Worth(rate, t - buckets[k].lastMs);
      if tokens > burst then burst else tokens
  }

  predicate InShape(buckets: map<string, Bucket>, k: string, burst: real, t: int64) {
    0 <= t && (k in buckets ==> 0.0 <= buckets[k].tokens <= burst && 0 <= buckets[k].lastMs <= t)
  }

  /** A call on the key is granted if there is a token on hand, and takes it. */
  lemma CallSpends(b: Option<Bucket>, buckets: map<string, Bucket>, after: map<string, Bucket>, k: string, rate: real, burst: real, now: int64)
    requires InShape(buckets, k, burst, now) && rate > 0.0 && burst > 0.0
    requires b == BucketOf(buckets, k) || (b.None? && OnHand(buckets, k, rate, burst, now) == burst)
    requires k in after && after[k] == Touch(b, rate, burst, now).0
    ensures var ok := Touch(b, rate, burst, now).1;
      && InShape(after, k, burst, now)
      && OnHand(after, k, rate, burst, now) + (if ok then 1.0 else 0.0) == OnHand(buckets, k, rate, burst, now)
      && (ok <==> OnHand(buckets, k, rate, burst, now) >= 1.0)
  {
    Longer(rate, 0, 0);
    if k in buckets {
      Longer(rate, 0, now - buckets[k].lastMs);
    }
  }

  /** A bucket that is evicted was full. */
  lemma EvictedIsFull(s: State, c: Call, k: string, rate: real, burst: real)
    requires InShape(s.buckets, k, burst, c.now) && rate > 0.0 && Refills(s.maxIdleMs, rate, burst)
    ensures !Keeps(s, c, k) ==> OnHand(s.buckets, k, rate, burst, c.now) == burst
  {
    hide Sweeps;
    if k in s.buckets && TooIdle(s, k, c.now) {
      Longer(rate, s.maxIdleMs + 1, c.now - s.buckets[k].lastMs);
    }
  }

  lemma OnHandOf(a: map<string, Bucket>, b: map<string, Bucket>, k: string, rate: real, burst: real, t: int64)
    requires InShape(a, k, burst, t) && rate > 0.0 && burst > 0.0
    requires (k in a && k in b && a[k] == b[k]) || (k !in b && OnHand(a, k, rate, burst, t) == burst)
    ensures InShape(b, k, burst, t) && OnHand(b, k, rate, burst, t) == OnHand(a, k, rate, burst, t)
  {
  }

  /** When a key's call is granted, exactly: there is room for its bucket and a token on hand. A grant
      takes that token, and nothing else changes what the key has on hand, evictions included. */
  lemma AllowSpends(s: State, c: Call, k: string, rate: real, burst: real)
    requires CapHolds(s) && rate > 0.0 && burst > 0.0 && Refills(s.maxIdleMs, rate, burst)
    requires c.keyID == k ==> c.rate == Fin(rate) && c.burst == Fin(burst)
    requires InShape(s.buckets, k, burst, c.now)
    ensures var (s', ok) := Allow(s, c);
      && InShape(s'.buckets, k, burst, c.now)
      && OnHand(s'.buckets, k, rate, burst, c.now) + (if c.keyID == k && ok then 1.0 else 0.0)
         == OnHand(s.buckets, k, rate, burst, c.now)
      && (c.keyID == k ==> (ok <==> !NoRoom(s, c) && OnHand(s.buckets, k, rate, burst, c.now) >= 1.0))
  {
    hide Refills, TooIdle, Touch, Sweeps, InShape, OnHand;
    if Gate(c.rate, c.burst).None? {
      EvictedIsFull(s, c, k, rate, burst);
      AllowMeans(s, c);
      hide Allow, Gate;
      var s' := Allow(s, c).0;
      if c.keyID == k && !NoRoom(s, c) {
        CallSpends(KeptBucket(s, c, k), s.buckets, s'.buckets, k, rate, burst, c.now);
      } else {
        OnHandOf(s.buckets, s'.buckets, k, rate, burst, c.now);
      }
    }
  }

  /** Time brings at most its share of tokens. */
  lemma TimeBrings(buckets: map<string, Bucket>, k: string, rate: real, burst: real, t: int64, t': int64)
    requires InShape(buckets, k, burst, t) && t <= t' && rate > 0.0 && burst > 0.0
    ensures InShape(buckets, k, burst, t')
    ensures OnHand(buckets, k, rate, burst, t') <= OnHand(buckets, k, rate, burst, t) + Worth(rate, t' - t)
    ensures 0.0 <= OnHand(buckets, k, rate, burst, t') <= burst
  {
    Longer(rate, 0, t' - t);
    if k in buckets {
      Longer(rate, 0, t - buckets[k].lastMs);
      Split(rate, buckets[k].lastMs, t, t');
    }
  }

  lemma Split(rate: real, a: int, b: int, c: int)
    ensures Worth(rate, c - a) == Worth(rate, b - a) + Worth(rate, c - b)
  {
    assert (c - a) as real / 1000.0 == (b - a) as real / 1000.0 + (c - b) as real / 1000.0;
  }

  /** The window from `calls[i]` on, which starts at `t0`. */
  ghost predicate Window(calls: seq<Call>, i: nat, t0: int64) {
    && i <= |calls| && 0 <= t0
    && (forall j :: 0 <= j < i ==> calls[j].now <= t0) && (forall j :: i <= j < |calls| ==> t0 <= calls[j].now)
  }

  lemma GrantsStep(s: State, before: seq<Call>, c: Call, k: string, i: nat)
    requires i <= |before|
    ensures var (s', ok) := Allow(Run(s, before), c);
      && Run(s, before + [c]) == s'
      && Grants(s, before + [c], k, i) == Grants(s, before, k, i) + (if c.keyID == k && ok then 1 else 0)
  {
    var calls := before + [c];
    assert calls[..|before|] == before;
    hide Allow;
  }

  lemma ButOne(before: seq<Call>, c: Call, k: string, rate: real, burst: real, i: nat, t0: int64, t1: int64)
    requires i <= |before|
    requires var calls := before + [c];
      Forward(calls) && Steady(calls, k, rate, burst) && Window(calls, i, t0) && Before(calls, t1) && t0 <= t1
    ensures Forward(before) && Steady(before, k, rate, burst) && Window(before, i, t0) && Before(before, c.now) && t0 <= c.now <= t1
    ensures rate > 0.0 && burst > 0.0 && (c.keyID == k ==> c.rate == Fin(rate) && c.burst == Fin(burst))
  {
    var calls := before + [c];
    assert calls[|before|] == c && forall j :: 0 <= j < |before| ==> calls[j] == before[j];
  }

  /** Grants and what is left in hand are paid for by a full bucket and the time gone by. */
  lemma {:induction false} GrantsArePaidFor(s0: State, calls: seq<Call>, k: string, rate: real, burst: real, i: nat, t0: int64, t1: int64)
    requires Fresh(s0) && Refills(s0.maxIdleMs, rate, burst)
    requires Forward(calls) && Steady(calls, k, rate, burst) && Window(calls, i, t0) && Before(calls, t1) && t0 <= t1
    ensures var buckets := Run(s0, calls).buckets;
      && InShape(buckets, k, burst, t1)
      && Grants(s0, calls, k, i) as real + OnHand(buckets, k, rate, burst, t1) <= burst + Worth(rate, t1 - t0)
    decreases |calls|
  {
    assert i <= |calls|;
    hide *;
    if i < |calls| {
      var n := |calls| - 1;
      var before, c := calls[..n], calls[n];
      assert before + [c] == calls;
      ButOne(before, c, k, rate, burst, i, t0, t1);
      GrantsArePaidFor(s0, before, k, rate, burst, i, t0, c.now);
      PaidStep(s0, before, c, k, rate, burst, i, t1);
      Split(rate, t0, c.now, t1);
    } else {
      NothingYet(s0, calls, k, rate, burst, i, t0, t1);
    }
  }

  ghost predicate Fresh(s: State) { exists maxIdleMs: int64, maxBuckets: int64 :: s == New(maxIdleMs, maxBuckets) }

  lemma FreshRun(s0: State, calls: seq<Call>)
    requires Fresh(s0)
    ensures Run(s0, calls).maxIdleMs == s0.maxIdleMs && CapHolds(Run(s0, calls)) && s0.buckets == map[]
  {
    var maxIdleMs, maxBuckets :| s0 == New(maxIdleMs, maxBuckets);
    SettingsHold(maxIdleMs, maxBuckets, calls);
    hide Run, CapHolds;
  }

  lemma PaidStep(s0: State, before: seq<Call>, c: Call, k: string, rate: real, burst: real, i: nat, t1: int64)
    requires Fresh(s0) && Refills(s0.maxIdleMs, rate, burst)
    requires i <= |before| && c.now <= t1 && rate > 0.0 && burst > 0.0
    requires c.keyID == k ==> c.rate == Fin(rate) && c.burst == Fin(burst)
    requires InShape(Run(s0, before).buckets, k, burst, c.now)
    ensures var calls := before + [c];
      && InShape(Run(s0, calls).buckets, k, burst, t1)
      && Grants(s0, calls, k, i) as real + OnHand(Run(s0, calls).buckets, k, rate, burst, t1)
         <= Grants(s0, before, k, i) as real + OnHand(Run(s0, before).buckets, k, rate, burst, c.now) + Worth(rate, t1 - c.now)
  {
    hide *;
    FreshRun(s0, before);
    var s := Run(s0, before);
    AllowSpends(s, c, k, rate, burst);
    TimeBrings(Allow(s, c).0.buckets, k, rate, burst, c.now, t1);
    GrantsStep(s0, before, c, k, i);
  }

  lemma NothingYet(s0: State, calls: seq<Call>, k: string, rate: real, burst: real, i: nat, t0: int64, t1: int64)
    requires Fresh(s0) && Refills(s0.maxIdleMs, rate, burst)
    requires Forward(calls) && Steady(calls, k, rate, burst) && Before(calls, t1) && t0 <= t1 && i == |calls|
    ensures var buckets := Run(s0, calls).buckets;
      InShape(buckets, k, burst, t1)
      && Grants(s0, calls, k, i) as real + OnHand(buckets, k, rate, burst, t1) <= burst + Worth(rate, t1 - t0)
  {
    hide Fresh, Refills, Run, InShape, OnHand;
    ShapeKept(s0, calls, k, rate, burst, t1);
    TimeBrings(Run(s0, calls).buckets, k, rate, burst, t1, t1);
    Longer(rate, 0, t1 - t0);
  }

  lemma {:induction false} ShapeKept(s0: State, calls: seq<Call>, k: string, rate: real, burst: real, t: int64)
    requires Fresh(s0) && Refills(s0.maxIdleMs, rate, burst)
    requires Forward(calls) && Steady(calls, k, rate, burst) && Before(calls, t)
    ensures InShape(Run(s0, calls).buckets, k, burst, t)
  {
    hide Fresh, Refills, Allow, CapHolds, NoRoom;
    FreshRun(s0, []);
    if calls != [] {
      var before, c := calls[..|calls| - 1], calls[|calls| - 1];
      ShapeKept(s0, before, k, rate, burst, c.now);
      FreshRun(s0, before);
      AllowSpends(Run(s0, before), c, k, rate, burst);
    }
  }

  /** Token-bucket bound: between `t0` and `t1` a key gets at most a full bucket plus what the rate
      brings in that time, also under a cap and under eviction that leaves buckets time to refill. */
  lemma GrantsBounded(maxIdleMs: int64, maxBuckets: int64, calls: seq<Call>, k: string, rate: real, burst: real, i: nat, t0: int64, t1: int64)
    requires Forward(calls) && Steady(calls, k, rate, burst) && Window(calls, i, t0) && Before(calls, t1) && t0 <= t1
    requires maxIdleMs > 0 ==> Worth(rate, maxIdleMs + 1) >= burst
    ensures Grants(New(maxIdleMs, maxBuckets), calls, k, i) as real <= burst + Worth(rate, t1 - t0)
  {
    var s0 := New(maxIdleMs, maxBuckets);
    assert Fresh(s0) && Refills(s0.maxIdleMs, rate, burst);
    hide Run, Grants, OnHand, InShape, Fresh, Refills;
    GrantsArePaidFor(s0, calls, k, rate, burst, i, t0, t1);
    TimeBrings(Run(s0, calls).buckets, k, rate, burst, t1, t1);
  }

  /** The rate is per second. */
  lemma SecondsBring(rate: real, seconds: nat)
    ensures Worth(rate, 1000 * seconds) == seconds as real * rate
  {
    assert (1000 * seconds) as real / 1000.0 == seconds as real;
  }

  /** Calls on the key come at least one token's worth of time apart. */
  ghost predicate Spaced(calls: seq<Call>, k: string, rate: real) {
    && (forall i :: 0 <= i < |calls| && calls[i].keyID == k ==> 0 <= calls[i].now)
    && (forall i, j :: 0 <= i < j < |calls| && calls[i].keyID == k && calls[j].keyID == k ==>
          Worth(rate, calls[j].now - calls[i].now) >= 1.0)
  }

  /** The bucket was last touched by one of the key's calls. */
  ghost predicate Traced(buckets: map<string, Bucket>, calls: seq<Call>, k: string) {
    k in buckets ==>
      0.0 <= buckets[k].tokens && exists j :: 0 <= j < |calls| && calls[j].keyID == k && calls[j].now == buckets[k].lastMs
  }

  lemma OneTokenBack(b: Bucket, rate: real, burst: real, now: int64)
    requires 0.0 <= b.tokens && burst >= 1.0 && rate > 0.0 && 0 <= b.lastMs && 0 <= now
    requires Worth(rate, now - b.lastMs) >= 1.0
    ensures var (b', ok) := Touch(Some(b), rate, burst, now); ok && 0.0 <= b'.tokens && b'.lastMs == now
  {
    if now <= b.lastMs { Longer(rate, 0, b.lastMs - now); Split(rate, b.lastMs, now, b.lastMs); }
  }

  lemma {:induction false} SpacedIsTraced(maxIdleMs: int64, maxBuckets: int64, calls: seq<Call>, k: string, rate: real, burst: real)
    requires Steady(calls, k, rate, burst) && burst >= 1.0 && Spaced(calls, k, rate)
    ensures Traced(Run(New(maxIdleMs, maxBuckets), calls).buckets, calls, k)
  {
    hide Allow, Spaced, Steady, NoRoom;
    if calls != [] {
      var n := |calls| - 1;
      var before, c := calls[..n], calls[n];
      assert calls == before + [c];
      SpacedBefore(before, c, k, rate, burst);
      SpacedIsTraced(maxIdleMs, maxBuckets, before, k, rate, burst);
      SettingsHold(maxIdleMs, maxBuckets, before);
      SpacedStep(Run(New(maxIdleMs, maxBuckets), before), before, c, k, rate, burst);
      hide Traced;
    }
  }

  lemma SpacedBefore(before: seq<Call>, c: Call, k: string, rate: real, burst: real)
    requires Steady(before + [c], k, rate, burst) && Spaced(before + [c], k, rate)
    ensures Steady(before, k, rate, burst) && Spaced(before, k, rate)
  {
    hide Worth;
    var calls := before + [c];
    assert forall i :: 0 <= i < |before| ==> calls[i] == before[i];
  }

  lemma SpacedStep(s: State, before: seq<Call>, c: Call, k: string, rate: real, burst: real)
    requires CapHolds(s) && Traced(s.buckets, before, k)
    requires Steady(before + [c], k, rate, burst) && burst >= 1.0 && Spaced(before + [c], k, rate)
    ensures Traced(Allow(s, c).0.buckets, before + [c], k)
    ensures c.keyID == k ==> (Allow(s, c).1 <==> !NoRoom(s, c))
  {
    hide Spaced, Steady, Touch, Traced, Gate, TooIdle, Sweeps;
    Retraced(s.buckets, s.buckets, before, c, k);
    SpacedSettings(before, c, k, rate, burst);
    GateMeans(s, c);
    if Gate(c.rate, c.burst).None? {
      AllowMeans(s, c);
      hide Allow;
      var s' := Allow(s, c).0;
      if c.keyID == k && !NoRoom(s, c) {
        var kept := if Keeps(s, c, k) then s.buckets else map[];
        NoBucketIsTraced(before, k);
        assert BucketOf(kept, k) == KeptBucket(s, c, k);
        SpacedTouch(kept, before, c, k, rate, burst);
        JustTraced(s'.buckets, before, c);
      } else {
        StillTraced(s.buckets, s'.buckets, before + [c], k);
      }
    } else {
      StillTraced(s.buckets, Allow(s, c).0.buckets, before + [c], k);
    }
  }

  lemma SpacedSettings(before: seq<Call>, c: Call, k: string, rate: real, burst: real)
    requires Steady(before + [c], k, rate, burst)
    ensures rate > 0.0 && burst > 0.0 && (c.keyID == k ==> c.rate == Fin(rate) && c.burst == Fin(burst))
  {
    assert (before + [c])[|before|] == c;
  }

  lemma NoBucketIsTraced(calls: seq<Call>, k: string)
    ensures Traced(map[], calls, k)
  {
  }

  lemma JustTraced(buckets: map<string, Bucket>, before: seq<Call>, c: Call)
    requires c.keyID in buckets && 0.0 <= buckets[c.keyID].tokens && buckets[c.keyID].lastMs == c.now
    ensures Traced(buckets, before + [c], c.keyID)
  {
    assert (before + [c])[|before|] == c;
  }

  lemma StillTraced(buckets: map<string, Bucket>, after: map<string, Bucket>, calls: seq<Call>, k: string)
    requires Traced(buckets, calls, k) && (k in after ==> k in buckets && after[k] == buckets[k])
    ensures Traced(after, calls, k)
  {
  }

  lemma Retraced(buckets: map<string, Bucket>, kept: map<string, Bucket>, before: seq<Call>, c: Call, k: string)
    requires Traced(buckets, before, k) && kept.Keys <= buckets.Keys && forall x :: x in kept ==> kept[x] == buckets[x]
    ensures Traced(kept, before, k) && Traced(kept, before + [c], k)
  {
    if k in kept {
      var j :| 0 <= j < |before| && before[j].keyID == k && before[j].now == buckets[k].lastMs;
      assert (before + [c])[j] == before[j];
    }
  }

  lemma SpacedTouch(buckets: map<string, Bucket>, before: seq<Call>, c: Call, k: string, rate: real, burst: real)
    requires c.keyID == k && Traced(buckets, before, k)
    requires Steady(before + [c], k, rate, burst) && burst >= 1.0 && Spaced(before + [c], k, rate)
    ensures c.rate == Fin(rate) && c.burst == Fin(burst)
    ensures var (b', ok) := Touch(BucketOf(buckets, k), rate, burst, c.now); ok && 0.0 <= b'.tokens && b'.lastMs == c.now
  {
    var calls := before + [c];
    assert calls[|before|] == c;
    if k in buckets {
      var j :| 0 <= j < |before| && before[j].keyID == k && before[j].now == buckets[k].lastMs;
      assert calls[j] == before[j];
      OneTokenBack(buckets[k], rate, burst, c.now);
    }
  }

  /** A caller that spaces its calls one token apart is denied exactly when there is no room for its
      bucket, however the clock of other keys moves and whatever is evicted. */
  lemma SpacedIsNeverDenied(maxIdleMs: int64, maxBuckets: int64, calls: seq<Call>, k: string, rate: real, burst: real, i: nat)
    requires Steady(calls, k, rate, burst) && burst >= 1.0 && Spaced(calls, k, rate)
    requires i < |calls| && calls[i].keyID == k
    ensures var s0 := New(maxIdleMs, maxBuckets);
      ReplyAt(s0, calls, i) <==> !NoRoom(StateBefore(s0, calls, i), calls[i])
  {
    hide Traced, Allow, Run, NoRoom;
    var before, c := calls[..i], calls[i];
    assert forall j :: 0 <= j <= i ==> (before + [c])[j] == calls[j];
    assert Steady(before + [c], k, rate, burst) && Spaced(before + [c], k, rate);
    hide Steady, Spaced;
    SpacedBefore(before, c, k, rate, burst);
    SpacedIsTraced(maxIdleMs, maxBuckets, before, k, rate, burst);
    SettingsHold(maxIdleMs, maxBuckets, before);
    SpacedStep(Run(New(maxIdleMs, maxBuckets), before), before, c, k, rate, burst);
  }

  function Tick(now: int64): Call { Call("k", Fin(1.0), Fin(1.0), now) }

  /** The key's bucket right after its only token went, at 1000. */
  function Drained(): State { State(0, 0, 0, map["k" := Bucket(0.0, 1000)]) }

  /** A clock that keeps jumping back one second. */
  function Seesaw(n: nat): seq<Call> { if n == 0 then [Tick(1000)] else Seesaw(n - 1) + [Tick(0), Tick(1000)] }

  lemma {:induction false} SeesawIsShort(n: nat)
    ensures forall i :: 0 <= i < |Seesaw(n)| ==> 0 <= Seesaw(n)[i].now <= 1000 && Seesaw(n)[i] == Tick(Seesaw(n)[i].now)
  {
    if n > 0 {
      SeesawIsShort(n - 1);
    }
  }

  /** The clock must not go backwards: within one second, at one token a second, a seesawing clock
      gets any number of grants. */
  lemma {:induction false} RegressingClockIsUnbounded(n: nat)
    ensures forall i :: 0 <= i < |Seesaw(n)| ==> 0 <= Seesaw(n)[i].now <= 1000 && Seesaw(n)[i] == Tick(Seesaw(n)[i].now)
    ensures Run(New(0, 0), Seesaw(n)) == Drained()
    ensures Grants(New(0, 0), Seesaw(n), "k", 0) == n + 1
  {
    hide *;
    SeesawIsShort(n);
    if n == 0 {
      FirstTick();
    } else {
      RegressingClockIsUnbounded(n - 1);
      SeesawAdds(n);
      SeesawStep();
    }
  }

  lemma SeesawAdds(n: nat)
    requires n > 0
    ensures var (s1, ok1) := Allow(Run(New(0, 0), Seesaw(n - 1)), Tick(0));
      var (s2, ok2) := Allow(s1, Tick(1000));
      && Run(New(0, 0), Seesaw(n)) == s2
      && Grants(New(0, 0), Seesaw(n), "k", 0)
         == Grants(New(0, 0), Seesaw(n - 1), "k", 0) + (if ok1 then 1 else 0) + (if ok2 then 1 else 0)
  {
    var calls := Seesaw(n - 1);
    assert Seesaw(n) == calls + [Tick(0)] + [Tick(1000)];
    GrantsStep(New(0, 0), calls, Tick(0), "k", 0);
    GrantsStep(New(0, 0), calls + [Tick(0)], Tick(1000), "k", 0);
    hide Run, Allow, Grants, New, Seesaw;
  }

  lemma FirstTick()
    ensures Run(New(0, 0), Seesaw(0)) == Drained()
    ensures Grants(New(0, 0), Seesaw(0), "k", 0) == 1
  {
    assert [Tick(1000)][..0] == [];
    assert Touch(None, 1.0, 1.0, 1000) == (Bucket(0.0, 1000), true);
    hide Touch;
    assert Allow(New(0, 0), Tick(1000)) == (State(0, 0, 0, map["k" := Bucket(0.0, 1000)]), true);
  }

  lemma SeesawStep()
    ensures var (s', ok) := Allow(Drained(), Tick(0));
      !ok && Allow(s', Tick(1000)) == (Drained(), true)
  {
    var s := Drained();
    var s' := State(0, 0, 0, map["k" := Bucket(0.0, 0)]);
    assert Touch(Some(Bucket(0.0, 1000)), 1.0, 1.0, 0) == (Bucket(0.0, 0), false);
    assert Touch(Some(Bucket(0.0, 0)), 1.0, 1.0, 1000) == (Bucket(0.0, 1000), true);
    hide Touch;
    assert s.buckets["k" := Bucket(0.0, 0)] == s'.buckets && s'.buckets["k" := Bucket(0.0, 1000)] == s.buckets;
    assert Allow(s, Tick(0)) == (s', false);
  }
}
