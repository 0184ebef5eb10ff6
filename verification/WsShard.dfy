/** The fixed pool of WebSocket shards: least-loaded admission, explicit release. */
module WsShard {
  import opened Numbers
  import opened Wrappers
  import Address

  /** Which shard each admitted user is on, how loaded the shards are, and how often a full pool
      has turned somebody away. */
  datatype Pool = Pool(max: int, load: seq<int>, assign: map<string, nat>, deniedFull: uint64, failClosed: bool)

  /** An invalid configuration gives a pool that admits nobody. */
  function Empty(numShards: int, maxPerShard: int): Pool {
    if numShards <= 0 || maxPerShard <= 0 then Pool(0, [], map[], 0, true)
    else Pool(maxPerShard, seq(numShards, _ => 0), map[], 0, false)
  }

  /** The scan for the least-loaded shard with room, first on ties. */
  function Best(load: seq<int>, max: int): (best: Option<nat>)
    ensures best.Some? ==> best.value < |load|
  {
    if load == [] then None
    else
      var i := |load| - 1;
      var best := Best(load[..i], max);
      if load[i] >= max then best
      else if best.None? || load[i] < load[best.value] then Some(i)
      else best
  }

  /** What the scan finds: a shard with room, no shard with room less loaded, and none before it
      equally loaded; or nothing exactly when every shard is full. */
  lemma {:induction false} BestIsLeastLoaded(load: seq<int>, max: int)
    ensures Best(load, max).None? <==> forall j :: 0 <= j < |load| ==> load[j] >= max
    ensures Best(load, max).Some? ==>
      var b := Best(load, max).value;
      && load[b] < max
      && (forall j :: 0 <= j < |load| ==> load[b] <= load[j])
      && (forall j :: 0 <= j < b ==> load[b] < load[j])
  {
    if load != [] {
      var rest := load[..|load| - 1];
      BestIsLeastLoaded(rest, max);
      assert forall j :: 0 <= j < |rest| ==> load[j] == rest[j];
    }
  }

  function Admit(p: Pool, user: string): (Pool, Option<nat>) {
    match Address.Normalize(user)
    case None => (p, None)
    case Some(key) =>
      if p.failClosed then (p, None)
      else if key in p.assign then (p, Some(p.assign[key]))
      else
        match Best(p.load, p.max)
        case None => (p.(deniedFull := Succ64(p.deniedFull)), None)
        case Some(b) => (p.(load := p.load[b := p.load[b] + 1], assign := p.assign[key := b]), Some(b))
  }

  function Release(p: Pool, user: string): (Pool, bool) {
    match Address.Normalize(user)
    case None => (p, false)
    case Some(key) =>
      if key !in p.assign then (p, false)
      else
        var s := p.assign[key];
        (p.(load := if s < |p.load| then p.load[s := p.load[s] - 1] else p.load, assign := p.assign - {key}), true)
  }

  // ---- what every operation keeps ----

  function UsersOn(assign: map<string, nat>, i: nat): set<string> { set u | u in assign && assign[u] == i }

  function Sum(load: seq<int>): int { if load == [] then 0 else Sum(load[..|load| - 1]) + load[|load| - 1] }

  ghost predicate CountsAt(load: seq<int>, assign: map<string, nat>, max: int, i: nat)
    requires i < |load|
  {
    load[i] == |UsersOn(assign, i)| <= max
  }

  ghost predicate LoadsCount(load: seq<int>, assign: map<string, nat>, max: int) {
    forall i: nat :: i < |load| ==> CountsAt(load, assign, max, i)
  }

  /** The books agree: each load is the number of users assigned there and within the limit, users
      are on existing shards, and the loads sum to the number of users. */
  ghost predicate Consistent(p: Pool) {
    && (p.failClosed <==> p.load == []) && (p.failClosed ==> p.assign == map[])
    && (!p.failClosed ==> p.max > 0)
    && (forall u :: u in p.assign ==> p.assign[u] < |p.load|)
    && LoadsCount(p.load, p.assign, p.max)
    && Sum(p.load) == |p.assign|
  }

  lemma {:induction false} SumUpdate(load: seq<int>, i: nat, x: int)
    requires i < |load|
    ensures Sum(load[i := x]) == Sum(load) - load[i] + x
  {
    var n := |load| - 1;
    if i < n {
      assert load[i := x][..n] == load[..n][i := x];
      SumUpdate(load[..n], i, x);
    } else {
      assert load[i := x][..n] == load[..n];
    }
  }

  lemma {:induction false} SumBelow(load: seq<int>, max: int)
    requires forall i :: 0 <= i < |load| ==> load[i] <= max
    ensures Sum(load) <= |load| * max
    ensures Sum(load) == |load| * max <==> forall i :: 0 <= i < |load| ==> load[i] >= max
  {
    if load != [] {
      var rest := load[..|load| - 1];
      SumBelow(rest, max);
      assert |load| * max == |rest| * max + max;
      assert forall i :: 0 <= i < |rest| ==> load[i] == rest[i];
    }
  }

  lemma {:induction false} SumZeros(load: seq<int>)
    requires forall i :: 0 <= i < |load| ==> load[i] == 0
    ensures Sum(load) == 0
  {
    if load != [] {
      SumZeros(load[..|load| - 1]);
    }
  }

  lemma EmptyIsConsistent(numShards: int, maxPerShard: int)
    ensures Consistent(Empty(numShards, maxPerShard))
  {
    SumZeros(Empty(numShards, maxPerShard).load);
    assert forall i :: UsersOn(map[], i) == {};
  }

  lemma Joined(assign: map<string, nat>, key: string, b: nat, i: nat)
    requires key !in assign
    ensures |assign[key := b]| == |assign| + 1
    ensures |UsersOn(assign[key := b], i)| == |UsersOn(assign, i)| + if i == b then 1 else 0
  {
    assert assign[key := b].Keys == assign.Keys + {key};
    assert UsersOn(assign[key := b], i) == if i == b then UsersOn(assign, i) + {key} else UsersOn(assign, i);
  }

  lemma Left(assign: map<string, nat>, key: string, i: nat)
    requires key in assign
    ensures |assign - {key}| == |assign| - 1
    ensures |UsersOn(assign - {key}, i)| == |UsersOn(assign, i)| - if i == assign[key] then 1 else 0
  {
    assert (assign - {key}).Keys == assign.Keys - {key};
    assert UsersOn(assign - {key}, i) == if i == assign[key] then UsersOn(assign, i) - {key} else UsersOn(assign, i);
    assert key in UsersOn(assign, assign[key]);
  }

  lemma LoadsWithin(load: seq<int>, assign: map<string, nat>, max: int)
    requires LoadsCount(load, assign, max)
    ensures forall i :: 0 <= i < |load| ==> load[i] <= max
  {
    forall i | 0 <= i < |load| ensures load[i] <= max { assert CountsAt(load, assign, max, i); }
  }

  lemma JoiningCounts(load: seq<int>, assign: map<string, nat>, max: int, key: string, b: nat)
    requires LoadsCount(load, assign, max) && key !in assign && b < |load| && load[b] < max
    ensures LoadsCount(load[b := load[b] + 1], assign[key := b], max)
  {
    hide UsersOn;
    var joined, more := load[b := load[b] + 1], assign[key := b];
    forall i: nat | i < |joined| ensures CountsAt(joined, more, max, i) {
      assert CountsAt(load, assign, max, i);
      Joined(assign, key, b, i);
    }
  }

  lemma LeavingCounts(load: seq<int>, assign: map<string, nat>, max: int, key: string)
    requires LoadsCount(load, assign, max) && key in assign && assign[key] < |load|
    ensures var s := assign[key]; LoadsCount(load[s := load[s] - 1], assign - {key}, max)
  {
    hide UsersOn;
    var left, fewer := load[assign[key] := load[assign[key]] - 1], assign - {key};
    forall i: nat | i < |left| ensures CountsAt(left, fewer, max, i) {
      assert CountsAt(load, assign, max, i);
      Left(assign, key, i);
    }
  }

  lemma JoiningKeeps(p: Pool, key: string, b: nat)
    requires Consistent(p) && !p.failClosed && key !in p.assign && b < |p.load| && p.load[b] < p.max
    ensures Consistent(p.(load := p.load[b := p.load[b] + 1], assign := p.assign[key := b]))
  {
    hide UsersOn, Sum, LoadsCount;
    SumUpdate(p.load, b, p.load[b] + 1);
    Joined(p.assign, key, b, b);
    JoiningCounts(p.load, p.assign, p.max, key, b);
  }

  lemma AdmitKeeps(p: Pool, user: string)
    requires Consistent(p)
    ensures Consistent(Admit(p, user).0)
  {
    hide Address.Normalize, UsersOn, Sum, Best, LoadsCount;
    BestIsLeastLoaded(p.load, p.max);
    var p' := Admit(p, user).0;
    if p'.assign != p.assign {
      JoiningKeeps(p, Address.Normalize(user).value, Best(p.load, p.max).value);
    }
  }

  lemma ReleaseKeeps(p: Pool, user: string)
    requires Consistent(p)
    ensures Consistent(Release(p, user).0)
  {
    hide Address.Normalize, UsersOn, Sum, LoadsCount;
    if Release(p, user).1 {
      var key := Address.Normalize(user).value;
      var s := p.assign[key];
      SumUpdate(p.load, s, p.load[s] - 1);
      Left(p.assign, key, s);
      LeavingCounts(p.load, p.assign, p.max, key);
    }
  }

  // ---- whole runs ----

  datatype Op = AdmitUser(user: string) | ReleaseUser(user: string)

  function Next(p: Pool, op: Op): Pool {
    match op
    case AdmitUser(user) => Admit(p, user).0
    case ReleaseUser(user) => Release(p, user).0
  }

  function Run(p: Pool, ops: seq<Op>): Pool {
    if ops == [] then p else Next(Run(p, ops[..|ops| - 1]), ops[|ops| - 1])
  }

  /** After every run: loads count users, stay within the limit, and sum to the users admitted. */
  lemma {:induction false} RunKeeps(numShards: int, maxPerShard: int, ops: seq<Op>)
    ensures var p := Run(Empty(numShards, maxPerShard), ops);
      Consistent(p) && p.max == Empty(numShards, maxPerShard).max && |p.load| == |Empty(numShards, maxPerShard).load|
  {
    if ops == [] {
      EmptyIsConsistent(numShards, maxPerShard);
    } else {
      hide Consistent, Best;
      RunKeeps(numShards, maxPerShard, ops[..|ops| - 1]);
      var before := Run(Empty(numShards, maxPerShard), ops[..|ops| - 1]);
      AdmitKeeps(before, ops[|ops| - 1].user);
      ReleaseKeeps(before, ops[|ops| - 1].user);
    }
  }

  /** A valid new user is turned away exactly when the capacity is used up, and then stays off the books. */
  lemma DeniedIffFull(p: Pool, user: string)
    requires Consistent(p) && !p.failClosed
    requires Address.Normalize(user).Some? && Address.Normalize(user).value !in p.assign
    ensures Admit(p, user).1.None? <==> |p.assign| == |p.load| * p.max
    ensures |p.assign| <= |p.load| * p.max
    ensures Admit(p, user).1.None? ==> Admit(p, user).0 == p.(deniedFull := Succ64(p.deniedFull))
  {
    hide Address.Normalize;
    BestIsLeastLoaded(p.load, p.max);
    LoadsWithin(p.load, p.assign, p.max);
    SumBelow(p.load, p.max);
  }

  /** The answer is the books': a success names the shard the user is on from then on, a user already
      admitted keeps the shard and takes no slot, a new one takes one slot, and nobody else moves. */
  lemma AdmitMeans(p: Pool, user: string)
    requires Consistent(p) && Address.Normalize(user).Some?
    ensures var key := Address.Normalize(user).value;
      var (p', shard) := Admit(p, user);
      && (shard.Some? ==> key in p'.assign && p'.assign[key] == shard.value)
      && (key in p.assign ==> p' == p && shard == Some(p.assign[key]))
      && (shard.Some? && key !in p.assign ==> p'.load == p.load[shard.value := p.load[shard.value] + 1])
      && (shard.None? ==> p'.load == p.load && p'.assign == p.assign)
      && (forall u :: u != key ==> (u in p'.assign <==> u in p.assign) && (u in p.assign ==> p'.assign[u] == p.assign[u]))
  {
    hide Address.Normalize, Best;
  }

  /** An invalid address, and any address on an invalid configuration, is turned away without a trace. */
  lemma InvalidIsDenied(p: Pool, user: string)
    requires p.failClosed || Address.Normalize(user).None?
    ensures Admit(p, user) == (p, None)
  {
    hide Address.Normalize, Best;
  }

  /** A release succeeds exactly for users on the books, and takes off that user alone. */
  lemma ReleaseMeans(p: Pool, user: string)
    requires Consistent(p)
    ensures var key := Address.Normalize(user);
      var (p', ok) := Release(p, user);
      && (ok <==> key.Some? && key.value in p.assign)
      && (!ok ==> p' == p)
      && (ok ==>
            var shard := p.assign[key.value];
            p'.assign == p.assign - {key.value} && p'.load == p.load[shard := p.load[shard] - 1])
  {
    hide Address.Normalize;
  }

  /** Releasing a user just admitted puts the pool back as it was. */
  lemma ReleaseUndoesAdmit(p: Pool, user: string)
    requires Consistent(p) && Admit(p, user).1.Some? && Address.Normalize(user).value !in p.assign
    ensures Release(Admit(p, user).0, user) == (p, true)
  {
    hide Address.Normalize, Best;
    var key := Address.Normalize(user).value;
    var b := Admit(p, user).1.value;
    assert p.assign[key := b] - {key} == p.assign;
    assert p.load[b := p.load[b] + 1][b := p.load[b]] == p.load;
  }

  ghost predicate Even(load: seq<int>) { forall i, j :: 0 <= i < |load| && 0 <= j < |load| ==> load[i] <= load[j] + 1 }

  /** As long as nobody is released, loads differ by at most one. */
  lemma {:induction false} StaysEven(numShards: int, maxPerShard: int, ops: seq<Op>)
    requires forall i :: 0 <= i < |ops| ==> ops[i].AdmitUser?
    ensures Even(Run(Empty(numShards, maxPerShard), ops).load)
  {
    if ops != [] {
      StaysEven(numShards, maxPerShard, ops[..|ops| - 1]);
      var before := Run(Empty(numShards, maxPerShard), ops[..|ops| - 1]);
      BestIsLeastLoaded(before.load, before.max);
      hide Best;
    }
  }

  // ---- the allocator ----

  datatype Stats = Stats(
    numShards: int, maxPerShard: int, capacity: int, admitted: int, free: int, shardLoad: seq<int>, deniedFull: uint64)

  class Allocator {
    const numShards: nat
    const maxPerShard: nat
    const load: array<int>
    var assign: map<string, nat>
    var deniedFull: uint64
    const failClosed: bool

    constructor (shards: int, perShard: int)
      ensures Contents() == Empty(shards, perShard) && Valid() && fresh(load)
    {
      if shards <= 0 || perShard <= 0 {
        numShards, maxPerShard, failClosed := 0, 0, true;
        load := new int[0];
      } else {
        numShards, maxPerShard, failClosed := shards, perShard, false;
        load := new int[shards](_ => 0);
      }
      assign, deniedFull := map[], 0;
      new;
      EmptyIsConsistent(shards, perShard);
      assert load[..] == Empty(shards, perShard).load;
    }

    function Contents(): Pool
      reads this, load
    {
      Pool(maxPerShard, load[..], assign, deniedFull, failClosed)
    }

    ghost predicate Valid()
      reads this, load
    {
      Consistent(Contents()) && numShards == load.Length
    }

    method AdmitUser(user: string) returns (shard: int, ok: bool)
      requires Valid()
      modifies this, load
      ensures Valid()
      ensures var (p, s) := Admit(old(Contents()), user);
        Contents() == p && ok == s.Some? && shard == if s.Some? then s.value else -1
    {
      AdmitKeeps(Contents(), user);
      hide Consistent, Address.Normalize, Best;
      var key := Address.Normalize(user);
      if key.None? || failClosed { return -1, false; }
      if key.value in assign { return assign[key.value], true; }
      var best := LeastLoaded();
      if best == -1 {
        deniedFull := Succ64(deniedFull);
        return -1, false;
      }
      load[best] := load[best] + 1;
      assign := assign[key.value := best];
      assert load[..] == old(load[..])[best := old(load[best]) + 1];
      return best, true;
    }

    /** Scans for the least-loaded shard with room, first on ties; -1 if there is none. */
    method LeastLoaded() returns (best: int)
      ensures Best(load[..], maxPerShard) == if best == -1 then None else Some(best)
      ensures -1 <= best < load.Length
    {
      best := -1;
      for i := 0 to load.Length
        invariant -1 <= best < i
        invariant Best(load[..i], maxPerShard) == if best == -1 then None else Some(best)
      {
        assert load[..i + 1][..i] == load[..i];
        if load[i] >= maxPerShard { continue; }
        if best == -1 || load[i] < load[best] {
          best := i;
        }
      }
      assert load[..load.Length] == load[..];
    }

    method ReleaseUser(user: string) returns (ok: bool)
      requires Valid()
      modifies this, load
      ensures Valid()
      ensures (Contents(), ok) == Release(old(Contents()), user)
    {
      ReleaseKeeps(Contents(), user);
      hide Address.Normalize;
      var key := Address.Normalize(user);
      if key.None? || key.value !in assign { return false; }
      var shard := assign[key.value];
      assert shard < load.Length;
      hide Consistent;
      assign := assign - {key.value};
      load[shard] := load[shard] - 1;
      assert load[..] == old(load[..])[shard := old(load[shard]) - 1];
      return true;
    }

    method Assignment(user: string) returns (shard: int, ok: bool)
      ensures var key := Address.Normalize(user);
        && (ok <==> key.Some? && key.value in assign)
        && shard == if ok then assign[key.value] else -1
    {
      var key := Address.Normalize(user);
      if key.None? || key.value !in assign { return -1, false; }
      return assign[key.value], true;
    }

    method Snapshot() returns (s: Stats)
      requires Valid()
      ensures s == Stats(numShards, maxPerShard, numShards * maxPerShard, |assign|, s.free, load[..], deniedFull)
      ensures s.free == s.capacity - s.admitted >= 0 && Sum(s.shardLoad) == s.admitted && |s.shardLoad| == s.numShards
    {
      LoadsWithin(load[..], assign, maxPerShard);
      SumBelow(load[..], maxPerShard);
      s := Stats(numShards, maxPerShard, numShards * maxPerShard, |assign|, numShards * maxPerShard - |assign|, load[..], deniedFull);
    }
  }
}
