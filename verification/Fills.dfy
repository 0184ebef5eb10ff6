/** Paging a user's fills forward from a point in time, and summing them up per client order id.

    The server holds the fills in time order and answers a query with the first `k` of them at or
    after the cursor. Parsed sizes and prices are exact reals. */
module Fills {
  import opened Numbers
  import opened Wrappers

  datatype RawFill = RawFill(cloid: Option<string>, px: real, sz: real, pnl: real, time: int64, tid: int64)

  datatype Acc = Acc(sz: real, pnl: real, pxSz: real)

  datatype Fill = Fill(sz: real, px: real, pnl: real)

  const ZERO := Acc(0.0, 0.0, 0.0)

  const MAX_PAGES := 50

  // ---- sums ----

  function Plus(a: Acc, f: RawFill): Acc { Acc(a.sz + f.sz, a.pnl + f.pnl, a.pxSz + f.px * f.sz) }

  /** The sums over the fills of one order. */
  function AccOf(fills: seq<RawFill>, cloid: string): Acc {
    if fills == [] then ZERO
    else
      var n := |fills| - 1;
      var before := AccOf(fills[..n], cloid);
      if fills[n].cloid == Some(cloid) then Plus(before, fills[n]) else before
  }

  function Cloids(fills: seq<RawFill>): set<string> {
    if fills == [] then {}
    else
      var n := |fills| - 1;
      Cloids(fills[..n]) + if fills[n].cloid.Some? then {fills[n].cloid.value} else {}
  }

  /** `m` holds exactly the orders mentioned, each with its sums. */
  ghost predicate Totals(m: map<string, Acc>, fills: seq<RawFill>) {
    m.Keys == Cloids(fills) && forall c :: c in m ==> m[c] == AccOf(fills, c)
  }

  lemma {:induction false} UnmentionedIsZero(fills: seq<RawFill>, cloid: string)
    requires cloid !in Cloids(fills)
    ensures AccOf(fills, cloid) == ZERO
  {
    if fills != [] {
      UnmentionedIsZero(fills[..|fills| - 1], cloid);
    }
  }

  /** Sums add up, figure by figure. */
  function Both(a: Acc, b: Acc): Acc { Acc(a.sz + b.sz, a.pnl + b.pnl, a.pxSz + b.pxSz) }

  /** One fill: its own size, profit and cost when it belongs to the order, nothing otherwise. */
  lemma AccOfOne(f: RawFill, cloid: string)
    ensures AccOf([f], cloid) == if f.cloid == Some(cloid) then Acc(f.sz, f.pnl, f.px * f.sz) else Acc(0.0, 0.0, 0.0)
  {
    assert [f][..0] == [];
    assert AccOf([], cloid) == ZERO;
  }

  /** The fills of two lists together come to the sums of the first plus those of the second. */
  lemma {:induction false} AccOfConcat(x: seq<RawFill>, y: seq<RawFill>, cloid: string)
    ensures AccOf(x + y, cloid) == Both(AccOf(x, cloid), AccOf(y, cloid))
  {
    if y == [] {
      assert x + y == x;
    } else {
      var n := |y| - 1;
      assert (x + y)[..|x| + n] == x + y[..n];
      AccOfConcat(x, y[..n], cloid);
    }
  }

  /** The order in which fills come does not matter. */
  lemma {:induction false} OrderIsIrrelevant(x: seq<RawFill>, y: seq<RawFill>, cloid: string)
    requires multiset(x) == multiset(y)
    ensures AccOf(x, cloid) == AccOf(y, cloid)
    decreases |x|
  {
    hide AccOf;
    if x == [] {
      assert multiset(y) == multiset{};
      assert y == [];
    } else {
      var rest, a, b := Picked(x, y);
      OrderIsIrrelevant(rest, a + b, cloid);
      AccOfConcat([x[0]], rest, cloid);
      AccOfConcat(a + [x[0]], b, cloid);
      AccOfConcat(a, [x[0]], cloid);
      AccOfConcat(a, b, cloid);
    }
  }

  /** The first of `x`, found in the middle of `y`. */
  lemma Picked(x: seq<RawFill>, y: seq<RawFill>) returns (rest: seq<RawFill>, a: seq<RawFill>, b: seq<RawFill>)
    requires multiset(x) == multiset(y) && x != []
    ensures |rest| < |x| && x == [x[0]] + rest && y == a + [x[0]] + b && multiset(rest) == multiset(a + b)
  {
    hide *;
    var i :| 0 <= i < |y| && y[i] == x[0] by {
      assert x[0] in multiset(x);
    }
    rest, a, b := x[1..], y[..i], y[i + 1..];
    Plucked(x, 0);
    Plucked(y, i);
    assert x[..0] + x[1..] == rest && x[..0] + [x[0]] + x[1..] == [x[0]] + rest;
  }

  lemma Plucked<T>(y: seq<T>, i: nat)
    requires i < |y|
    ensures y == y[..i] + [y[i]] + y[i + 1..] && multiset(y[..i] + y[i + 1..]) == multiset(y) - multiset{y[i]}
  {
    var a, b := y[..i], y[i + 1..];
    assert y == a + [y[i]] + b;
    assert multiset(y) == multiset(a) + multiset{y[i]} + multiset(b);
  }

  /** The orders answered for are those some fill carries. */
  lemma {:induction false} CloidsAreTheMentioned(fills: seq<RawFill>, cloid: string)
    ensures cloid in Cloids(fills) <==> exists i :: 0 <= i < |fills| && fills[i].cloid == Some(cloid)
  {
    if fills != [] {
      var n := |fills| - 1;
      var before := fills[..n];
      CloidsAreTheMentioned(before, cloid);
      assert forall i :: 0 <= i < n ==> before[i] == fills[i];
      assert fills[n].cloid == Some(cloid) ==> cloid in Cloids(fills);
    }
  }

  function FillOf(a: Acc): Fill { Fill(a.sz, if a.sz > 0.0 then a.pxSz / a.sz else 0.0, a.pnl) }

  ghost predicate PricedWithin(fills: seq<RawFill>, cloid: string, low: real, high: real) {
    forall i :: 0 <= i < |fills| && fills[i].cloid == Some(cloid) ==> 0.0 <= fills[i].sz && low <= fills[i].px <= high
  }

  lemma Scaled(low: real, px: real, high: real, sz: real)
    requires 0.0 <= sz && low <= px <= high
    ensures low * sz <= px * sz <= high * sz
  {
  }

  lemma {:induction false} SumsWithin(fills: seq<RawFill>, cloid: string, low: real, high: real)
    requires PricedWithin(fills, cloid, low, high)
    ensures var a := AccOf(fills, cloid); 0.0 <= a.sz && low * a.sz <= a.pxSz <= high * a.sz
  {
    if fills != [] {
      var n := |fills| - 1;
      SumsWithin(fills[..n], cloid, low, high);
      if fills[n].cloid == Some(cloid) {
        var a, f := AccOf(fills[..n], cloid), fills[n];
        Scaled(low, f.px, high, f.sz);
        assert low * (a.sz + f.sz) == low * a.sz + low * f.sz && high * (a.sz + f.sz) == high * a.sz + high * f.sz;
      }
    }
  }

  lemma Quotient(low: real, x: real, high: real, sz: real)
    requires sz > 0.0 && low * sz <= x <= high * sz
    ensures low <= x / sz <= high && (x / sz) * sz == x
  {
    var q := x / sz;
    assert q * sz == x;
    Stretched(q, low, sz);
    Stretched(high, q, sz);
  }

  lemma Stretched(a: real, b: real, sz: real)
    requires sz > 0.0
    ensures a < b ==> a * sz < b * sz
  {
    if a < b { assert (b - a) * sz > 0.0; }
  }

  /** The reported price is the size-weighted one: it re-multiplies to the exact sum, and lies
      between the lowest and the highest price paid. */
  lemma WeightedPrice(fills: seq<RawFill>, cloid: string, low: real, high: real)
    requires PricedWithin(fills, cloid, low, high) && AccOf(fills, cloid).sz > 0.0
    ensures var f := FillOf(AccOf(fills, cloid));
      low <= f.px <= high && f.px * f.sz == AccOf(fills, cloid).pxSz
  {
    SumsWithin(fills, cloid, low, high);
    var a := AccOf(fills, cloid);
    Quotient(low, a.pxSz, high, a.sz);
  }

  /** What is reported: the summed size and profit as they are, and a price that spreads the summed
      cost over the size, or zero where there is no size to spread it over. */
  lemma FillOfMeans(a: Acc)
    ensures var f := FillOf(a);
      f.sz == a.sz && f.pnl == a.pnl && (a.sz > 0.0 ==> f.px * f.sz == a.pxSz) && (a.sz <= 0.0 ==> f.px == 0.0)
  {
    if a.sz > 0.0 { Quotient(a.pxSz / a.sz, a.pxSz, a.pxSz / a.sz, a.sz); }
  }

  /** Three at 100 with a profit of 5, then one at 110 with a profit of 2: four at 102.5 with 7. */
  lemma TwoFillsAddUp(f: RawFill, g: RawFill, cloid: string)
    requires f.cloid == g.cloid == Some(cloid)
    requires f.sz == 3.0 && f.px == 100.0 && f.pnl == 5.0 && g.sz == 1.0 && g.px == 110.0 && g.pnl == 2.0
    ensures FillOf(AccOf([f, g], cloid)) == Fill(4.0, 102.5, 7.0)
  {
    AccOfOne(f, cloid);
    AccOfOne(g, cloid);
    AccOfConcat([f], [g], cloid);
    assert [f] + [g] == [f, g];
  }

  // ---- the server ----

  ghost predicate Sound(server: seq<RawFill>) {
    && (forall i :: 0 <= i < |server| ==> server[i].time >= 0)
    && (forall i, j :: 0 <= i < j < |server| ==> server[i].time <= server[j].time)
    && (forall i, j :: 0 <= i < j < |server| ==> server[i].tid != server[j].tid)
  }

  /** The index of the first fill at or after `t`. */
  function From(server: seq<RawFill>, t: int): (i: nat)
    ensures i <= |server|
  {
    if server == [] || server[|server| - 1].time < t then |server| else From(server[..|server| - 1], t)
  }

  lemma {:induction false} FromSplits(server: seq<RawFill>, t: int)
    requires forall i, j :: 0 <= i < j < |server| ==> server[i].time <= server[j].time
    ensures forall i :: 0 <= i < |server| ==> (server[i].time < t <==> i < From(server, t))
  {
    if server != [] && server[|server| - 1].time >= t {
      var rest := server[..|server| - 1];
      FromSplits(rest, t);
      assert forall i :: 0 <= i < |rest| ==> server[i] == rest[i];
    }
  }

  function Min(a: int, b: int): int { if a <= b then a else b }

  function Max(a: int, b: int): int { if a <= b then b else a }

  function Page(server: seq<RawFill>, k: nat, cursor: int): seq<RawFill> {
    server[From(server, cursor)..Min(From(server, cursor) + k, |server|)]
  }

  // ---- how far paging gets ----

  /** Where the next page starts once the fills from `a` up to `h` have been taken. */
  function PageStart(server: seq<RawFill>, a: nat, h: nat): nat
    requires a <= h <= |server|
  {
    if h == a then a else From(server, server[h - 1].time)
  }

  function PageEnd(server: seq<RawFill>, k: nat, a: nat, h: nat): nat
    requires a <= h <= |server|
  {
    Min(PageStart(server, a, h) + k, |server|)
  }

  /** The next page holds nothing new. */
  predicate Stopped(server: seq<RawFill>, k: nat, a: nat, h: nat)
    requires a <= h <= |server|
  {
    PageEnd(server, k, a, h) <= h
  }

  /** Fills taken after at most `pages` more pages. */
  function Reach(server: seq<RawFill>, k: nat, a: nat, h: nat, pages: nat): (r: nat)
    requires a <= h <= |server|
    ensures h <= r <= |server|
    decreases pages
  {
    if pages == 0 || Stopped(server, k, a, h) then h else Reach(server, k, a, PageEnd(server, k, a, h), pages - 1)
  }

  /** Fills taken with no limit on pages: it ends because every page shrinks what is unseen. */
  function Settle(server: seq<RawFill>, k: nat, a: nat, h: nat): (r: nat)
    requires a <= h <= |server|
    ensures h <= r <= |server|
    decreases |server| - h
  {
    if Stopped(server, k, a, h) then h else Settle(server, k, a, PageEnd(server, k, a, h))
  }

  /** A whole page of fills in one millisecond, with more fills to come. */
  ghost predicate Crowded(server: seq<RawFill>, k: nat, a: nat) {
    exists i :: CrowdedAt(server, k, a, i)
  }

  predicate CrowdedAt(server: seq<RawFill>, k: nat, a: nat, i: int) {
    a <= i && 1 <= k && i + k < |server| && server[i].time == server[i + k - 1].time
  }

  /** Where the millisecond of fill `i` begins. */
  lemma MillisecondStart(server: seq<RawFill>, start: int, i: nat)
    requires Sound(server) && From(server, start) <= i < |server|
    ensures var l := From(server, server[i].time);
      && From(server, start) <= l <= i && server[l].time == server[i].time
      && (l > 0 ==> server[l - 1].time < server[l].time)
  {
    var t := server[i].time;
    var l := From(server, t);
    FromSplits(server, start);
    FromSplits(server, t);
    hide From;
    assert l <= i && server[l].time >= t;
    assert server[i].time >= start;
    assert l >= From(server, start);
  }

  /** A page starts at the first fill of the last millisecond seen, never before the first page. */
  lemma StartsAtLastMillisecond(server: seq<RawFill>, start: int, h: nat)
    requires Sound(server)
    requires var a := From(server, start); a < h <= |server|
    ensures var l := PageStart(server, From(server, start), h);
      From(server, start) <= l < h && server[l].time == server[h - 1].time && (l > 0 ==> server[l - 1].time < server[l].time)
  {
    MillisecondStart(server, start, h - 1);
    hide From;
  }

  /** Paging that stops short has met a crowded millisecond. */
  lemma StoppedShortIsCrowded(server: seq<RawFill>, k: nat, start: int, h: nat)
    requires Sound(server) && 1 <= k
    requires var a := From(server, start); a <= h < |server| && Stopped(server, k, a, h)
    ensures Crowded(server, k, From(server, start))
  {
    var a := From(server, start);
    if h > a {
      StartsAtLastMillisecond(server, start, h);
      var l := PageStart(server, a, h);
      assert server[l].time <= server[l + k - 1].time <= server[h - 1].time;
      assert CrowdedAt(server, k, a, l);
    }
  }

  /** No page gets past the first `k` fills of a crowded millisecond. */
  lemma CrowdBlocks(server: seq<RawFill>, k: nat, start: int, h: nat, first: nat, i: nat)
    requires Sound(server) && CrowdedAt(server, k, From(server, start), i) && first == From(server, server[i].time)
    requires var a := From(server, start); a <= h <= |server| && h <= first + k
    ensures PageEnd(server, k, From(server, start), h) <= first + k < |server|
  {
    var a := From(server, start);
    MillisecondStart(server, start, i);
    if h > a {
      StartsAtLastMillisecond(server, start, h);
      FromSplits(server, server[h - 1].time);
      hide From;
      if h - 1 >= first {
        assert server[first].time <= server[h - 1].time <= server[i + k - 1].time;
      }
    }
  }

  lemma {:induction false} CrowdIsNeverPassed(server: seq<RawFill>, k: nat, start: int, h: nat, i: nat, pages: nat)
    requires Sound(server) && CrowdedAt(server, k, From(server, start), i)
    requires var a := From(server, start); a <= h <= |server| && h <= From(server, server[i].time) + k
    ensures Reach(server, k, From(server, start), h, pages) < |server|
    decreases pages
  {
    var a, first := From(server, start), From(server, server[i].time);
    CrowdBlocks(server, k, start, h, first, i);
    if pages > 0 && !Stopped(server, k, a, h) {
      CrowdIsNeverPassed(server, k, start, PageEnd(server, k, a, h), i, pages - 1);
    }
  }

  /** Completeness, exactly: paging that came to a stop has every fill since the start unless some
      millisecond fills a whole page with more fills to come. In that case no number of pages helps. */
  lemma CompleteUnlessCrowded(server: seq<RawFill>, k: nat, start: int, pages: nat)
    requires Sound(server) && 1 <= k
    ensures var a := From(server, start);
      var r := Reach(server, k, a, a, pages);
      && (Stopped(server, k, a, r) ==> (r == |server| <==> !Crowded(server, k, a)))
      && (Crowded(server, k, a) ==> r < |server|)
  {
    var a := From(server, start);
    var r := Reach(server, k, a, a, pages);
    hide From, Sound, Stopped, PageEnd;
    if Stopped(server, k, a, r) && r < |server| {
      StoppedShortIsCrowded(server, k, start, r);
    }
    if Crowded(server, k, a) {
      var i :| CrowdedAt(server, k, a, i);
      MillisecondStart(server, start, i);
      CrowdIsNeverPassed(server, k, start, a, i, pages);
    }
  }

  /** Without the page limit the loop comes to a stop, where the limited loop would have stopped too. */
  lemma {:induction false} SettleStops(server: seq<RawFill>, k: nat, a: nat, h: nat, pages: nat)
    requires a <= h <= |server|
    ensures Stopped(server, k, a, Settle(server, k, a, h))
    ensures var r := Reach(server, k, a, h, pages);
      && (Stopped(server, k, a, r) ==> r == Settle(server, k, a, h))
      && (!Stopped(server, k, a, r) ==> h + pages <= r)
    decreases |server| - h
  {
    if !Stopped(server, k, a, h) {
      SettleStops(server, k, a, PageEnd(server, k, a, h), if pages > 0 then pages - 1 else 0);
    }
  }

  /** No page brings more than its size, so fifty pages never bring more than fifty times it. */
  lemma {:induction false} FiftyPagesAtMost(server: seq<RawFill>, k: nat, start: int, h: nat, pages: nat)
    requires Sound(server) && From(server, start) <= h <= |server|
    ensures Reach(server, k, From(server, start), h, pages) <= h + pages * k
    ensures pages == MAX_PAGES ==> Reach(server, k, From(server, start), h, pages) <= h + 50 * k
    decreases pages
  {
    var a := From(server, start);
    if pages > 0 && !Stopped(server, k, a, h) {
      if h > a { StartsAtLastMillisecond(server, start, h); }
      FiftyPagesAtMost(server, k, start, PageEnd(server, k, a, h), pages - 1);
      assert pages * k == (pages - 1) * k + k;
    }
  }

  /** At most `m` fills share a millisecond. */
  ghost predicate AtMostPerMs(server: seq<RawFill>, m: nat) {
    forall i :: 0 <= i && i + m < |server| ==> server[i].time != server[i + m].time
  }

  /** With at most `m < k` fills in any millisecond, each page brings in at least `k - m` new fills,
      so the page limit is enough for `pages * (k - m)` of them. */
  lemma {:induction false} PagesSuffice(server: seq<RawFill>, k: nat, m: nat, start: int, h: nat, pages: nat)
    requires Sound(server) && m < k && AtMostPerMs(server, m)
    requires From(server, start) <= h <= |server|
    ensures Reach(server, k, From(server, start), h, pages) >= Min(|server|, h + pages * (k - m))
    decreases pages
  {
    var a := From(server, start);
    if pages > 0 {
      NewPerPage(server, k, m, start, h);
      if !Stopped(server, k, a, h) {
        PagesSuffice(server, k, m, start, PageEnd(server, k, a, h), pages - 1);
      }
      assert pages * (k - m) == (pages - 1) * (k - m) + (k - m);
    }
  }

  lemma NewPerPage(server: seq<RawFill>, k: nat, m: nat, start: int, h: nat)
    requires Sound(server) && m < k && AtMostPerMs(server, m)
    requires From(server, start) <= h <= |server|
    ensures PageEnd(server, k, From(server, start), h) >= Min(|server|, h + (k - m))
  {
    var a := From(server, start);
    if h > a {
      StartsAtLastMillisecond(server, start, h);
      Squeezed(server, PageStart(server, a, h), m, h);
    }
  }

  lemma Squeezed(server: seq<RawFill>, l: nat, m: nat, h: nat)
    requires Sound(server) && l < h <= |server| && server[l].time == server[h - 1].time
    ensures l + m < h ==> server[l + m].time == server[l].time
  {
    if l + m < h {
      assert server[l].time <= server[l + m].time <= server[h - 1].time;
    }
  }

  /** Fewer fills in every millisecond than a page holds: no millisecond is crowded. */
  lemma RoomyIsNotCrowded(server: seq<RawFill>, k: nat, m: nat, a: nat)
    requires Sound(server) && m < k && AtMostPerMs(server, m)
    ensures !Crowded(server, k, a)
  {
    forall i ensures !CrowdedAt(server, k, a, i) {
      CrowdedAtHolds(server, k, m, a, i);
    }
  }

  lemma CrowdedAtHolds(server: seq<RawFill>, k: nat, m: nat, a: nat, i: int)
    requires Sound(server) && m < k
    ensures CrowdedAt(server, k, a, i) ==> i + m < |server| && server[i].time == server[i + m].time
  {
    if CrowdedAt(server, k, a, i) {
      assert server[i].time <= server[i + m].time <= server[i + k - 1].time;
    }
  }

  /** So the fifty pages of the loop take every fill when there are at most `50 * (k - m)`. */
  lemma FiftyPagesSuffice(server: seq<RawFill>, k: nat, m: nat, start: int)
    requires Sound(server) && m < k && AtMostPerMs(server, m)
    requires |server| - From(server, start) <= 50 * (k - m)
    ensures Reach(server, k, From(server, start), From(server, start), MAX_PAGES) == |server|
  {
    PagesSuffice(server, k, m, start, From(server, start), MAX_PAGES);
  }

  // ---- the loop ----

  ghost predicate Seen(seen: set<int64>, fills: seq<RawFill>) {
    forall t :: t in seen <==> exists i :: 0 <= i < |fills| && fills[i].tid == t
  }

  lemma SeenExactly(server: seq<RawFill>, seen: set<int64>, a: nat, h: nat, i: nat)
    requires Sound(server) && a <= h <= |server| && a <= i < |server| && Seen(seen, server[a..h])
    ensures server[i].tid in seen <==> i < h
  {
    var taken := server[a..h];
    if i < h {
      assert taken[i - a].tid == server[i].tid;
    } else {
      forall j | 0 <= j < |taken| ensures taken[j].tid != server[i].tid {
        assert taken[j] == server[a + j];
      }
    }
  }

  lemma SeenGrows(server: seq<RawFill>, seen: set<int64>, a: nat, h: nat)
    requires a <= h < |server| && Seen(seen, server[a..h])
    ensures Seen(seen + {server[h].tid}, server[a..h + 1])
  {
    var before, after := server[a..h], server[a..h + 1];
    assert after == before + [server[h]];
    forall t | t in seen + {server[h].tid} ensures exists i :: 0 <= i < |after| && after[i].tid == t {
      if t in seen {
        var i :| 0 <= i < |before| && before[i].tid == t;
        assert after[i].tid == t;
      } else {
        assert after[h - a].tid == t;
      }
    }
    forall i | 0 <= i < |after| ensures after[i].tid in seen + {server[h].tid} {
      if i < |before| { assert before[i].tid == after[i].tid; }
    }
  }

  lemma TotalsGrow(m: map<string, Acc>, server: seq<RawFill>, a: nat, h: nat)
    requires a <= h < |server| && Totals(m, server[a..h])
    ensures Totals(Summed(m, server[h]), server[a..h + 1])
  {
    var before, after := server[a..h], server[a..h + 1];
    assert after[..|after| - 1] == before && after[|after| - 1] == server[h];
    var f := server[h];
    if f.cloid.Some? && f.cloid.value !in m {
      UnmentionedIsZero(before, f.cloid.value);
    }
  }

  /** The sums with one more fill. */
  function Summed(m: map<string, Acc>, f: RawFill): map<string, Acc> {
    if f.cloid.None? then m else m[f.cloid.value := Plus(if f.cloid.value in m then m[f.cloid.value] else ZERO, f)]
  }

  /** The fills of `server[a..]` taken so far end at `h`. */
  ghost predicate Taken(server: seq<RawFill>, a: nat, h: int, seen: set<int64>, m: map<string, Acc>) {
    a <= h <= |server| && Seen(seen, server[a..h]) && Totals(m, server[a..h])
  }

  /** A fill already seen is skipped, a new one summed up. */
  lemma TakeFill(server: seq<RawFill>, a: nat, h: nat, i: nat, seen: set<int64>, m: map<string, Acc>)
    requires Sound(server) && Taken(server, a, h, seen, m) && a <= i <= h && i < |server|
    ensures server[i].tid in seen <==> i < h
    ensures i == h ==> Taken(server, a, h + 1, seen + {server[i].tid}, Summed(m, server[i]))
  {
    SeenExactly(server, seen, a, h, i);
    if i == h {
      SeenGrows(server, seen, a, h);
      TotalsGrow(m, server, a, h);
    }
    hide Seen, Totals, Sound;
  }

  method TakeOne(ghost server: seq<RawFill>, ghost a: nat, ghost h: nat, ghost i: nat,
                 f: RawFill, seen: set<int64>, m: map<string, Acc>)
    returns (seen': set<int64>, m': map<string, Acc>, isNew: bool)
    requires Sound(server) && Taken(server, a, h, seen, m) && a <= i <= h && i < |server| && f == server[i]
    ensures isNew <==> i == h
    ensures Taken(server, a, Max(h, i + 1), seen', m')
  {
    TakeFill(server, a, h, i, seen, m);
    hide Taken, Sound;
    if f.tid in seen { return seen, m, false; }
    seen', m', isNew := seen + {f.tid}, m, true;
    if f.cloid.None? { return; }
    var acc := if f.cloid.value in m' then m'[f.cloid.value] else ZERO;
    m' := m'[f.cloid.value := Plus(acc, f)];
  }

  /** One page: fills already seen are skipped, the rest are summed up; `cursor` becomes the
      latest time on the page. */
  method TakePage(ghost server: seq<RawFill>, ghost a: nat, ghost h: nat, ghost l: nat,
                  raw: seq<RawFill>, seen: set<int64>, m: map<string, Acc>)
    returns (seen': set<int64>, m': map<string, Acc>, cursor: int64, newInPage: nat)
    requires Sound(server) && Taken(server, a, h, seen, m)
    requires a <= l <= h && l + |raw| <= |server| && raw == server[l..l + |raw|] && raw != []
    ensures var r := Max(h, l + |raw|);
      Taken(server, a, r, seen', m') && newInPage == r - h
    ensures cursor == raw[|raw| - 1].time
  {
    hide Taken, Sound;
    seen', m', cursor, newInPage := seen, m, 0, 0;
    InOrder(server, raw, l);
    for j := 0 to |raw|
      invariant cursor == if j == 0 then 0 else raw[j - 1].time
      invariant newInPage == Max(h, l + j) - h
      invariant Taken(server, a, Max(h, l + j), seen', m')
    {
      var f := raw[j];
      if f.time > cursor { cursor := f.time; }
      var isNew;
      seen', m', isNew := TakeOne(server, a, Max(h, l + j), l + j, f, seen', m');
      if isNew { newInPage := newInPage + 1; }
    }
  }

  lemma InOrder(server: seq<RawFill>, raw: seq<RawFill>, l: nat)
    requires Sound(server) && l + |raw| <= |server| && raw == server[l..l + |raw|]
    ensures forall j :: 0 <= j < |raw| ==> raw[j] == server[l + j] && 0 <= raw[j].time
    ensures forall j :: 0 < j < |raw| ==> raw[j - 1].time <= raw[j].time
  {
  }

  /** What the server answers to the next query, and where that leaves the cursor. */
  lemma NextPage(server: seq<RawFill>, k: nat, start: int, h: nat, cursor: int)
    requires Sound(server) && From(server, start) <= h <= |server|
    requires From(server, cursor) == PageStart(server, From(server, start), h)
    ensures var a := From(server, start);
      var l, raw := PageStart(server, a, h), Page(server, k, cursor);
      && a <= l <= h && l + |raw| <= |server| && raw == server[l..l + |raw|]
      && (Stopped(server, k, a, h) ==> Max(h, l + |raw|) == h)
      && (!Stopped(server, k, a, h) ==>
            && raw != [] && h < PageEnd(server, k, a, h) == Max(h, l + |raw|)
            && From(server, raw[|raw| - 1].time) == PageStart(server, a, PageEnd(server, k, a, h)))
  {
    var a := From(server, start);
    if h > a { StartsAtLastMillisecond(server, start, h); }
    hide Sound;
    hide From;
  }

  lemma ReachUnfolds(server: seq<RawFill>, k: nat, a: nat, h: nat, pages: nat)
    requires a <= h <= |server|
    ensures pages == 0 || Stopped(server, k, a, h) ==> Reach(server, k, a, h, pages) == h
    ensures pages > 0 && !Stopped(server, k, a, h) ==>
      h <= PageEnd(server, k, a, h) <= |server|
      && Reach(server, k, a, h, pages) == Reach(server, k, a, PageEnd(server, k, a, h), pages - 1)
  {
  }

  /** One query: an empty page, or one with nothing new, ends the paging. */
  method OnePage(server: seq<RawFill>, k: nat, ghost start: int, ghost h: nat, cursor: int64,
                 seen: set<int64>, m: map<string, Acc>)
    returns (seen': set<int64>, m': map<string, Acc>, cursor': int64, more: bool)
    requires Sound(server) && Taken(server, From(server, start), h, seen, m)
    requires From(server, cursor) == PageStart(server, From(server, start), h)
    ensures var a := From(server, start);
      && (more <==> !Stopped(server, k, a, h))
      && Taken(server, a, if more then PageEnd(server, k, a, h) else h, seen', m')
      && (more ==> a <= PageEnd(server, k, a, h) && From(server, cursor') == PageStart(server, a, PageEnd(server, k, a, h)))
  {
    ghost var a := From(server, start);
    assert a <= h <= |server|;
    NextPage(server, k, start, h, cursor);
    hide *;
    var raw := Page(server, k, cursor);
    if |raw| == 0 { return seen, m, cursor, false; }
    var newInPage;
    seen', m', cursor', newInPage := TakePage(server, a, h, PageStart(server, a, h), raw, seen, m);
    more := newInPage != 0;
  }

  lemma NothingTaken(server: seq<RawFill>, start: int)
    ensures var a := From(server, start); a <= |server| && Taken(server, a, a, {}, map[]) && PageStart(server, a, a) == a
  {
    assert server[From(server, start)..From(server, start)] == [];
  }

  /** The paging loop; `up` says which of the requests the server answers. */
  method TakePages(server: seq<RawFill>, k: nat, start: int64, up: nat -> bool) returns (sums: Option<map<string, Acc>>)
    requires Sound(server) && 1 <= k
    ensures (forall page :: up(page)) ==> sums.Some?
    ensures sums.Some? ==>
      var a := From(server, start);
      Totals(sums.value, server[a..Reach(server, k, a, a, MAX_PAGES)])
  {
    ghost var a := From(server, start);
    ghost var h := a;
    var m: map<string, Acc>, seen: set<int64>, cursor := map[], {}, start;
    var page := 0;
    NothingTaken(server, start);
    assert 0 <= MAX_PAGES;
    hide *;
    while page < MAX_PAGES
      invariant 0 <= page <= MAX_PAGES && a <= h <= |server|
      invariant Taken(server, a, h, seen, m)
      invariant From(server, cursor) == PageStart(server, a, h)
      invariant Reach(server, k, a, h, MAX_PAGES - page) == Reach(server, k, a, a, MAX_PAGES)
    {
      if !up(page) { return None; }
      ReachUnfolds(server, k, a, h, MAX_PAGES - page);
      var more;
      seen, m, cursor, more := OnePage(server, k, start, h, cursor, seen, m);
      if !more { break; }
      h := PageEnd(server, k, a, h);
      page := page + 1;
    }
    ReachUnfolds(server, k, a, h, 0);
    TakenTotals(server, a, h, seen, m);
    return Some(m);
  }

  lemma TakenTotals(server: seq<RawFill>, a: nat, h: int, seen: set<int64>, m: map<string, Acc>)
    requires Taken(server, a, h, seen, m)
    ensures a <= h <= |server| && Totals(m, server[a..h])
  {
  }

  /** Every order's fills, summed up over exactly the fills that paging reaches. */
  method FillsByCloidSince(server: seq<RawFill>, k: nat, start: int64, up: nat -> bool)
    returns (out: Option<map<string, Fill>>)
    requires Sound(server) && 1 <= k
    ensures (forall page :: up(page)) ==> out.Some?
    ensures out.Some? ==>
      var a := From(server, start);
      var taken := server[a..Reach(server, k, a, a, MAX_PAGES)];
      out.value == map c | c in Cloids(taken) :: FillOf(AccOf(taken, c))
  {
    var sums := TakePages(server, k, start, up);
    hide From, Reach, Cloids, AccOf, FillOf;
    if sums.None? { return None; }
    var result := Summarize(sums.value);
    return Some(result);
  }

  /** Walks the sums in whatever order they come. */
  method Summarize(m: map<string, Acc>) returns (out: map<string, Fill>)
    ensures out == map c | c in m :: FillOf(m[c])
  {
    out := map[];
    var rest := m.Keys;
    while rest != {}
      invariant rest <= m.Keys
      invariant out == map c | c in m.Keys - rest :: FillOf(m[c])
      decreases rest
    {
      var c :| c in rest;
      out := out[c := FillOf(m[c])];
      rest := rest - {c};
    }
  }
}
