/** The per-key millisecond nonce allocator and the exchange's acceptance window. */
module Nonce {
  import opened Numbers

  /** Go's uint64(x). */
  function ToUint64(x: int64): uint64 { if x >= 0 then x else x + 0x1_0000_0000_0000_0000 }

  /** Go's int64(x). */
  function ToInt64(x: uint64): int64 { if x < 0x8000_0000_0000_0000 then x else x - 0x1_0000_0000_0000_0000 }

  /** max(now, last + 1), on machine integers. */
  function NextAfter(last: uint64, nowMs: int64): uint64 {
    if ToUint64(nowMs) <= last then Succ64(last) else ToUint64(nowMs)
  }

  /** A stalled or regressing clock still yields a higher nonce, and the least one that is current;
      only at the top of uint64 does the mark wrap. */
  lemma NextIsLeastFresh(last: uint64, nowMs: int64, m: uint64)
    ensures NextAfter(last, nowMs) > last <==> last < TWO64 - 1
    ensures last < TWO64 - 1 ==> NextAfter(last, nowMs) >= ToUint64(nowMs)
    ensures m > last && m >= ToUint64(nowMs) ==> NextAfter(last, nowMs) <= m
  {
  }

  class Allocator {
    var last: map<string, uint64>

    constructor ()
      ensures last == map[]
    {
      last := map[];
    }

    function LastOf(keyID: string): uint64
      reads this
    {
      if keyID in last then last[keyID] else 0
    }

    method Next(keyID: string, nowMs: int64) returns (n: uint64)
      modifies this
      ensures n == NextAfter(old(LastOf(keyID)), nowMs)
      ensures last == old(last)[keyID := n]
    {
      n := ToUint64(nowMs);
      var prior := if keyID in last then last[keyID] else 0;
      if n <= prior {
        n := Succ64(prior);
      }
      last := last[keyID := n];
    }
  }

  const WINDOW_PAST_MS: int64 := 2 * 24 * 60 * 60 * 1000
  const WINDOW_FUTURE_MS: int64 := 24 * 60 * 60 * 1000

  /** The exchange takes a nonce strictly between two days ago and one day ahead. */
  predicate WithinWindow(nonce: uint64, nowMs: int64) {
    Add64(nowMs, -WINDOW_PAST_MS) < ToInt64(nonce) < Add64(nowMs, WINDOW_FUTURE_MS)
  }

  /** The window in plain numbers, away from the ends of int64: over two days old is too old, a day
      ahead is too far, both ends excluded. */
  lemma WindowMeans(nonce: uint64, nowMs: int64)
    requires nonce < TWO63 && -TWO63 + 172_800_000 <= nowMs < TWO63 - 86_400_000
    ensures WithinWindow(nonce, nowMs) <==> nowMs - 172_800_000 < nonce < nowMs + 86_400_000
  {
  }

  /** A nonce at or beyond 2^63 reads as negative, so it is never in the window of a positive clock. */
  lemma HugeNonceIsOutside(nonce: uint64, nowMs: int64)
    requires TWO63 <= nonce && 172_800_000 <= nowMs
    ensures !WithinWindow(nonce, nowMs)
  {
  }

  /** A current nonce is accepted exactly when it runs less than a day ahead, while the clock is
      more than a day away from the end of int64. */
  lemma CurrentNonceInWindow(nonce: uint64, nowMs: int64)
    requires 0 < nowMs <= nonce < TWO63 && nowMs < TWO63 - WINDOW_FUTURE_MS
    ensures WithinWindow(nonce, nowMs) <==> nonce - nowMs < WINDOW_FUTURE_MS
  {
  }
}
