/** The per-key single writer: fence, clock, daily cap and nonce in one transition. */
module SingleWriter {
  import opened Numbers
  import opened Wrappers

  datatype State = State(fence: uint64, lastNonce: uint64, spendDay: int64, spendTotal: Float)

  const ZERO_STATE := State(0, 0, 0, Fin(0.0))

  datatype Request = Request(keyID: string, fence: uint64, notional: Float, dailyCap: Float, nowMs: int64)

  datatype Error = ErrFenced | ErrInvalidClock | ErrInvalidNotional | ErrDailyCap

  predicate ValidNotional(n: Float) { n.Fin? && !n.Negative() }

  /** What the key has already spent on `day`. */
  function SpentOn(s: State, day: int64): Float { if s.spendDay != day then Fin(0.0) else s.spendTotal }

  /** The next state and the nonce granted; every rejection returns the state it was given. */
  function Decide(s: State, r: Request): (State, Result<uint64, Error>) {
    if r.fence < s.fence then (s, Err(ErrFenced))
    else if r.nowMs <= 0 then (s, Err(ErrInvalidClock))
    else if !ValidNotional(r.notional) then (s, Err(ErrInvalidNotional))
    else if r.dailyCap.Negative() then (s, Err(ErrDailyCap))
    else
      var day := DayOf(r.nowMs);
      var total := SpentOn(s, day);
      if r.dailyCap.Positive() && r.dailyCap.Lt(total.Add(r.notional)) then (s, Err(ErrDailyCap))
      else
        var n: uint64 := if r.nowMs <= s.lastNonce then Succ64(s.lastNonce) else r.nowMs;
        (State(r.fence, n, day, total.Add(r.notional)), Ok(n))
  }

  /** When a request is accepted, and which complaint wins otherwise. */
  lemma DecideAccepts(s: State, r: Request)
    ensures var out := Decide(s, r).1;
      && (out.Ok? <==>
            && s.fence <= r.fence && 0 < r.nowMs && ValidNotional(r.notional) && !r.dailyCap.Negative()
            && (r.dailyCap.Positive() ==> !r.dailyCap.Lt(SpentOn(s, DayOf(r.nowMs)).Add(r.notional))))
      && (out == Err(ErrFenced) <==> r.fence < s.fence)
      && (out == Err(ErrInvalidClock) <==> s.fence <= r.fence && r.nowMs <= 0)
      && (out == Err(ErrInvalidNotional) <==> s.fence <= r.fence && 0 < r.nowMs && !ValidNotional(r.notional))
      && (out.Err? ==> Decide(s, r).0 == s)
  {
  }

  /** A nonce that is neither in the past nor used. */
  predicate Usable(s: State, r: Request, m: uint64) { r.nowMs <= m && s.lastNonce < m }

  /** The nonce granted is the least one that is both current and unused, as long as the
      high-water mark has not reached the top of uint64; there it wraps to zero. */
  lemma NonceIsLeastFresh(s: State, r: Request)
    requires Decide(s, r).1.Ok?
    ensures var n := Decide(s, r).1.value;
      && Decide(s, r).0.lastNonce == n
      && (n > s.lastNonce <==> s.lastNonce < TWO64 - 1)
      && (s.lastNonce < TWO64 - 1 ==> Usable(s, r, n) && forall m: uint64 :: Usable(s, r, m) ==> n <= m)
      && (s.lastNonce == TWO64 - 1 ==> n == 0)
  {
  }

  /** Accepting charges the day's total and moves the fence; the total stays under the cap. */
  lemma AcceptCharges(s: State, r: Request)
    requires Decide(s, r).1.Ok?
    ensures var s' := Decide(s, r).0;
      && s'.fence == r.fence >= s.fence
      && SpentOn(s', DayOf(r.nowMs)) == SpentOn(s, DayOf(r.nowMs)).Add(r.notional)
      && (r.dailyCap.Positive() ==> !r.dailyCap.Lt(SpentOn(s', DayOf(r.nowMs))))
      && (forall d: int64 :: d != DayOf(r.nowMs) ==> SpentOn(s', d) == Fin(0.0))
  {
  }

  /** The in-process writer: one state per key, overwritten on every grant. */
  class Mem {
    var state: map<string, State>

    constructor ()
      ensures state == map[]
    {
      state := map[];
    }

    function StateOf(keyID: string): State
      reads this
    {
      if keyID in state then state[keyID] else ZERO_STATE
    }

    method Authorize(r: Request) returns (out: Result<uint64, Error>)
      modifies this
      ensures (StateOf(r.keyID), out) == Decide(old(StateOf(r.keyID)), r)
      ensures forall k :: k != r.keyID ==> StateOf(k) == old(StateOf(k))
      ensures out.Err? ==> state == old(state)
    {
      var (next, res) := Decide(StateOf(r.keyID), r);
      if res.Ok? {
        state := state[r.keyID := next];
      }
      return res;
    }
  }
}
