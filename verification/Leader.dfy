/** One instance's belief about leadership, kept by renewing a lease that may be lost. */
module Leader {
  import opened Numbers
  import Lease

  /** A store call can fail before it takes effect, or take effect and lose its answer. */
  datatype Fault = NoFault | LostBefore | LostAfter

  datatype Reply = Answer(out: Lease.Outcome) | InfraError

  function Call(row: Lease.Row, req: Lease.Req, fault: Fault): (Lease.Row, Reply) {
    var (next, out) := Lease.Decide(row, req);
    match fault
    case NoFault => (next, Answer(out))
    case LostBefore => (row, InfraError)
    case LostAfter => (next, InfraError)
  }

  datatype Belief = Belief(epoch: uint64, isLeader: bool)

  const NOT_LEADER := Belief(0, false)

  /** The belief after a renewal, and whether to go on and acquire. Only a typed loss drops
      leadership; an infrastructure error keeps the belief for the next tick. */
  function AfterRenew(b: Belief, reply: Reply): (Belief, bool) {
    match reply
    case Answer(Granted(l)) => (Belief(l.epoch, true), false)
    case Answer(NoOp) => (Belief(0, true), false)
    case Answer(Rejected(e)) => if e.ErrNotHolder? || e.ErrExpired? then (NOT_LEADER, true) else (b, false)
    case InfraError => (b, false)
  }

  function AfterAcquire(reply: Reply): Belief {
    match reply
    case Answer(Granted(l)) => Belief(l.epoch, true)
    case Answer(NoOp) => Belief(0, true)
    case _ => NOT_LEADER
  }

  /** When the two store calls of one step happen, and how they fail. */
  datatype Weather = Weather(renewAt: int64, renewFault: Fault, acquireAt: int64, acquireFault: Fault)

  /** A whole step with nothing else happening in between. */
  function StepSpec(b: Belief, row: Lease.Row, holder: string, ttl: int64, w: Weather): (Belief, Lease.Row) {
    var (row1, b1, acquire) :=
      if b.isLeader then
        var (row1, reply) := Call(row, Lease.Req(Lease.OpRenew, holder, w.renewAt, ttl), w.renewFault);
        var (b1, go) := AfterRenew(b, reply);
        (row1, b1, go)
      else (row, b, true);
    if acquire then
      var (row2, reply) := Call(row1, Lease.Req(Lease.OpAcquire, holder, w.acquireAt, ttl), w.acquireFault);
      (AfterAcquire(reply), row2)
    else
      (b1, row1)
  }

  class Leader {
    const store: Lease.Mem
    const name: string
    const holder: string
    const ttl: int64
    var epoch: uint64
    var isLeader: bool

    constructor (store: Lease.Mem, name: string, holder: string, ttl: int64)
      ensures this.store == store && this.name == name && this.holder == holder && this.ttl == ttl
      ensures Fence() == NOT_LEADER
    {
      this.store, this.name, this.holder, this.ttl := store, name, holder, ttl;
      epoch, isLeader := 0, false;
    }

    function Fence(): Belief
      reads this
    {
      Belief(epoch, isLeader)
    }

    method Set(epoch: uint64, isLeader: bool)
      modifies this
      ensures Fence() == Belief(epoch, isLeader)
    {
      this.epoch, this.isLeader := epoch, isLeader;
    }

    method CallStore(op: Lease.Op, ttl: int64, nowMs: int64, fault: Fault) returns (reply: Reply)
      modifies store
      ensures (store.RowOf(name), reply) == Call(old(store.RowOf(name)), Lease.Req(op, holder, nowMs, ttl), fault)
      ensures forall n :: n != name ==> store.RowOf(n) == old(store.RowOf(n))
    {
      if fault.LostBefore? { return InfraError; }
      var out := store.Apply(name, Lease.Req(op, holder, nowMs, ttl));
      return if fault.LostAfter? then InfraError else Answer(out);
    }

    /** One acquire-or-renew cycle. */
    method Step(w: Weather)
      modifies this, store
      ensures (Fence(), store.RowOf(name)) == StepSpec(old(Fence()), old(store.RowOf(name)), holder, ttl, w)
      ensures forall n :: n != name ==> store.RowOf(n) == old(store.RowOf(n))
    {
      if isLeader {
        var renewed := CallStore(Lease.OpRenew, ttl, w.renewAt, w.renewFault);
        match renewed {
          case Answer(Granted(l)) => Set(l.epoch, true); return;
          case Answer(NoOp) => Set(0, true); return;
          case Answer(Rejected(e)) =>
            if e.ErrNotHolder? || e.ErrExpired? { Set(0, false); } else { return; }
          case InfraError => return;
        }
      }
      var acquired := CallStore(Lease.OpAcquire, ttl, w.acquireAt, w.acquireFault);
      match acquired {
        case Answer(Granted(l)) => Set(l.epoch, true);
        case Answer(NoOp) => Set(0, true);
        case _ => Set(0, false);
      }
    }

    /** The shutdown path of the run loop: give the lease back as well as may be, then stop leading. */
    method Stop(nowMs: int64, fault: Fault)
      modifies this, store
      ensures Fence() == NOT_LEADER
      ensures store.RowOf(name) == Call(old(store.RowOf(name)), Lease.Req(Lease.OpRelease, holder, nowMs, 0), fault).0
      ensures forall n :: n != name ==> store.RowOf(n) == old(store.RowOf(n))
    {
      var _ := CallStore(Lease.OpRelease, 0, nowMs, fault);
      Set(0, false);
    }
  }

  /** A step that ends in leadership without a lost renewal answer holds the row it wrote. */
  lemma LeadingMeansHolding(b: Belief, row: Lease.Row, holder: string, ttl: int64, w: Weather)
    ensures var (b', row') := StepSpec(b, row, holder, ttl, w);
      b'.isLeader ==>
        || (b'.epoch == row'.epoch && row'.holder == holder)
        || (b' == b && b.isLeader && w.renewFault != NoFault)
  {
  }

  /** A step whose calls all come through leads afterwards exactly if it could renew its live lease,
      keeping the epoch, or found the lease free, minting the next one. */
  lemma FaultlessStep(b: Belief, row: Lease.Row, holder: string, ttl: int64, w: Weather)
    requires w.renewFault.NoFault? && w.acquireFault.NoFault?
    ensures var (b', row') := StepSpec(b, row, holder, ttl, w);
      var renews := b.isLeader && row.holder == holder && w.renewAt < row.expiresAtMs;
      var acquires := !renews && row.expiresAtMs <= w.acquireAt;
      && b'.isLeader == (renews || acquires)
      && (renews ==> b'.epoch == row'.epoch == row.epoch && row'.expiresAtMs == Add64(w.renewAt, ttl))
      && (acquires ==> b'.epoch == row'.epoch == Succ64(row.epoch) && row'.expiresAtMs == Add64(w.acquireAt, ttl))
      && (!renews && !acquires ==> b' == NOT_LEADER && row' == row)
  {
  }

  /** An outage while renewing keeps the belief and asks for nothing more: the row is as it was, or
      renewed under the epoch it had. */
  lemma OutageKeepsBelief(b: Belief, row: Lease.Row, holder: string, ttl: int64, w: Weather)
    requires b.isLeader && !w.renewFault.NoFault?
    ensures var (b', row') := StepSpec(b, row, holder, ttl, w);
      b' == b && row'.epoch == row.epoch && row'.holder == row.holder && (w.renewFault.LostBefore? ==> row' == row)
  {
  }
}
