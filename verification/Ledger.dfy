/** The cloid-keyed intent ledger: idempotent authorization and the status lifecycle. */
module Ledger {
  import opened Numbers
  import opened Wrappers
  import SingleWriter

  type Digest = seq<nat>

  datatype Status = Signed | Submitted | Open | Filled | Rejected | Canceled

  datatype Record = Record(nonce: uint64, digest: Digest, status: Status)

  datatype Key = Key(keyID: string, cloid: string)

  datatype SpendState = SpendState(day: int64, total: Float)

  const ZERO_SPEND := SpendState(0, Fin(0.0))

  datatype Request = Request(
    keyID: string, cloid: string, digest: Digest, fence: uint64, notional: Float, dailyCap: Float,
    addressSpendKey: string, addressDailyCap: Float, nowMs: int64)
  {
    function Id(): Key { Key(keyID, cloid) }

    function ForWriter(): SingleWriter.Request { SingleWriter.Request(keyID, fence, notional, dailyCap, nowMs) }
  }

  datatype Grant = Grant(nonce: uint64, duplicate: bool)

  datatype Error =
    | ErrMissingCloid
    | ErrCloidReuse
    | ErrAddressDailyCap
    | ErrInvalidTransition
    | ErrUnknownIntent
    | Writer(why: SingleWriter.Error)

  function SpentOn(s: SpendState, day: int64): Float { if s.day != day then Fin(0.0) else s.total }

  /** Charges the budget an owner address shares across its keys. */
  function DecideSpend(s: SpendState, notional: Float, dailyCap: Float, nowMs: int64): (SpendState, bool) {
    if !SingleWriter.ValidNotional(notional) then (s, false)
    else if !dailyCap.Fin? || dailyCap.Negative() then (s, false)
    else
      var day := DayOf(nowMs);
      var total := SpentOn(s, day);
      if dailyCap.Positive() && dailyCap.Lt(total.Add(notional)) then (s, false)
      else (SpendState(day, total.Add(notional)), true)
  }

  /** One authorization: missing cloid, then replay or collision, then the single writer,
      then the shared budget. Every rejection and every replay returns the states unchanged. */
  function Decide(sw: SingleWriter.State, addr: SpendState, existing: Option<Record>, r: Request)
    : (SingleWriter.State, SpendState, Result<(Record, Grant), Error>)
  {
    if r.cloid == "" then (sw, addr, Err(ErrMissingCloid))
    else if existing.Some? then
      if existing.value.digest != r.digest then (sw, addr, Err(ErrCloidReuse))
      else (sw, addr, Ok((existing.value, Grant(existing.value.nonce, true))))
    else
      var (nextSW, nonce) := SingleWriter.Decide(sw, r.ForWriter());
      if nonce.Err? then (sw, addr, Err(Writer(nonce.error)))
      else if r.addressDailyCap.Negative() then (sw, addr, Err(ErrAddressDailyCap))
      else
        var (nextAddr, ok) :=
          if !r.addressDailyCap.IsZero() then DecideSpend(addr, r.notional, r.addressDailyCap, r.nowMs) else (addr, true);
        if !ok then (sw, addr, Err(ErrAddressDailyCap))
        else (nextSW, nextAddr, Ok((Record(nonce.value, r.digest, Signed), Grant(nonce.value, false))))
  }

  predicate IsTerminal(s: Status) { s.Filled? || s.Rejected? || s.Canceled? }

  /** The permitted forward edges; terminal states have none. */
  predicate Allowed(current: Status, target: Status) {
    match current
    case Signed => target.Submitted? || target.Open? || target.Filled? || target.Canceled? || target.Rejected?
    case Submitted => target.Open? || target.Filled? || target.Canceled? || target.Rejected?
    case Open => target.Filled? || target.Canceled? || target.Rejected?
    case _ => false
  }

  function Transition(current: Status, target: Status): Result<Status, Error> {
    if current == target then Ok(current)
    else if Allowed(current, target) then Ok(target)
    else Err(ErrInvalidTransition)
  }

  /** The whole persisted state of the ledger. */
  datatype Books = Books(
    sw: map<string, SingleWriter.State>,
    addrSpend: map<string, SpendState>,
    records: map<Key, Record>,
    updatedAt: map<Key, int64>)
  {
    function WriterOf(keyID: string): SingleWriter.State { if keyID in sw then sw[keyID] else SingleWriter.ZERO_STATE }

    function SpendOf(owner: string): SpendState { if owner in addrSpend then addrSpend[owner] else ZERO_SPEND }

    function RecordOf(id: Key): Option<Record> { if id in records then Some(records[id]) else None }
  }

  const EMPTY := Books(map[], map[], map[], map[])

  /** Atomic check-and-reserve against the books; `wall` is the time stamped on the record. */
  function AuthorizeBooks(b: Books, r: Request, wall: int64): (Books, Result<Grant, Error>) {
    var addr := if r.addressDailyCap.Positive() then b.SpendOf(r.addressSpendKey) else ZERO_SPEND;
    var (nextSW, nextAddr, out) := Decide(b.WriterOf(r.keyID), addr, b.RecordOf(r.Id()), r);
    match out
    case Err(e) => (b, Err(e))
    case Ok((rec, g)) =>
      if g.duplicate then (b, Ok(g))
      else
        (Books(
          b.sw[r.keyID := nextSW],
          if r.addressDailyCap.Positive() then b.addrSpend[r.addressSpendKey := nextAddr] else b.addrSpend,
          b.records[r.Id() := rec],
          b.updatedAt[r.Id() := wall]), Ok(g))
  }

  function ReconcileBooks(b: Books, id: Key, target: Status, wall: int64): (Books, Result<Status, Error>) {
    if id !in b.records then (b, Err(ErrUnknownIntent))
    else
      match Transition(b.records[id].status, target)
      case Err(e) => (b, Err(e))
      case Ok(next) =>
        (b.(records := b.records[id := b.records[id].(status := next)], updatedAt := b.updatedAt[id := wall]), Ok(next))
  }

  /** All or nothing: a fresh grant charges both budgets, takes the writer's nonce and files the
      record; a replay answers from the record; a rejection or replay moves nothing at all. */
  lemma AuthorizeMeaning(b: Books, r: Request, wall: int64)
    ensures var (b', out) := AuthorizeBooks(b, r, wall);
      && (out.Err? || out.value.duplicate ==> b' == b)
      && (out.Ok? ==> r.cloid != "")
      && (out.Ok? && out.value.duplicate <==>
            r.cloid != "" && r.Id() in b.records && b.records[r.Id()].digest == r.digest)
      && (out == Err(ErrCloidReuse) <==>
            r.cloid != "" && r.Id() in b.records && b.records[r.Id()].digest != r.digest)
      && (out.Ok? && out.value.duplicate ==> out.value.nonce == b.records[r.Id()].nonce)
      && (out.Ok? && !out.value.duplicate ==>
            && r.Id() !in b.records
            && (b'.WriterOf(r.keyID), Ok(out.value.nonce)) == SingleWriter.Decide(b.WriterOf(r.keyID), r.ForWriter())
            && (r.addressDailyCap.Positive() ==>
                  (b'.SpendOf(r.addressSpendKey), true)
                    == DecideSpend(b.SpendOf(r.addressSpendKey), r.notional, r.addressDailyCap, r.nowMs))
            && (!r.addressDailyCap.Positive() ==> r.addressDailyCap.IsZero() && b'.addrSpend == b.addrSpend)
            && b'.records == b.records[r.Id() := Record(out.value.nonce, r.digest, Signed)]
            && (forall k :: k != r.keyID ==> b'.WriterOf(k) == b.WriterOf(k))
            && (forall a :: a != r.addressSpendKey ==> b'.SpendOf(a) == b.SpendOf(a)))
  {
  }

  /** A fresh grant is stamped with the wall time, and no other stamp moves. */
  lemma FreshGrantIsStamped(b: Books, r: Request, wall: int64)
    ensures var (b', out) := AuthorizeBooks(b, r, wall);
      b'.updatedAt == if out.Ok? && !out.value.duplicate then b.updatedAt[r.Id() := wall] else b.updatedAt
  {
  }

  /** When exactly a request is granted afresh, and which complaint it gets otherwise. */
  lemma FreshGrantExactlyWhen(b: Books, r: Request, wall: int64)
    ensures var out := AuthorizeBooks(b, r, wall).1;
      var writer := SingleWriter.Decide(b.WriterOf(r.keyID), r.ForWriter()).1;
      var isNew := r.cloid != "" && r.Id() !in b.records;
      var room := r.addressDailyCap.IsZero()
        || (r.addressDailyCap.Fin? && r.addressDailyCap.Positive()
            && !r.addressDailyCap.Lt(SpentOn(b.SpendOf(r.addressSpendKey), DayOf(r.nowMs)).Add(r.notional)));
      && (out.Ok? && !out.value.duplicate <==> isNew && writer.Ok? && room)
      && (out == Err(ErrMissingCloid) <==> r.cloid == "")
      && (out == Err(ErrAddressDailyCap) <==> isNew && writer.Ok? && !room)
      && (out.Err? && out.error.Writer? <==> isNew && writer.Err?)
      && (out.Err? && out.error.Writer? ==> out.error.why == writer.error)
  {
  }

  /** The rule in full: a replay needs the digest on file; a new intent needs a current fence, a
      positive clock, a non-negative finite notional, and room under the key's and the owner's caps.
      A zero or NaN daily cap is no cap; a NaN or infinite address cap admits nothing. */
  predicate Admissible(b: Books, r: Request) {
    var writer, owner, day := b.WriterOf(r.keyID), b.SpendOf(r.addressSpendKey), DayOf(r.nowMs);
    && r.cloid != ""
    && if r.Id() in b.records then b.records[r.Id()].digest == r.digest
       else
         && writer.fence <= r.fence && 0 < r.nowMs && r.notional.Fin? && r.notional.r >= 0.0
         && !r.dailyCap.Lt(Fin(0.0))
         && (Fin(0.0).Lt(r.dailyCap) ==>
               !r.dailyCap.Lt((if writer.spendDay == day then writer.spendTotal else Fin(0.0)).Add(r.notional)))
         && (r.addressDailyCap == Fin(0.0)
             || (&& r.addressDailyCap.Fin? && r.addressDailyCap.r > 0.0
                 && !r.addressDailyCap.Lt((if owner.day == day then owner.total else Fin(0.0)).Add(r.notional))))
  }

  lemma AuthorizedExactlyWhen(b: Books, r: Request, wall: int64)
    ensures AuthorizeBooks(b, r, wall).1.Ok? <==> Admissible(b, r)
  {
  }

  /** Reporting the status an intent already has is accepted, and refreshes its stamp. */
  lemma SelfReportRefreshes(b: Books, id: Key, wall: int64)
    requires id in b.records
    ensures var (b', out) := ReconcileBooks(b, id, b.records[id].status, wall);
      out == Ok(b.records[id].status) && b'.records == b.records && b'.updatedAt == b.updatedAt[id := wall]
  {
  }

  /** A request the shared budget turns down leaves the per-key nonce and spend where they were,
      though the single writer alone would have granted it. */
  lemma AddressCapRejectionKeepsKey(b: Books, r: Request, wall: int64)
    requires AuthorizeBooks(b, r, wall).1 == Err(ErrAddressDailyCap)
    ensures AuthorizeBooks(b, r, wall).0 == b
    ensures SingleWriter.Decide(b.WriterOf(r.keyID), r.ForWriter()).1.Ok?
    ensures r.addressDailyCap.Positive() && r.addressDailyCap.Fin? ==>
      r.addressDailyCap.Lt(SpentOn(b.SpendOf(r.addressSpendKey), DayOf(r.nowMs)).Add(r.notional))
  {
  }

  /** What a fresh grant does to the key's marks, and that it touches no other key's. */
  lemma FreshGrantMarks(b: Books, r: Request, wall: int64)
    requires AuthorizeBooks(b, r, wall).1.Ok? && !AuthorizeBooks(b, r, wall).1.value.duplicate
    requires b.WriterOf(r.keyID).lastNonce < TWO64 - 1
    ensures var (b', out) := AuthorizeBooks(b, r, wall);
      var before, after := b.WriterOf(r.keyID), b'.WriterOf(r.keyID);
      && before.fence <= after.fence == r.fence
      && before.lastNonce < after.lastNonce == out.value.nonce
      && (out.value.nonce == r.nowMs || out.value.nonce == before.lastNonce + 1)
      && (forall k :: k != r.keyID ==> b'.WriterOf(k) == b.WriterOf(k))
  {
    AuthorizeMeaning(b, r, wall);
  }

  /** Which nonce is granted: the one on file, or the least that is neither in the past nor used. */
  lemma GrantMeans(b: Books, r: Request, wall: int64)
    requires AuthorizeBooks(b, r, wall).1.Ok?
    ensures var g, used := AuthorizeBooks(b, r, wall).1.value, b.WriterOf(r.keyID).lastNonce;
      && (g.duplicate <==> r.Id() in b.records)
      && (r.Id() in b.records ==> g.nonce == b.records[r.Id()].nonce)
      && (r.Id() !in b.records && used < TWO64 - 1 ==> g.nonce == if used < r.nowMs then r.nowMs else used + 1)
  {
  }

  /** Without caps, a new intent under a fence that is not stale is always granted. */
  lemma UncappedIntentIsGranted(b: Books, r: Request, wall: int64)
    requires r.cloid != "" && r.Id() !in b.records && b.WriterOf(r.keyID).fence <= r.fence && 0 < r.nowMs
    requires SingleWriter.ValidNotional(r.notional) && r.dailyCap.IsZero() && r.addressDailyCap.IsZero()
    ensures var (b', out) := AuthorizeBooks(b, r, wall);
      out.Ok? && !out.value.duplicate && b'.records.Keys == b.records.Keys + {r.Id()} && b'.WriterOf(r.keyID).fence == r.fence
  {
  }

  datatype Orphan = Orphan(id: Key, nonce: uint64, status: Status, updatedAtMs: int64)

  function OrphanOf(b: Books, id: Key): Orphan
    requires id in b.records && id in b.updatedAt
  {
    Orphan(id, b.records[id].nonce, b.records[id].status, b.updatedAt[id])
  }

  predicate IsOrphan(b: Books, id: Key, olderThanMs: int64) {
    id in b.records && id in b.updatedAt && !IsTerminal(b.records[id].status) && b.updatedAt[id] < olderThanMs
  }

  /** A list naming every orphan exactly once, in some order. */
  ghost predicate ListsOrphans(b: Books, olderThanMs: int64, list: seq<Orphan>) {
    && (forall i :: 0 <= i < |list| ==> IsOrphan(b, list[i].id, olderThanMs) && list[i] == OrphanOf(b, list[i].id))
    && (forall i, j :: 0 <= i < j < |list| ==> list[i].id != list[j].id)
    && (forall id :: IsOrphan(b, id, olderThanMs) ==> exists i :: 0 <= i < |list| && list[i].id == id)
  }

  /** The in-process ledger over four maps that change together. */
  class Mem {
    var sw: map<string, SingleWriter.State>
    var addrSpend: map<string, SpendState>
    var records: map<Key, Record>
    var updatedAt: map<Key, int64>

    constructor ()
      ensures Contents() == EMPTY
    {
      sw, addrSpend, records, updatedAt := map[], map[], map[], map[];
    }

    function Contents(): Books
      reads this
    {
      Books(sw, addrSpend, records, updatedAt)
    }

    predicate Valid()
      reads this
    {
      records.Keys == updatedAt.Keys
    }

    method Authorize(r: Request, wall: int64) returns (out: Result<Grant, Error>)
      requires Valid()
      modifies this
      ensures Valid()
      ensures (Contents(), out) == AuthorizeBooks(old(Contents()), r, wall)
    {
      var existing := if r.Id() in records then Some(records[r.Id()]) else None;
      var addr := ZERO_SPEND;
      if r.addressDailyCap.Positive() && r.addressSpendKey in addrSpend {
        addr := addrSpend[r.addressSpendKey];
      }
      var writer := if r.keyID in sw then sw[r.keyID] else SingleWriter.ZERO_STATE;
      var (nextSW, nextAddr, res) := Decide(writer, addr, existing, r);
      if res.Err? { return Err(res.error); }
      var (rec, g) := res.value;
      if !g.duplicate {
        sw := sw[r.keyID := nextSW];
        if r.addressDailyCap.Positive() {
          addrSpend := addrSpend[r.addressSpendKey := nextAddr];
        }
        records := records[r.Id() := rec];
        updatedAt := updatedAt[r.Id() := wall];
      }
      return Ok(g);
    }

    method Reconcile(id: Key, target: Status, wall: int64) returns (out: Result<Status, Error>)
      requires Valid()
      modifies this
      ensures Valid()
      ensures (Contents(), out) == ReconcileBooks(old(Contents()), id, target, wall)
    {
      if id !in records { return Err(ErrUnknownIntent); }
      var rec := records[id];
      var next := Transition(rec.status, target);
      if next.Err? { return next; }
      records := records[id := rec.(status := next.value)];
      updatedAt := updatedAt[id := wall];
      return next;
    }

    /** Walks the record map in whatever order it comes. */
    method Orphans(olderThanMs: int64) returns (out: seq<Orphan>)
      requires Valid()
      ensures ListsOrphans(Contents(), olderThanMs, out)
    {
      out := [];
      var rest := records.Keys;
      while rest != {}
        invariant rest <= records.Keys
        invariant forall i :: 0 <= i < |out| ==>
          out[i].id !in rest && IsOrphan(Contents(), out[i].id, olderThanMs) && out[i] == OrphanOf(Contents(), out[i].id)
        invariant forall i, j :: 0 <= i < j < |out| ==> out[i].id != out[j].id
        invariant forall id :: id !in rest && IsOrphan(Contents(), id, olderThanMs) ==>
          exists i :: 0 <= i < |out| && out[i].id == id
        decreases rest
      {
        var id :| id in rest;
        ghost var before := out;
        if !IsTerminal(records[id].status) && updatedAt[id] < olderThanMs {
          out := out + [Orphan(id, records[id].nonce, records[id].status, updatedAt[id])];
          assert out[|before|].id == id;
        }
        assert forall i :: 0 <= i < |before| ==> out[i] == before[i];
        rest := rest - {id};
      }
    }
  }
}
