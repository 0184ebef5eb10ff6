/** The signing authority as a whole: several instances, one lease row, one ledger, and requests
    that carry the fence their instance believed in when they were captured.

    Every store operation is atomic. Between the moments a leader step issues a store call,
    receives the answer and acts on it, anything else may happen; a call may fail before or after
    it took effect; a captured request may reach the ledger arbitrarily late, or more than once. */
module Protocol {
  import opened Numbers
  import opened Wrappers
  import Lease
  import Leader
  import SingleWriter
  import Ledger

  /** Where an instance stands inside its leader step, or on its way out. */
  datatype Phase =
    | Idle
    | Renewed(reply: Leader.Reply)
    | MustAcquire
    | Acquired(reply: Leader.Reply)
    | Released
    | Stopped

  datatype Instance = Instance(belief: Leader.Belief, phase: Phase)

  datatype Flight = Flight(inst: nat, req: Ledger.Request)

  /** A fresh grant and the instance that obtained it. */
  datatype Entry = Entry(inst: nat, id: Ledger.Key, fence: uint64, nonce: uint64, digest: Ledger.Digest)

  /** `owners` and `log` are history: who minted each epoch, and every fresh grant in order. */
  datatype World = World(
    row: Lease.Row,
    insts: seq<Instance>,
    flights: seq<Flight>,
    books: Ledger.Books,
    log: seq<Entry>,
    owners: seq<string>)

  datatype Event =
    | Call(inst: nat, nowMs: int64, ttlMs: int64, fault: Leader.Fault)
    | Receive(inst: nat)
    | Release(inst: nat, nowMs: int64, fault: Leader.Fault)
    | Quit(inst: nat)
    | Crash(inst: nat)
    | Straggler(inst: nat, op: Lease.Op, nowMs: int64, ttlMs: int64)
    | Capture(inst: nat, req: Ledger.Request)
    | Serve(flight: nat, wall: int64)
    | Report(id: Ledger.Key, status: Ledger.Status, wall: int64)

  function Init(holders: seq<string>): World {
    World(Lease.ZERO_ROW, seq(|holders|, _ => Instance(Leader.NOT_LEADER, Idle)), [], Ledger.EMPTY, [], [])
  }

  /** One store call of instance `i`: the row moves, and a new epoch is noted with its owner. */
  function StoreCall(w: World, holder: string, op: Lease.Op, nowMs: int64, ttlMs: int64, fault: Leader.Fault)
    : (World, Leader.Reply)
  {
    var (row, reply) := Leader.Call(w.row, Lease.Req(op, holder, nowMs, ttlMs), fault);
    (w.(row := row, owners := if row.epoch != w.row.epoch then w.owners + [holder] else w.owners), reply)
  }

  function SetInst(w: World, i: nat, inst: Instance): World
    requires i < |w.insts|
  {
    w.(insts := w.insts[i := inst])
  }

  function OnCall(holders: seq<string>, w: World, i: nat, nowMs: int64, ttlMs: int64, fault: Leader.Fault): World
    requires i < |w.insts| == |holders|
  {
    var me := w.insts[i];
    if me.phase.Idle? && me.belief.isLeader then
      var (w', reply) := StoreCall(w, holders[i], Lease.OpRenew, nowMs, ttlMs, fault);
      SetInst(w', i, me.(phase := Renewed(reply)))
    else if me.phase.Idle? || me.phase.MustAcquire? then
      var (w', reply) := StoreCall(w, holders[i], Lease.OpAcquire, nowMs, ttlMs, fault);
      SetInst(w', i, me.(phase := Acquired(reply)))
    else w
  }

  function OnReceive(w: World, i: nat): World
    requires i < |w.insts|
  {
    var me := w.insts[i];
    match me.phase
    case Renewed(reply) =>
      var (belief, acquire) := Leader.AfterRenew(me.belief, reply);
      SetInst(w, i, Instance(belief, if acquire then MustAcquire else Idle))
    case Acquired(reply) => SetInst(w, i, Instance(Leader.AfterAcquire(reply), Idle))
    case _ => w
  }

  /** Shutting down: the lease is given back first, while the belief still stands. */
  function OnRelease(holders: seq<string>, w: World, i: nat, nowMs: int64, fault: Leader.Fault): World
    requires i < |w.insts| == |holders|
  {
    if !w.insts[i].phase.Idle? then w
    else
      var (w', _) := StoreCall(w, holders[i], Lease.OpRelease, nowMs, 0, fault);
      SetInst(w', i, w'.insts[i].(phase := Released))
  }

  function OnQuit(w: World, i: nat): World
    requires i < |w.insts|
  {
    if w.insts[i].phase.Released? then SetInst(w, i, Instance(Leader.NOT_LEADER, Stopped)) else w
  }

  /** The process dies at any point and comes back, under its old holder id and knowing nothing. */
  function OnCrash(w: World, i: nat): World
    requires i < |w.insts|
  {
    SetInst(w, i, Instance(Leader.NOT_LEADER, Idle))
  }

  function OnServe(w: World, f: nat, wall: int64): World
    requires f < |w.flights|
  {
    var Flight(inst, req) := w.flights[f];
    var (books, out) := Ledger.AuthorizeBooks(w.books, req, wall);
    var log := if out.Ok? && !out.value.duplicate
               then w.log + [Entry(inst, req.Id(), req.fence, out.value.nonce, req.digest)] else w.log;
    w.(books := books, log := log)
  }

  function Next(holders: seq<string>, w: World, e: Event): World
    requires |w.insts| == |holders|
    ensures |Next(holders, w, e).insts| == |holders|
  {
    match e
    case Call(i, nowMs, ttlMs, fault) => if i < |holders| then OnCall(holders, w, i, nowMs, ttlMs, fault) else w
    case Receive(i) => if i < |holders| then OnReceive(w, i) else w
    case Release(i, nowMs, fault) => if i < |holders| then OnRelease(holders, w, i, nowMs, fault) else w
    case Quit(i) => if i < |holders| then OnQuit(w, i) else w
    case Crash(i) => if i < |holders| then OnCrash(w, i) else w
    case Straggler(i, op, nowMs, ttlMs) =>
      // a store call of a process that died meanwhile still takes effect; nobody hears the answer
      if i < |holders| then StoreCall(w, holders[i], op, nowMs, ttlMs, Leader.LostAfter).0 else w
    case Capture(i, req) =>
      // a non-leader turns the request away; a leader stamps it with the epoch it believes in
      if i < |holders| && w.insts[i].belief.isLeader
      then w.(flights := w.flights + [Flight(i, req.(fence := w.insts[i].belief.epoch))]) else w
    case Serve(f, wall) => if f < |w.flights| then OnServe(w, f, wall) else w
    case Report(id, status, wall) => w.(books := Ledger.ReconcileBooks(w.books, id, status, wall).0)
  }

  function Run(holders: seq<string>, events: seq<Event>): (w: World)
    ensures |w.insts| == |holders|
  {
    if events == [] then Init(holders)
    else Next(holders, Run(holders, events[..|events| - 1]), events[|events| - 1])
  }

  // ---- what every step keeps ----

  /** Epoch `epoch` was minted for instance `i`'s holder id. */
  predicate Owns(holders: seq<string>, owners: seq<string>, i: nat, epoch: int) {
    i < |holders| && 1 <= epoch <= |owners| && owners[epoch - 1] == holders[i]
  }

  predicate ReplyOwned(holders: seq<string>, owners: seq<string>, i: nat, reply: Leader.Reply) {
    match reply
    case Answer(Granted(l)) => Owns(holders, owners, i, l.epoch)
    case Answer(NoOp) => false
    case _ => true
  }

  predicate InstanceOk(holders: seq<string>, owners: seq<string>, i: nat, inst: Instance) {
    && (inst.belief.isLeader ==> Owns(holders, owners, i, inst.belief.epoch))
    && (inst.phase.Renewed? ==> ReplyOwned(holders, owners, i, inst.phase.reply))
    && (inst.phase.Acquired? ==> ReplyOwned(holders, owners, i, inst.phase.reply))
  }

  /** Every epoch in use is known to have been minted for whoever uses it. */
  ghost predicate Provenance(holders: seq<string>, w: World, steps: nat) {
    && |w.insts| == |holders|
    && |w.owners| == w.row.epoch <= steps
    && (w.row.epoch >= 1 ==> w.owners[w.row.epoch - 1] == w.row.holder)
    && (forall i :: 0 <= i < |holders| ==> InstanceOk(holders, w.owners, i, w.insts[i]))
    && (forall f :: 0 <= f < |w.flights| ==> Owns(holders, w.owners, w.flights[f].inst, w.flights[f].req.fence))
    && (forall g :: 0 <= g < |w.log| ==> Owns(holders, w.owners, w.log[g].inst, w.log[g].fence))
  }

  /** The single writer's marks dominate the log, and the log is ordered per key. */
  ghost predicate Ordered(w: World) {
    && (forall k :: w.books.WriterOf(k).lastNonce < TWO63 + |w.log|)
    && (forall g :: 0 <= g < |w.log| ==>
          var s := w.books.WriterOf(w.log[g].id.keyID);
          w.log[g].fence <= s.fence && w.log[g].nonce <= s.lastNonce)
    && (forall g, h :: 0 <= g < h < |w.log| && w.log[g].id.keyID == w.log[h].id.keyID ==>
          w.log[g].fence <= w.log[h].fence && w.log[g].nonce < w.log[h].nonce)
  }

  lemma StoreCallKeeps(holders: seq<string>, w: World, i: nat, op: Lease.Op, nowMs: int64, ttlMs: int64,
                       fault: Leader.Fault, steps: nat)
    requires Provenance(holders, w, steps) && i < |holders| && steps < TWO64 - 1
    ensures var (w', reply) := StoreCall(w, holders[i], op, nowMs, ttlMs, fault);
      && Provenance(holders, w', steps + 1)
      && (!op.OpRelease? && (op.OpRenew? ==> w.insts[i].belief.isLeader) ==> ReplyOwned(holders, w'.owners, i, reply))
  {
    hide InstanceOk, Add64;
    var req := Lease.Req(op, holders[i], nowMs, ttlMs);
    Lease.DecideMeaning(w.row, req);
    assert InstanceOk(holders, w.owners, i, w.insts[i]);
    BelieverOwns(holders, w.owners, i, w.insts[i]);
    var w' := StoreCall(w, holders[i], op, nowMs, ttlMs, fault).0;
    forall j | 0 <= j < |holders| ensures InstanceOk(holders, w'.owners, j, w.insts[j]) {
      LongerOwners(holders, w.owners, w'.owners, j, w.insts[j]);
    }
  }

  lemma BelieverOwns(holders: seq<string>, owners: seq<string>, i: nat, inst: Instance)
    requires InstanceOk(holders, owners, i, inst)
    ensures inst.belief.isLeader ==> Owns(holders, owners, i, inst.belief.epoch)
  {
  }

  lemma LongerOwners(holders: seq<string>, owners: seq<string>, more: seq<string>, i: nat, inst: Instance)
    requires InstanceOk(holders, owners, i, inst) && owners <= more
    ensures InstanceOk(holders, more, i, inst)
  {
  }

  lemma SetInstKeeps(holders: seq<string>, w: World, i: nat, inst: Instance, steps: nat)
    requires Provenance(holders, w, steps) && i < |holders| && InstanceOk(holders, w.owners, i, inst)
    ensures Provenance(holders, SetInst(w, i, inst), steps)
  {
    hide InstanceOk, Owns;
  }

  lemma EachIsOk(holders: seq<string>, w: World, i: nat, steps: nat)
    requires Provenance(holders, w, steps) && i < |holders|
    ensures |w.insts| == |holders| && InstanceOk(holders, w.owners, i, w.insts[i])
    ensures Provenance(holders, w, steps + 1)
  {
    hide InstanceOk, Owns;
  }

  lemma CallKeepsProvenance(holders: seq<string>, w: World, i: nat, nowMs: int64, ttlMs: int64, fault: Leader.Fault, steps: nat)
    requires Provenance(holders, w, steps) && steps < TWO64 - 1 && i < |holders|
    ensures Provenance(holders, OnCall(holders, w, i, nowMs, ttlMs, fault), steps + 1)
  {
    hide Provenance, Leader.Call, Owns, ReplyOwned;
    EachIsOk(holders, w, i, steps);
    var op := if w.insts[i].phase.Idle? && w.insts[i].belief.isLeader then Lease.OpRenew else Lease.OpAcquire;
    var (w', reply) := StoreCall(w, holders[i], op, nowMs, ttlMs, fault);
    StoreCallKeeps(holders, w, i, op, nowMs, ttlMs, fault, steps);
    EachIsOk(holders, w', i, steps + 1);
    var phase := if op.OpRenew? then Renewed(reply) else Acquired(reply);
    SetInstKeeps(holders, w', i, w.insts[i].(phase := phase), steps + 1);
  }

  lemma ReleaseKeepsProvenance(holders: seq<string>, w: World, i: nat, nowMs: int64, fault: Leader.Fault, steps: nat)
    requires Provenance(holders, w, steps) && steps < TWO64 - 1 && i < |holders|
    ensures Provenance(holders, OnRelease(holders, w, i, nowMs, fault), steps + 1)
  {
    hide Leader.Call;
    StoreCallKeeps(holders, w, i, Lease.OpRelease, nowMs, 0, fault, steps);
  }

  lemma NextKeepsProvenance(holders: seq<string>, w: World, e: Event, steps: nat)
    requires Provenance(holders, w, steps) && steps < TWO64 - 1
    ensures Provenance(holders, Next(holders, w, e), steps + 1)
  {
    hide OnCall, OnRelease, StoreCall, Ledger.AuthorizeBooks, Ledger.ReconcileBooks;
    match e
    case Call(i, nowMs, ttlMs, fault) =>
      if i < |holders| { CallKeepsProvenance(holders, w, i, nowMs, ttlMs, fault, steps); }
    case Release(i, nowMs, fault) =>
      if i < |holders| { ReleaseKeepsProvenance(holders, w, i, nowMs, fault, steps); }
    case Straggler(i, op, nowMs, ttlMs) =>
      if i < |holders| { StoreCallKeeps(holders, w, i, op, nowMs, ttlMs, Leader.LostAfter, steps); }
    case _ =>
  }

  /** Appending a grant that moves its key's marks strictly up keeps the log in order. */
  lemma OrderExtends(w: World, w': World)
    requires Ordered(w) && |w'.log| == |w.log| + 1 && w.log <= w'.log
    requires var entry := w'.log[|w.log|];
      var before, after := w.books.WriterOf(entry.id.keyID), w'.books.WriterOf(entry.id.keyID);
      && before.fence <= after.fence == entry.fence
      && before.lastNonce < after.lastNonce == entry.nonce < TWO63 + |w'.log|
      && forall k :: k != entry.id.keyID ==> w'.books.WriterOf(k) == w.books.WriterOf(k)
    ensures Ordered(w')
  {
    hide Ledger.Books.WriterOf;
  }

  lemma SameMarks(w: World, w': World)
    requires Ordered(w) && w'.log == w.log && forall k :: w'.books.WriterOf(k) == w.books.WriterOf(k)
    ensures Ordered(w')
  {
    hide Ledger.Books.WriterOf;
  }

  lemma NextKeepsOrder(holders: seq<string>, w: World, e: Event)
    requires |w.insts| == |holders| && Ordered(w) && |w.log| < TWO63
    ensures Ordered(Next(holders, w, e))
  {
    hide Ordered, Ledger.AuthorizeBooks, Leader.Call;
    var w' := Next(holders, w, e);
    if e.Serve? && e.flight < |w.flights| {
      ServeKeepsOrder(w, e.flight, e.wall);
    } else {
      assert forall k :: w'.books.WriterOf(k) == w.books.WriterOf(k);
      SameMarks(w, w');
    }
  }

  lemma ServeKeepsOrder(w: World, f: nat, wall: int64)
    requires f < |w.flights| && Ordered(w) && |w.log| < TWO63
    ensures Ordered(OnServe(w, f, wall))
  {
    hide Ledger.AuthorizeBooks, Ledger.Books.WriterOf;
    var w', r := OnServe(w, f, wall), w.flights[f].req;
    var out := Ledger.AuthorizeBooks(w.books, r, wall).1;
    if out.Ok? && !out.value.duplicate {
      assert w.books.WriterOf(r.keyID).lastNonce < TWO63 + |w.log|;
      Ledger.FreshGrantMarks(w.books, r, wall);
      NowIsSmall(r.nowMs);
      OrderExtends(w, w');
    } else {
      Ledger.AuthorizeMeaning(w.books, r, wall);
      assert w' == w;
    }
  }

  lemma NowIsSmall(now: int64)
    ensures now < TWO63
  {
  }

  lemma {:induction false} RunKeeps(holders: seq<string>, events: seq<Event>)
    requires |events| < TWO63
    ensures Provenance(holders, Run(holders, events), |events|) && Ordered(Run(holders, events))
    ensures |Run(holders, events).log| <= |events|
  {
    if events != [] {
      var before, e := events[..|events| - 1], events[|events| - 1];
      RunKeeps(holders, before);
      NextKeepsProvenance(holders, Run(holders, before), e, |before|);
      NextKeepsOrder(holders, Run(holders, before), e);
    }
  }

  /** The log entry is of this intent as filed. */
  predicate Tells(entry: Entry, b: Ledger.Books, id: Ledger.Key) {
    entry.id == id && id in b.records && entry.nonce == b.records[id].nonce && entry.digest == b.records[id].digest
  }

  /** The log names every intent on file once, with its nonce and digest, and no others. */
  ghost predicate LogIsComplete(w: World) {
    && (forall id :: id in w.books.records ==> exists g :: 0 <= g < |w.log| && Tells(w.log[g], w.books, id))
    && (forall g :: 0 <= g < |w.log| ==> Tells(w.log[g], w.books, w.log[g].id))
    && (forall g, h :: 0 <= g < h < |w.log| ==> w.log[g].id != w.log[h].id)
  }

  lemma FiledIsLogged(w: World, w': World, e: Entry)
    requires LogIsComplete(w) && w'.log == w.log + [e] && e.id !in w.books.records
    requires w'.books.records == w.books.records[e.id := Ledger.Record(e.nonce, e.digest, Ledger.Signed)]
    ensures LogIsComplete(w')
  {
    hide Tells;
    var n := |w.log|;
    assert w'.log[n] == e && forall g :: 0 <= g < n ==> w'.log[g] == w.log[g];
    forall g | 0 <= g <= n ensures Tells(w'.log[g], w'.books, w'.log[g].id) {
      if g < n { assert Tells(w.log[g], w.books, w.log[g].id); }
      TellsStill(w, w', e, w'.log[g], w'.log[g].id);
    }
    forall g | 0 <= g < n ensures w.log[g].id != e.id {
      TellsStill(w, w', e, w.log[g], w.log[g].id);
    }
    forall id | id in w'.books.records ensures exists g :: 0 <= g < |w'.log| && Tells(w'.log[g], w'.books, id) {
      if id == e.id {
        assert Tells(w'.log[n], w'.books, id);
      } else {
        var g :| 0 <= g < n && Tells(w.log[g], w.books, id);
        TellsStill(w, w', e, w.log[g], id);
        assert Tells(w'.log[g], w'.books, id);
      }
    }
  }

  lemma TellsStill(w: World, w': World, e: Entry, entry: Entry, id: Ledger.Key)
    requires e.id !in w.books.records
    requires w'.books.records == w.books.records[e.id := Ledger.Record(e.nonce, e.digest, Ledger.Signed)]
    ensures Tells(e, w'.books, e.id)
    ensures Tells(entry, w.books, id) ==> Tells(entry, w'.books, id) && id != e.id
  {
  }

  lemma StatusIsNotLogged(w: World, w': World)
    requires LogIsComplete(w) && w'.log == w.log && w'.books.records.Keys == w.books.records.Keys
    requires forall id :: id in w.books.records ==>
      w'.books.records[id].nonce == w.books.records[id].nonce && w'.books.records[id].digest == w.books.records[id].digest
    ensures LogIsComplete(w')
  {
    forall id | id in w'.books.records ensures exists g :: 0 <= g < |w'.log| && Tells(w'.log[g], w'.books, id) {
      var g :| 0 <= g < |w.log| && Tells(w.log[g], w.books, id);
      assert Tells(w'.log[g], w'.books, id);
    }
    forall g | 0 <= g < |w.log| ensures Tells(w'.log[g], w'.books, w'.log[g].id) {
      assert Tells(w.log[g], w.books, w.log[g].id);
    }
  }

  lemma NextKeepsLog(holders: seq<string>, w: World, e: Event)
    requires |w.insts| == |holders| && LogIsComplete(w)
    ensures LogIsComplete(Next(holders, w, e))
  {
    hide LogIsComplete, Ledger.AuthorizeBooks, Leader.Call;
    var w' := Next(holders, w, e);
    if e.Serve? && e.flight < |w.flights| {
      var r := w.flights[e.flight].req;
      var out := Ledger.AuthorizeBooks(w.books, r, e.wall).1;
      Ledger.AuthorizeMeaning(w.books, r, e.wall);
      if out.Ok? && !out.value.duplicate {
        FiledIsLogged(w, w', Entry(w.flights[e.flight].inst, r.Id(), r.fence, out.value.nonce, r.digest));
      } else {
        assert w' == w;
      }
    } else {
      StatusIsNotLogged(w, w');
    }
  }

  /** What the theorems below say of the log they say of every intent ever granted: in every run the
      log names each intent on file exactly once, with its nonce and digest. */
  lemma {:induction false} EveryGrantIsLogged(holders: seq<string>, events: seq<Event>)
    ensures LogIsComplete(Run(holders, events))
  {
    if events != [] {
      hide LogIsComplete, Next;
      EveryGrantIsLogged(holders, events[..|events| - 1]);
      NextKeepsLog(holders, Run(holders, events[..|events| - 1]), events[|events| - 1]);
    }
  }

  /** Only a leader takes a request in, under the epoch it believes in; and what is served is put
      before the ledger as it was taken in. */
  lemma ServedAsCaptured(holders: seq<string>, w: World, i: nat, r: Ledger.Request, f: nat, wall: int64)
    requires |w.insts| == |holders| && i < |holders|
    ensures var w' := Next(holders, w, Capture(i, r));
      && (!w.insts[i].belief.isLeader ==> w' == w)
      && (w.insts[i].belief.isLeader ==>
            && |w'.flights| == |w.flights| + 1 && w'.flights[|w.flights|].inst == i
            && w'.flights[|w.flights|].req == r.(fence := w.insts[i].belief.epoch))
    ensures f < |w.flights| ==>
      var served := Next(holders, w, Serve(f, wall));
      && served.books == Ledger.AuthorizeBooks(w.books, w.flights[f].req, wall).0
      && (served.log == w.log <==> served.books.records.Keys == w.books.records.Keys)
  {
    if f < |w.flights| {
      Ledger.AuthorizeMeaning(w.books, w.flights[f].req, wall);
      hide Ledger.AuthorizeBooks;
    }
  }

  ghost predicate Distinct(holders: seq<string>) {
    forall i, j :: 0 <= i < j < |holders| ==> holders[i] != holders[j]
  }

  /** Split-brain safety. In every run the fresh grants of a key carry non-decreasing fences and
      strictly increasing nonces; with unique holder ids, equal fences mean the same instance,
      whatever the keys; so once a newer epoch has had a grant on a key, no instance whose epoch
      is older ever gets another there. 2^63 steps are what it would take to wrap a counter. */
  lemma SplitBrainSafety(holders: seq<string>, events: seq<Event>, g: nat, h: nat)
    requires |events| < TWO63
    requires g < h < |Run(holders, events).log|
    ensures var log := Run(holders, events).log;
      && (log[g].id.keyID == log[h].id.keyID ==> log[g].fence <= log[h].fence && log[g].nonce < log[h].nonce)
      && (Distinct(holders) && log[g].fence == log[h].fence ==> log[g].inst == log[h].inst)
  {
    hide Run, InstanceOk, Ledger.Books.WriterOf;
    RunKeeps(holders, events);
    var w := Run(holders, events);
    assert Owns(holders, w.owners, w.log[g].inst, w.log[g].fence);
    assert Owns(holders, w.owners, w.log[h].inst, w.log[h].fence);
  }

  /** Two instances that both believe they lead hold different epochs, so at most one of them
      holds the newest; the other is the one the fence shuts out. */
  lemma LeadersHoldDifferentEpochs(holders: seq<string>, events: seq<Event>, i: nat, j: nat)
    requires |events| < TWO63 && Distinct(holders) && i < j < |holders|
    requires Run(holders, events).insts[i].belief.isLeader && Run(holders, events).insts[j].belief.isLeader
    ensures Run(holders, events).insts[i].belief.epoch != Run(holders, events).insts[j].belief.epoch
  {
    RunKeeps(holders, events);
    var w := Run(holders, events);
    assert InstanceOk(holders, w.owners, i, w.insts[i]) && InstanceOk(holders, w.owners, j, w.insts[j]);
  }

  /** Once a key has seen a fence, a request captured under an older epoch is refused for good,
      unless it replays an intent already on file. */
  lemma StaleFlightIsFenced(holders: seq<string>, events: seq<Event>, g: nat, f: nat, wall: int64)
    requires |events| < TWO63
    requires g < |Run(holders, events).log| && f < |Run(holders, events).flights|
    requires var w := Run(holders, events);
      w.flights[f].req.keyID == w.log[g].id.keyID && w.flights[f].req.fence < w.log[g].fence
    ensures var w := Run(holders, events);
      var out := Ledger.AuthorizeBooks(w.books, w.flights[f].req, wall).1;
      Next(holders, w, Serve(f, wall)) == w && (out.Ok? ==> out.value.duplicate)
  {
    RunKeeps(holders, events);
    var w := Run(holders, events);
    var req := w.flights[f].req;
    SingleWriter.DecideAccepts(w.books.WriterOf(req.keyID), req.ForWriter());
    Ledger.AuthorizeMeaning(w.books, req, wall);
  }

  // ---- the leader step is one burst of these events ----

  /** The store call of an instance, and its answer. */
  function Burst(holders: seq<string>, w: World, i: nat, nowMs: int64, ttlMs: int64, fault: Leader.Fault): World
    requires i < |w.insts| == |holders|
  {
    OnReceive(OnCall(holders, w, i, nowMs, ttlMs, fault), i)
  }

  /** With nothing in between, one renewal or acquisition, and the acquisition that a lost lease
      calls for, do to belief and row exactly what the leader's own step does. */
  lemma StepIsBurst(holders: seq<string>, w: World, i: nat, ttl: int64, weather: Leader.Weather)
    requires i < |w.insts| == |holders| && w.insts[i].phase.Idle?
    ensures var b := w.insts[i].belief;
      var w1 := if b.isLeader then Burst(holders, w, i, weather.renewAt, ttl, weather.renewFault)
                else Burst(holders, w, i, weather.acquireAt, ttl, weather.acquireFault);
      var w2 := if w1.insts[i].phase.MustAcquire? then Burst(holders, w1, i, weather.acquireAt, ttl, weather.acquireFault)
                else w1;
      && (w2.insts[i].belief, w2.row) == Leader.StepSpec(b, w.row, holders[i], ttl, weather)
      && w2.insts[i].phase.Idle? && w2.books == w.books && w2.flights == w.flights
      && forall j :: 0 <= j < |holders| && j != i ==> w2.insts[j] == w.insts[j]
  {
    hide Lease.Decide;
  }

  /** A release and the quitting after it do what the leader's shutdown does. */
  lemma StopIsBurst(holders: seq<string>, w: World, i: nat, nowMs: int64, fault: Leader.Fault)
    requires i < |w.insts| == |holders| && w.insts[i].phase.Idle?
    ensures var w' := OnQuit(OnRelease(holders, w, i, nowMs, fault), i);
      && w'.insts[i] == Instance(Leader.NOT_LEADER, Stopped)
      && w'.row == Leader.Call(w.row, Lease.Req(Lease.OpRelease, holders[i], nowMs, 0), fault).0
      && OnRelease(holders, w, i, nowMs, fault).insts[i].belief == w.insts[i].belief
  {
    hide Lease.Decide;
  }

  /** Two instances, one holder id, and an event list that makes both lead under epoch 2: the
      deposed one renews its successor's lease. */
  lemma SharedHolderBothLead(hs: seq<string>) returns (events: seq<Event>)
    requires hs == ["x", "x"]
    ensures |events| == 6
    ensures var lead := Instance(Leader.Belief(2, true), Idle);
      Run(hs, events) == World(Lease.Row("x", 2, 31), [lead, lead], [], Ledger.EMPTY, [], ["x", "x"])
  {
    var out := Instance(Leader.NOT_LEADER, Idle);
    var lead1, lead2 := Instance(Leader.Belief(1, true), Idle), Instance(Leader.Belief(2, true), Idle);
    var w0 := World(Lease.ZERO_ROW, [out, out], [], Ledger.EMPTY, [], []);
    var w1 := World(Lease.Row("x", 1, 11), [lead1, out], [], Ledger.EMPTY, [], ["x"]);
    var w2 := World(Lease.Row("x", 2, 30), [lead1, lead2], [], Ledger.EMPTY, [], ["x", "x"]);
    var w3 := World(Lease.Row("x", 2, 31), [lead2, lead2], [], Ledger.EMPTY, [], ["x", "x"]);
    assert Run(hs, []) == w0;
    assert Next(hs, Next(hs, w0, Call(0, 1, 10, Leader.NoFault)), Receive(0)) == w1;
    assert Next(hs, Next(hs, w1, Call(1, 20, 10, Leader.NoFault)), Receive(1)) == w2;
    assert Next(hs, Next(hs, w2, Call(0, 21, 10, Leader.NoFault)), Receive(0)) == w3;
    events := Extend(hs, [], Call(0, 1, 10, Leader.NoFault), Receive(0));
    events := Extend(hs, events, Call(1, 20, 10, Leader.NoFault), Receive(1));
    events := Extend(hs, events, Call(0, 21, 10, Leader.NoFault), Receive(0));
  }

  lemma Extend(hs: seq<string>, events: seq<Event>, a: Event, b: Event) returns (longer: seq<Event>)
    ensures longer == events + [a, b] && Run(hs, longer) == Next(hs, Next(hs, Run(hs, events), a), b)
  {
    longer := events + [a, b];
    assert longer[..|longer| - 1] == events + [a];
    assert (events + [a])[..|events|] == events;
  }

  predicate Uncapped(r: Ledger.Request) {
    && r.cloid != "" && 0 < r.nowMs
    && r.notional.IsZero() && r.dailyCap.IsZero() && r.addressDailyCap.IsZero()
  }

  /** Serving a new uncapped intent under the newest fence logs a grant for its instance. */
  lemma ServeGrants(hs: seq<string>, w: World, f: nat)
    requires |w.insts| == |hs| && f < |w.flights| && Uncapped(w.flights[f].req)
    requires w.flights[f].req.Id() !in w.books.records
    requires w.books.WriterOf(w.flights[f].req.keyID).fence <= w.flights[f].req.fence
    ensures var Flight(inst, r) := w.flights[f];
      var w' := Next(hs, w, Serve(f, 0));
      && |w'.log| == |w.log| + 1 && w.log <= w'.log
      && w'.log[|w.log|].inst == inst && w'.log[|w.log|].id == r.Id() && w'.log[|w.log|].fence == r.fence
      && w'.flights == w.flights && |w'.insts| == |hs|
      && w'.books.records.Keys == w.books.records.Keys + {r.Id()}
      && w'.books.WriterOf(r.keyID).fence == r.fence
  {
    Ledger.UncappedIntentIsGranted(w.books, w.flights[f].req, 0);
  }

  /** Two leaders with one epoch each sign an intent of their own on the same key. */
  lemma BothAreGranted(hs: seq<string>, w: World, r0: Ledger.Request, r1: Ledger.Request)
    requires |hs| == |w.insts| == 2 && w.insts[0].belief == w.insts[1].belief == Leader.Belief(2, true)
    requires w.flights == [] && w.books == Ledger.EMPTY && w.log == []
    requires Uncapped(r0) && Uncapped(r1) && r0.keyID == r1.keyID && r0.cloid != r1.cloid
    ensures var captured := Next(hs, Next(hs, w, Capture(0, r0)), Capture(1, r1));
      var log := Next(hs, Next(hs, captured, Serve(0, 0)), Serve(1, 0)).log;
      && |log| == 2 && log[0].id.keyID == log[1].id.keyID
      && log[0].fence == log[1].fence && log[0].inst != log[1].inst
  {
    var captured := Next(hs, Next(hs, w, Capture(0, r0)), Capture(1, r1));
    assert captured == w.(flights := [Flight(0, r0.(fence := 2)), Flight(1, r1.(fence := 2))]);
    ServeGrants(hs, captured, 0);
    ServeGrants(hs, Next(hs, captured, Serve(0, 0)), 1);
  }

  /** The holder ids must be unique: instances sharing one can both be granted under one epoch. */
  lemma SharedHolderSplitsBrain(hs: seq<string>) returns (events: seq<Event>)
    requires hs == ["x", "x"]
    ensures |events| < TWO63
    ensures var log := Run(hs, events).log;
      && |log| == 2 && log[0].id.keyID == log[1].id.keyID
      && log[0].fence == log[1].fence && log[0].inst != log[1].inst
  {
    events := SharedHolderBothLead(hs);
    var r0 := Ledger.Request("k", "a", [], 0, Fin(0.0), Fin(0.0), "", Fin(0.0), 5);
    BothAreGranted(hs, Run(hs, events), r0, r0.(cloid := "b"));
    events := Extend(hs, events, Capture(0, r0), Capture(1, r0.(cloid := "b")));
    events := Extend(hs, events, Serve(0, 0), Serve(1, 0));
  }
}
