/** Whole runs of the signing endpoint under a fixed policy store: budgets hold end to end, and
    each key and cloid is signed for one intent only. */
module Serving {
  import opened Numbers
  import opened Wrappers
  import opened Signer
  import Actions
  import Address
  import Budgets
  import Consent
  import ExactlyOnce
  import L1Hash
  import Ledger
  import Msgpack
  import Policy
  import RateLimit

  datatype Event = Sign(req: Request, m: Moment) | Report(id: Ledger.Key, status: Ledger.Status, wall: int64)

  /** The action and network that a request put before the ledger asked to have signed. */
  datatype Asked = Asked(action: Actions.Action, testnet: bool)

  /** A signature given out, and the ledger step it rests on. */
  datatype Answer = Answer(step: nat, id: Ledger.Key, asked: Asked, nonce: uint64)

  /** History beside the desk: what reached the ledger, what each step was asked for (nothing, for a
      status report), and what was signed. */
  datatype World = World(desk: Desk, steps: seq<ExactlyOnce.Step>, asked: seq<Option<Asked>>, answers: seq<Answer>)

  const IP_IDLE_MS: int64 := 30 * 60 * 1000
  const IP_MAX_BUCKETS: int64 := 10_000

  function Init(t: Policy.Table): World {
    World(Desk(t, Ledger.EMPTY, RateLimit.New(0, 0), RateLimit.New(IP_IDLE_MS, IP_MAX_BUCKETS)), [], [], [])
  }

  ghost function Next(f: Foreign, w: World, e: Event): World {
    match e
    case Sign(req, m) =>
      var (desk, response) := Handle(f, w.desk, req, m);
      var sub := Submitted(f, w.desk, req, m);
      World(
        desk,
        if sub.Some? then w.steps + [ExactlyOnce.Authorize(sub.value, m.wall)] else w.steps,
        if sub.Some? then w.asked + [Some(Asked(ActionOf(req.kind, req.payload).value, req.testnet))] else w.asked,
        if response.Signed?
        then w.answers + [Answer(|w.steps|, Ledger.Key(req.keyID, req.cloid), Asked(response.action, response.testnet), response.nonce)]
        else w.answers)
    case Report(id, status, wall) =>
      w.(desk := w.desk.(books := Ledger.ReconcileBooks(w.desk.books, id, status, wall).0),
         steps := w.steps + [ExactlyOnce.Reconcile(id, status, wall)],
         asked := w.asked + [None])
  }

  ghost function Run(f: Foreign, t: Policy.Table, events: seq<Event>): World {
    if events == [] then Init(t) else Next(f, Run(f, t, events[..|events| - 1]), events[|events| - 1])
  }

  /** What is hashed for the ledger's digest. */
  function IntentOf(a: Asked): seq<byte> { L1Hash.IntentPreimage(Actions.Build(a.action), a.testnet) }

  /** The step was asked for just this: its digest is over it, and its notional is what the orders in
      the action come to. */
  ghost predicate AskedFor(f: Foreign, s: ExactlyOnce.Step, asked: Option<Asked>) {
    if s.Authorize? then
      asked.Some? && s.req.digest == f.sha(IntentOf(asked.value)) && s.req.notional == Worth(f, asked.value.action)
    else asked.None?
  }

  /** What the policy store leaves of a request that reaches the ledger. */
  ghost predicate FromPolicy(t: Policy.Table, r: Ledger.Request) {
    var cfg, owner := Policy.ConfigOf(t, r.keyID), Owner(t, r.keyID);
    && r.dailyCap == cfg.dailyMax
    && (if r.notional.IsZero() then r.addressDailyCap == Fin(0.0)
        else
          && r.addressDailyCap == cfg.addressDailyMax
          && (owner.None? ==> r.addressDailyCap.IsZero())
          && (owner.Some? ==> r.addressSpendKey == owner.value && !Policy.OwnerConflict(t, Policy.AddressCap, owner.value)))
  }

  /** The answer rests on a successful step that was asked for what was signed. */
  ghost predicate Rests(steps: seq<ExactlyOnce.Step>, asked: seq<Option<Asked>>, a: Answer)
    requires |asked| == |steps|
  {
    && a.step < |steps| && ExactlyOnce.Succeeds(steps, a.step) && asked[a.step] == Some(a.asked)
    && steps[a.step].req.Id() == a.id && ExactlyOnce.GrantAt(steps, a.step).nonce == a.nonce
  }

  ghost predicate Linked(f: Foreign, t: Policy.Table, w: World) {
    && w.desk.policies == t && w.desk.books == ExactlyOnce.Run(w.steps) && |w.asked| == |w.steps|
    && (forall i :: 0 <= i < |w.steps| && w.steps[i].Authorize? ==> FromPolicy(t, w.steps[i].req))
    && (forall i :: 0 <= i < |w.steps| ==> AskedFor(f, w.steps[i], w.asked[i]))
    && (forall i :: 0 <= i < |w.answers| ==> Rests(w.steps, w.asked, w.answers[i]))
  }

  lemma SubmittedFollowsPolicy(f: Foreign, d: Desk, req: Request, m: Moment)
    requires Submitted(f, d, req, m).Some?
    ensures FromPolicy(d.policies, Submitted(f, d, req, m).value)
    ensures ActionOf(req.kind, req.payload).Some?
    ensures Submitted(f, d, req, m).value.Id() == Ledger.Key(req.keyID, req.cloid)
  {
    hide Policy.OwnerConflict, Policy.KeyConflict, RateLimit.Allow, Address.Normalize, IntentFor, Policy.Evaluate, Admitted;
    hide L1Hash.IntentPreimage, Msgpack.Supported, Actions.Build, ActionOf, SeenIn;
  }

  /** What is put before the ledger is charged for what is to be signed. */
  lemma SubmittedIsAsked(f: Foreign, d: Desk, req: Request, m: Moment)
    requires Submitted(f, d, req, m).Some? && ActionOf(req.kind, req.payload).Some?
    ensures AskedFor(f, ExactlyOnce.Authorize(Submitted(f, d, req, m).value, m.wall),
                     Some(Asked(ActionOf(req.kind, req.payload).value, req.testnet)))
  {
    hide Policy.OwnerConflict, Policy.KeyConflict, Admitted, IntentFor, SeenIn, Worth, ActionOf, Address.Normalize;
    hide L1Hash.IntentPreimage, Msgpack.Supported, Actions.Build;
    NotionalIsWorth(f, req);
    Policy.AllowedMeans(IntentFor(f, req.kind, SeenIn(req.payload)), Policy.ConfigOf(d.policies, req.keyID));
  }

  /** The ledger moves exactly as if it had been handed what was submitted. */
  lemma HandleMeaning(f: Foreign, d: Desk, req: Request, m: Moment)
    ensures var (d', response) := Handle(f, d, req, m);
      var sub := Submitted(f, d, req, m);
      && d'.policies == d.policies
      && (sub.None? ==> d'.books == d.books && response.Refused?)
      && (sub.Some? ==>
            var (books, out) := Ledger.AuthorizeBooks(d.books, sub.value, m.wall);
            var action := ActionOf(req.kind, req.payload);
            && d'.books == books && action.Some?
            && (response.Signed? <==> out.Ok? && m.signs)
            && (response.Signed? ==> response == Signed(action.value, out.value.nonce, req.testnet, out.value.duplicate)))
  {
    hide Policy.OwnerConflict, Policy.KeyConflict, RateLimit.Allow, Address.Normalize, IntentFor, Policy.Evaluate, Msgpack.Supported;
    hide Ledger.AuthorizeBooks, L1Hash.IntentPreimage, Actions.Build, ActionOf, SeenIn;
  }

  /** A refused request moves nothing in the ledger, unless only the signature itself failed. */
  lemma RefusalMovesNothing(f: Foreign, d: Desk, req: Request, m: Moment)
    requires Handle(f, d, req, m).1.Refused? && m.signs
    ensures Handle(f, d, req, m).0.books == d.books
  {
    hide Handle, Submitted, ActionOf, Ledger.AuthorizeBooks;
    HandleMeaning(f, d, req, m);
    var sub := Submitted(f, d, req, m);
    if sub.Some? {
      Ledger.AuthorizeMeaning(d.books, sub.value, m.wall);
    }
  }

  lemma StepsExtend(steps: seq<ExactlyOnce.Step>, s: ExactlyOnce.Step)
    ensures var more := steps + [s];
      && ExactlyOnce.Run(more) == ExactlyOnce.Next(ExactlyOnce.Run(steps), s).0
      && ExactlyOnce.ReplyAt(more, |steps|) == ExactlyOnce.Next(ExactlyOnce.Run(steps), s).1
      && forall i: nat :: i < |steps| ==> ExactlyOnce.ReplyAt(more, i) == ExactlyOnce.ReplyAt(steps, i)
  {
    hide ExactlyOnce.Next;
    var more := steps + [s];
    assert more[..|steps|] == steps && more[..|more| - 1] == steps;
    forall i: nat | i < |steps| ensures ExactlyOnce.ReplyAt(more, i) == ExactlyOnce.ReplyAt(steps, i) {
      assert more[..i] == steps[..i];
    }
  }

  lemma AnswersStay(steps: seq<ExactlyOnce.Step>, asked: seq<Option<Asked>>, s: ExactlyOnce.Step, x: Option<Asked>, a: Answer)
    requires |asked| == |steps| && Rests(steps, asked, a)
    ensures Rests(steps + [s], asked + [x], a)
  {
    hide ExactlyOnce.ReplyAt;
    StepsExtend(steps, s);
  }

  /** One more step before the ledger, with what it was asked for. */
  lemma StepLinks(f: Foreign, t: Policy.Table, w: World, desk: Desk, s: ExactlyOnce.Step, x: Option<Asked>)
    requires Linked(f, t, w) && AskedFor(f, s, x) && (s.Authorize? ==> FromPolicy(t, s.req))
    requires desk.policies == t && desk.books == ExactlyOnce.Next(ExactlyOnce.Run(w.steps), s).0
    ensures Linked(f, t, World(desk, w.steps + [s], w.asked + [x], w.answers))
  {
    hide AskedFor, FromPolicy, Rests, ExactlyOnce.Run, ExactlyOnce.Next;
    StepsExtend(w.steps, s);
    forall i | 0 <= i < |w.answers| ensures Rests(w.steps + [s], w.asked + [x], w.answers[i]) {
      AnswersStay(w.steps, w.asked, s, x, w.answers[i]);
    }
  }

  lemma AnswerLinks(f: Foreign, t: Policy.Table, w: World, a: Answer)
    requires Linked(f, t, w) && Rests(w.steps, w.asked, a)
    ensures Linked(f, t, w.(answers := w.answers + [a]))
  {
    hide AskedFor, FromPolicy, Rests, ExactlyOnce.Run;
  }

  /** The answer just given rests on the step just taken. */
  lemma LastAnswerRests(w: World, s: ExactlyOnce.Step, x: Asked, nonce: uint64)
    requires |w.asked| == |w.steps| && s.Authorize?
    requires var out := ExactlyOnce.Next(ExactlyOnce.Run(w.steps), s).1.grant; out.Ok? && out.value.nonce == nonce
    ensures Rests(w.steps + [s], w.asked + [Some(x)], Answer(|w.steps|, s.req.Id(), x, nonce))
  {
    hide ExactlyOnce.Run, ExactlyOnce.Next;
    StepsExtend(w.steps, s);
  }

  lemma SignKeepsLinks(f: Foreign, t: Policy.Table, w: World, req: Request, m: Moment)
    requires Linked(f, t, w)
    ensures Linked(f, t, Next(f, w, Sign(req, m)))
  {
    hide Handle, Submitted, FromPolicy, AskedFor, Rests, ExactlyOnce.Run, Ledger.AuthorizeBooks, ActionOf;
    HandleMeaning(f, w.desk, req, m);
    var (desk, response) := Handle(f, w.desk, req, m);
    var sub := Submitted(f, w.desk, req, m);
    if sub.Some? {
      SubmittedFollowsPolicy(f, w.desk, req, m);
      SubmittedIsAsked(f, w.desk, req, m);
      var s, x := ExactlyOnce.Authorize(sub.value, m.wall), Asked(ActionOf(req.kind, req.payload).value, req.testnet);
      StepLinks(f, t, w, desk, s, Some(x));
      if response.Signed? {
        LastAnswerRests(w, s, x, response.nonce);
        AnswerLinks(f, t, World(desk, w.steps + [s], w.asked + [Some(x)], w.answers), Answer(|w.steps|, s.req.Id(), x, response.nonce));
      }
    }
  }

  lemma ReportKeepsLinks(f: Foreign, t: Policy.Table, w: World, id: Ledger.Key, status: Ledger.Status, wall: int64)
    requires Linked(f, t, w)
    ensures Linked(f, t, Next(f, w, Report(id, status, wall)))
  {
    hide FromPolicy, Rests, ExactlyOnce.Run, Ledger.ReconcileBooks;
    var s := ExactlyOnce.Reconcile(id, status, wall);
    StepLinks(f, t, w, Next(f, w, Report(id, status, wall)).desk, s, None);
  }

  lemma {:induction false} RunIsLinked(f: Foreign, t: Policy.Table, events: seq<Event>)
    ensures Linked(f, t, Run(f, t, events))
  {
    if events != [] {
      var before, e := events[..|events| - 1], events[|events| - 1];
      hide Linked, Next;
      RunIsLinked(f, t, before);
      match e
      case Sign(req, m) => SignKeepsLinks(f, t, Run(f, t, before), req, m);
      case Report(id, status, wall) => ReportKeepsLinks(f, t, Run(f, t, before), id, status, wall);
    }
  }

  // ---- limiters ----

  /** The limiter by owner and address forgets after half an hour and holds ten thousand buckets at
      most; the one by key does neither. */
  ghost predicate Bounded(d: Desk) {
    && d.ipLimits.maxIdleMs == 1_800_000 && d.ipLimits.maxBuckets == 10_000 && |d.ipLimits.buckets| <= 10_000
    && d.keyLimits.maxIdleMs == 0 && d.keyLimits.maxBuckets == 0
  }

  lemma {:induction false} LimitersStayBounded(f: Foreign, t: Policy.Table, events: seq<Event>)
    ensures Bounded(Run(f, t, events).desk)
  {
    if events != [] {
      var before, e := events[..|events| - 1], events[|events| - 1];
      LimitersStayBounded(f, t, before);
      StaysBounded(f, Run(f, t, before), e);
      hide Next;
    }
  }

  lemma StaysBounded(f: Foreign, w: World, e: Event)
    requires Bounded(w.desk)
    ensures Bounded(Next(f, w, e).desk)
  {
    hide Handle, Submitted, RateLimit.Allow, Consent.AsksIPLimiter, Consent.IPOpen, Consent.IPCall, Consent.KeyCall, ActionOf;
    if e.Sign? {
      var d := w.desk;
      Consent.LimitersKeepTheirToll(f, d, e.req, e.m);
      RateLimit.SettingsKept(d.keyLimits, Consent.KeyCall(d, e.req, e.m));
      if Consent.AsksIPLimiter(d, e.req) {
        AsksMeans(d, e.req);
        RateLimit.SettingsKept(d.ipLimits, Consent.IPCall(d, e.req, e.m));
        RateLimit.CapKept(d.ipLimits, Consent.IPCall(d, e.req, e.m));
      }
    }
  }

  lemma AsksMeans(d: Desk, req: Request)
    requires Consent.AsksIPLimiter(d, req)
    ensures req.keyID in d.policies && req.ip.Some? && Address.Normalize(d.policies[req.keyID].ownerAddress).Some?
  {
  }

  // ---- budgets ----

  /** Whose grants are summed up: one key's, or those of all keys of an owner address. */
  datatype Whose = OfKey(keyID: string) | OfAddress(address: string)

  predicate Theirs(t: Policy.Table, whose: Whose, s: ExactlyOnce.Step) {
    s.Authorize?
    && match whose
       case OfKey(k) => s.req.keyID == k
       case OfAddress(a) => Owner(t, s.req.keyID) == Some(a)
  }

  /** What the orders come to for which signatures were freshly granted on a UTC day. */
  function Granted(f: Foreign, t: Policy.Table, steps: seq<ExactlyOnce.Step>, asked: seq<Option<Asked>>, whose: Whose, day: int64): real
    requires |asked| == |steps|
  {
    if steps == [] then 0.0
    else
      var n := |steps| - 1;
      Granted(f, t, steps[..n], asked[..n], whose, day)
      + if Theirs(t, whose, steps[n]) && ExactlyOnce.Fresh(steps, n) && DayOf(steps[n].req.nowMs) == day && asked[n].Some?
        then Budgets.Amount(Worth(f, asked[n].value.action)) else 0.0
  }

  ghost predicate AllAsked(f: Foreign, steps: seq<ExactlyOnce.Step>, asked: seq<Option<Asked>>) {
    |asked| == |steps| && forall i :: 0 <= i < |steps| ==> AskedFor(f, steps[i], asked[i])
  }

  /** The budget of a key counts the orders its signatures are for. */
  lemma {:induction false} KeyGranted(f: Foreign, t: Policy.Table, steps: seq<ExactlyOnce.Step>, asked: seq<Option<Asked>>, k: string, day: int64)
    requires AllAsked(f, steps, asked)
    ensures Granted(f, t, steps, asked, OfKey(k), day) == Budgets.Total(steps, Budgets.OfKey(k), day)
  {
    if steps != [] {
      hide Worth, IntentOf, ExactlyOnce.Fresh, DayOf;
      var n := |steps| - 1;
      KeyGranted(f, t, steps[..n], asked[..n], k, day);
      assert AskedFor(f, steps[n], asked[n]);
    }
  }

  /** End-to-end budget of a key: in every run under a fixed store, the orders for which it was freshly
      granted signatures on one UTC day come to at most its positive cap, if its days do not go backwards. */
  lemma KeyBudget(f: Foreign, t: Policy.Table, events: seq<Event>, k: string, day: int64)
    requires Policy.ConfigOf(t, k).dailyMax.Positive()
    requires Budgets.DaysForward(Run(f, t, events).steps, Budgets.OfKey(k))
    ensures var w := Run(f, t, events);
      |w.asked| == |w.steps| && !Policy.ConfigOf(t, k).dailyMax.Lt(Fin(Granted(f, t, w.steps, w.asked, OfKey(k), day)))
  {
    hide Run, ExactlyOnce.Run, Policy.OwnerConflict, Address.Normalize, Budgets.DaysForward, Budgets.Total, Granted;
    hide AskedFor, Rests;
    RunIsLinked(f, t, events);
    var w := Run(f, t, events);
    assert Budgets.CappedAt(w.steps, Budgets.OfKey(k), Policy.ConfigOf(t, k).dailyMax);
    Budgets.DailyBudget(w.steps, Budgets.OfKey(k), Policy.ConfigOf(t, k).dailyMax, day);
    KeyGranted(f, t, w.steps, w.asked, k, day);
  }

  /** Keys of one owner that get notional through share one cap. */
  lemma SameCap(t: Policy.Table, r: Ledger.Request, j: string, a: string)
    requires FromPolicy(t, r) && Owner(t, j) == Some(a) && Owner(t, r.keyID) == Some(a) && !r.notional.IsZero()
    requires Policy.ConfigOf(t, j).addressDailyMax.Positive()
    ensures r.addressSpendKey == a && r.addressDailyCap == Policy.ConfigOf(t, j).addressDailyMax
  {
    UnsetHasNoOwner();
    Address.NormalizeIdempotent(Policy.ConfigOf(t, j).ownerAddress);
    Address.NormalizeIdempotent(Policy.ConfigOf(t, r.keyID).ownerAddress);
    hide Address.Normalize, Address.OwnerKey;
    assert Policy.Owned(t, a, j) && Policy.Owned(t, a, r.keyID);
    if j != r.keyID {
      assert !Policy.Differ(Policy.AddressCap, t[j], t[r.keyID]);
    }
  }

  lemma UnsetHasNoOwner()
    ensures Address.Normalize("").None?
  {
  }

  lemma SpendKeyIsOwner(t: Policy.Table, r: Ledger.Request, a: string)
    requires FromPolicy(t, r) && r.addressSpendKey == a && r.addressDailyCap.Positive()
    ensures Owner(t, r.keyID) == Some(a) && !r.notional.IsZero()
  {
    hide Policy.OwnerConflict, Address.Normalize;
  }

  /** What the shared budget counts is the orders the owner's keys were granted. */
  lemma {:induction false} OwnerGranted(f: Foreign, t: Policy.Table, steps: seq<ExactlyOnce.Step>, asked: seq<Option<Asked>>,
                                        j: string, a: string, day: int64)
    requires AllAsked(f, steps, asked)
    requires forall i :: 0 <= i < |steps| && steps[i].Authorize? ==> FromPolicy(t, steps[i].req)
    requires Owner(t, j) == Some(a) && Policy.ConfigOf(t, j).addressDailyMax.Positive()
    ensures Granted(f, t, steps, asked, OfAddress(a), day) == Budgets.Total(steps, Budgets.OfOwner(a), day)
  {
    if steps != [] {
      hide FromPolicy, Owner, ExactlyOnce.Fresh, Policy.ConfigOf, DayOf, Worth, IntentOf;
      var n := |steps| - 1;
      OwnerGranted(f, t, steps[..n], asked[..n], j, a, day);
      assert AskedFor(f, steps[n], asked[n]);
      if steps[n].Authorize? {
        CoveredOrFree(t, steps[n].req, j, a);
      }
    }
  }

  lemma CoveredOrFree(t: Policy.Table, r: Ledger.Request, j: string, a: string)
    requires FromPolicy(t, r) && Owner(t, j) == Some(a) && Policy.ConfigOf(t, j).addressDailyMax.Positive()
    ensures Budgets.Covers(Budgets.OfOwner(a), r) ==> Owner(t, r.keyID) == Some(a)
    ensures Owner(t, r.keyID) == Some(a) && !Budgets.Covers(Budgets.OfOwner(a), r) ==> Budgets.Amount(r.notional) == 0.0
    ensures Budgets.Covers(Budgets.OfOwner(a), r) ==> r.addressDailyCap == Policy.ConfigOf(t, j).addressDailyMax
  {
    hide FromPolicy, Owner, Policy.ConfigOf;
    if Budgets.Covers(Budgets.OfOwner(a), r) {
      SpendKeyIsOwner(t, r, a);
    }
    if Owner(t, r.keyID) == Some(a) && !r.notional.IsZero() {
      SameCap(t, r, j, a);
    }
  }

  /** End-to-end budget of an owner address: the orders for which all its keys together were freshly
      granted signatures on one UTC day come to at most the positive cap any of them carries, if the
      days do not go backwards. */
  lemma OwnerBudget(f: Foreign, t: Policy.Table, events: seq<Event>, j: string, a: string, day: int64)
    requires Owner(t, j) == Some(a) && Policy.ConfigOf(t, j).addressDailyMax.Positive()
    requires Budgets.DaysForward(Run(f, t, events).steps, Budgets.OfOwner(a))
    ensures var w := Run(f, t, events);
      |w.asked| == |w.steps|
      && !Policy.ConfigOf(t, j).addressDailyMax.Lt(Fin(Granted(f, t, w.steps, w.asked, OfAddress(a), day)))
  {
    hide Run, ExactlyOnce.Run, FromPolicy, Owner, Policy.ConfigOf, Budgets.DaysForward, Budgets.Total, Granted, AskedFor, Rests;
    RunIsLinked(f, t, events);
    var w, sc := Run(f, t, events), Budgets.OfOwner(a);
    var cap := Policy.ConfigOf(t, j).addressDailyMax;
    forall i | 0 <= i < |w.steps| && Budgets.Covered(w.steps[i], sc) ensures Budgets.CapFor(sc, w.steps[i].req) == cap {
      CoveredOrFree(t, w.steps[i].req, j, a);
    }
    Budgets.DailyBudget(w.steps, sc, cap, day);
    OwnerGranted(f, t, w.steps, w.asked, j, a, day);
  }

  /** While an owner's keys disagree about the shared cap, nothing worth anything gets through. */
  lemma ConflictBlocksNotional(f: Foreign, d: Desk, req: Request, m: Moment, a: string)
    requires Owner(d.policies, req.keyID) == Some(a) && Policy.OwnerConflict(d.policies, Policy.AddressCap, a)
    requires !NotionalOf(f, req).IsZero()
    ensures Handle(f, d, req, m).1.Refused? && Handle(f, d, req, m).0.books == d.books
  {
    hide IPGate, IntentFor, RateLimit.Allow, Owner, Policy.OwnerConflict, SeenIn, ActionOf;
  }

  // ---- signatures ----

  lemma AnswerMeans(f: Foreign, t: Policy.Table, events: seq<Event>, x: nat)
    requires x < |Run(f, t, events).answers|
    ensures var w := Run(f, t, events);
      var a := w.answers[x];
      && |w.asked| == |w.steps| && Rests(w.steps, w.asked, a)
      && ExactlyOnce.Commits(f.sha, w.steps[a.step], Actions.Build(a.asked.action), a.asked.testnet)
  {
    hide Run, ExactlyOnce.Run, ExactlyOnce.ReplyAt, FromPolicy, Worth, L1Hash.IntentPreimage, Actions.Build;
    RunIsLinked(f, t, events);
    var w := Run(f, t, events);
    assert Rests(w.steps, w.asked, w.answers[x]);
    assert AskedFor(f, w.steps[w.answers[x].step], w.asked[w.answers[x].step]);
  }

  /** What is signed for an answer. */
  function DigestOf(keccak: L1Hash.Hash, a: Answer): seq<byte> {
    L1Hash.SignedDigest(keccak, Actions.Build(a.asked.action), a.nonce, a.asked.testnet)
  }

  /** One intent per key and cloid: any two signatures given out for the same pair are over the same
      action bytes, nonce and network, so over the same digest; or two intents collide under SHA-256. */
  lemma OneSignedIntent(keccak: L1Hash.Hash, f: Foreign, t: Policy.Table, events: seq<Event>, x: nat, y: nat)
    requires x < |Run(f, t, events).answers| && y < |Run(f, t, events).answers|
    requires Run(f, t, events).answers[x].id == Run(f, t, events).answers[y].id
    ensures var a, b := Run(f, t, events).answers[x], Run(f, t, events).answers[y];
      || L1Hash.Collide(f.sha, IntentOf(a.asked), IntentOf(b.asked))
      || (&& Msgpack.Enc(Actions.Build(a.asked.action)) == Msgpack.Enc(Actions.Build(b.asked.action))
          && a.asked.testnet == b.asked.testnet && a.nonce == b.nonce && DigestOf(keccak, a) == DigestOf(keccak, b))
  {
    hide Run, ExactlyOnce.Run, ExactlyOnce.ReplyAt, Msgpack.Enc, L1Hash.SignedDigest, L1Hash.IntentPreimage, Actions.Build;
    AnswerMeans(f, t, events, x);
    AnswerMeans(f, t, events, y);
    var w := Run(f, t, events);
    var a, b := w.answers[x], w.answers[y];
    var u, v := Actions.Build(a.asked.action), Actions.Build(b.asked.action);
    if a.step < b.step {
      ExactlyOnce.OneIntentPerCloid(keccak, f.sha, w.steps, a.step, b.step, u, v, a.asked.testnet, b.asked.testnet);
    } else if b.step < a.step {
      ExactlyOnce.OneIntentPerCloid(keccak, f.sha, w.steps, b.step, a.step, v, u, b.asked.testnet, a.asked.testnet);
    }
  }

  lemma OneFreshGrant(steps: seq<ExactlyOnce.Step>, i: nat, j: nat)
    requires i < |steps| && j < |steps| && ExactlyOnce.Fresh(steps, i) && ExactlyOnce.Fresh(steps, j)
    requires steps[i].req.Id() == steps[j].req.Id()
    ensures i == j
  {
    hide ExactlyOnce.Run, ExactlyOnce.ReplyAt;
    if i < j { ExactlyOnce.LaterAnswersRepeat(steps, i, j); }
    if j < i { ExactlyOnce.LaterAnswersRepeat(steps, j, i); }
  }

  /** Every signature has been charged for, once: the one fresh grant of its key and cloid, with its nonce, was
      charged what the orders in the signed action come to; or two intents collide under SHA-256. */
  lemma SignatureIsCharged(f: Foreign, t: Policy.Table, events: seq<Event>, x: nat) returns (i: nat)
    requires x < |Run(f, t, events).answers|
    ensures var w := Run(f, t, events);
      var a := w.answers[x];
      && i <= a.step < |w.steps| == |w.asked| && ExactlyOnce.Fresh(w.steps, i) && w.asked[i].Some?
      && w.steps[i].req.Id() == a.id && ExactlyOnce.GrantAt(w.steps, i).nonce == a.nonce
      && (forall j: nat :: j < |w.steps| && ExactlyOnce.Fresh(w.steps, j) && w.steps[j].req.Id() == a.id ==> j == i)
      && (|| L1Hash.Collide(f.sha, IntentOf(w.asked[i].value), IntentOf(a.asked))
          || (Actions.StringsAnnounced(w.asked[i].value.action) && Actions.StringsAnnounced(a.asked.action) ==>
                w.steps[i].req.notional == Worth(f, a.asked.action)))
  {
    hide Run, ExactlyOnce.Run, ExactlyOnce.ReplyAt, IntentOf, Worth, Actions.Build, Actions.StringsAnnounced;
    AnswerMeans(f, t, events, x);
    RunIsLinked(f, t, events);
    var w := Run(f, t, events);
    var a := w.answers[x];
    if ExactlyOnce.GrantAt(w.steps, a.step).duplicate {
      i := ExactlyOnce.ReplayHasOriginal(w.steps, a.step);
    } else {
      i := a.step;
    }
    assert AskedFor(f, w.steps[i], w.asked[i]) && AskedFor(f, w.steps[a.step], w.asked[a.step]);
    forall j: nat | j < |w.steps| && ExactlyOnce.Fresh(w.steps, j) && w.steps[j].req.Id() == a.id ensures j == i {
      OneFreshGrant(w.steps, i, j);
    }
    SameIntentSameWorth(f, w.asked[i].value, a.asked);
  }

  lemma SameIntentSameWorth(f: Foreign, a: Asked, b: Asked)
    requires f.sha(IntentOf(a)) == f.sha(IntentOf(b))
    ensures
      || L1Hash.Collide(f.sha, IntentOf(a), IntentOf(b))
      || (Actions.StringsAnnounced(a.action) && Actions.StringsAnnounced(b.action) ==> Worth(f, a.action) == Worth(f, b.action))
  {
    hide Worth, Actions.Build, Actions.StringsAnnounced, Actions.Meaning, Msgpack.Enc;
    if IntentOf(a) == IntentOf(b) && Actions.StringsAnnounced(a.action) && Actions.StringsAnnounced(b.action) {
      L1Hash.IntentPreimageUnambiguous(Actions.Build(a.action), Actions.Build(b.action), a.testnet, b.testnet);
      var u, v := Msgpack.Enc(Actions.Build(a.action)), Msgpack.Enc(Actions.Build(b.action));
      assert u + [] == v + [];
      Actions.SameBytesSameMeaning(a.action, b.action, [], []);
      SameMeaningSameWorth(f, a.action, b.action);
    }
  }
}
