/** What a signature takes: the conditions under which the endpoint signs, and what stops it
    otherwise, read off the configuration, the limiters and the ledger. */
module Consent {
  import opened Numbers
  import opened Wrappers
  import opened Signer
  import Actions
  import Address
  import Ledger
  import Msgpack
  import Policy
  import RateLimit

  // ---- the policy ----

  /** Zero, or a non-negative number within the limit; a NaN limit limits nothing. */
  predicate Within(notional: Float, limit: Float) {
    || notional == Fin(0.0)
    || (&& (notional == PosInf || (notional.Fin? && notional.r > 0.0))
        && (limit == NaN || limit == PosInf || (limit.Fin? && notional.Fin? && notional.r <= limit.r)))
  }

  /** The configuration lets this kind through, with this much at stake in this coin. */
  predicate Consents(cfg: Policy.Config, kind: string, coin: string, notional: Float) {
    && !cfg.killSwitch
    && kind in cfg.allowedKinds && cfg.allowedKinds[kind] == true
    && Within(notional, if coin in cfg.perCoinMax then cfg.perCoinMax[coin] else cfg.maxNotional)
  }

  /** A single order is judged by its own asset, anything else by the global limit. */
  function CoinOf(a: Actions.Action): string {
    match a
    case Order(orders, _, _) => if |orders| == 1 then Decimal(orders[0].asset) else ""
    case Modify(m) => Decimal(m.order.asset)
    case _ => ""
  }

  /** Owners disagreeing about their shared cap get nothing of any worth; a shared cap needs an owner. */
  ghost predicate SharedCapAgreed(t: Policy.Table, keyID: string, notional: Float) {
    keyID in t ==>
      var cfg, owner := t[keyID], Address.Normalize(t[keyID].ownerAddress);
      && (owner.None? ==> cfg.addressDailyMax == Fin(0.0))
      && (owner.Some? && notional != Fin(0.0) ==> !Policy.OwnerConflict(t, Policy.AddressCap, owner.value))
  }

  // ---- the limiters ----

  /** The flagged key of an owner whose keys disagree about the address rate. */
  ghost predicate RateFlagged(t: Policy.Table, keyID: string) {
    && keyID in t && Address.Normalize(t[keyID].ownerAddress).Some?
    && Policy.OwnerConflict(t, Policy.IPRate, Address.Normalize(t[keyID].ownerAddress).value)
    && Policy.KeyConflict(t, Policy.IPRate, keyID)
  }

  predicate HasIPRate(t: Policy.Table, keyID: string) { keyID in t && !(t[keyID].ipRate == Fin(0.0) && t[keyID].ipBurst == Fin(0.0)) }

  /** The request has a bucket of its own in the limiter by owner and address. */
  ghost predicate AsksIPLimiter(d: Desk, req: Request) {
    && !RateFlagged(d.policies, req.keyID) && HasIPRate(d.policies, req.keyID) && req.ip.Some?
    && d.policies[req.keyID].ipRate != Fin(0.0) && Address.Normalize(d.policies[req.keyID].ownerAddress).Some?
  }

  function IPCall(d: Desk, req: Request, m: Moment): RateLimit.Call
    requires req.keyID in d.policies && req.ip.Some? && Address.Normalize(d.policies[req.keyID].ownerAddress).Some?
  {
    var cfg := d.policies[req.keyID];
    RateLimit.Call(Address.Normalize(cfg.ownerAddress).value + "|" + req.ip.value, cfg.ipRate, cfg.ipBurst, m.ipNow)
  }

  ghost predicate IPOpen(d: Desk, req: Request, m: Moment) {
    && !RateFlagged(d.policies, req.keyID)
    && (HasIPRate(d.policies, req.keyID) ==> AsksIPLimiter(d, req) && RateLimit.Allow(d.ipLimits, IPCall(d, req, m)).1)
  }

  /** Requests share a bucket of that limiter exactly when owner and address are the same. */
  lemma BucketsAreSeparate(d: Desk, x: Request, y: Request, m: Moment, n: Moment)
    requires AsksIPLimiter(d, x) && AsksIPLimiter(d, y)
    ensures IPCall(d, x, m).keyID == IPCall(d, y, n).keyID <==>
      Address.Normalize(d.policies[x.keyID].ownerAddress) == Address.Normalize(d.policies[y.keyID].ownerAddress) && x.ip == y.ip
  {
    var a, b := Address.Normalize(d.policies[x.keyID].ownerAddress).value, Address.Normalize(d.policies[y.keyID].ownerAddress).value;
    assert |a| == 42 && |b| == 42;
    hide Address.Normalize, RateFlagged;
    var k, l := IPCall(d, x, m).keyID, IPCall(d, y, n).keyID;
    assert k[..42] == a && k[43..] == x.ip.value && l[..42] == b && l[43..] == y.ip.value;
  }

  function KeyCall(d: Desk, req: Request, m: Moment): RateLimit.Call {
    var cfg := if req.keyID in d.policies then d.policies[req.keyID] else Policy.UNSET;
    RateLimit.Call(req.keyID, cfg.ratePerSec, cfg.rateBurst, m.keyNow)
  }

  // ---- the ledger ----

  /** What the ledger is asked. Nothing at stake stays clear of the shared cap. */
  function Asks(f: Foreign, cfg: Policy.Config, req: Request, m: Moment, a: Actions.Action, notional: Float): Ledger.Request {
    var owner := Address.Normalize(cfg.ownerAddress);
    Ledger.Request(
      req.keyID, req.cloid, f.sha(Msgpack.Enc(Actions.Build(a)) + [if req.testnet then 1 else 0]), m.epoch, notional, cfg.dailyMax,
      if notional == Fin(0.0) || owner.None? then "" else owner.value,
      if notional == Fin(0.0) then Fin(0.0) else cfg.addressDailyMax,
      m.now)
  }

  // ---- signing ----

  /** The action of a well-formed request: of the kind it names, and one order to an order request. */
  predicate WellFormed(req: Request) {
    && req.payload.Decoded? && req.kind == Actions.KindName(req.payload.action)
    && (req.payload.action.Order? ==> |req.payload.action.orders| == 1)
  }

  /** Everything a signature takes. A TWAP has no price to be judged by and is never signed. */
  ghost predicate MaySign(f: Foreign, d: Desk, req: Request, m: Moment) {
    && m.known && m.isLeader && m.signs && req.keyID in d.policies
    && IPOpen(d, req, m) && RateLimit.Allow(d.keyLimits, KeyCall(d, req, m)).1
    && WellFormed(req) && !req.payload.action.TwapOrder?
    && var a, cfg := req.payload.action, d.policies[req.keyID];
       var notional := Worth(f, a);
       && Consents(cfg, req.kind, CoinOf(a), notional) && SharedCapAgreed(d.policies, req.keyID, notional)
       && Ledger.Admissible(d.books, Asks(f, cfg, req, m, a, notional))
  }

  lemma ConsentMeansAllowed(f: Foreign, kind: string, params: Params, cfg: Policy.Config)
    ensures var i := IntentFor(f, kind, params);
      Policy.Evaluate(i, cfg).Allowed? <==> Consents(cfg, i.kind, i.coin, i.notional)
  {
    hide IntentFor;
    var i := IntentFor(f, kind, params);
    Policy.AllowedMeans(i, cfg);
    var limit := Policy.LimitFor(i, cfg);
    if i.notional != NaN && limit != NaN { ComparisonMeans(i.notional, limit); }
  }

  /** What policy sees of a well-formed request. */
  lemma IntentOfWellFormed(f: Foreign, req: Request)
    requires WellFormed(req)
    ensures ActionOf(req.kind, req.payload) == Some(req.payload.action)
    ensures var a, i := req.payload.action, IntentFor(f, req.kind, SeenIn(req.payload));
      && i.kind == req.kind && i.coin == CoinOf(a)
      && NotionalOf(f, req) == i.notional == if a.TwapOrder? then NaN else Worth(f, a)
  {
    NotionalIsWorth(f, req);
    KindNames(req.payload.action);
    hide Worth, OrderNotional, BatchNotional, Decimal, Actions.KindName;
  }

  lemma IPGateMeans(d: Desk, req: Request, m: Moment)
    ensures var (ipLimits, ok) := IPGate(d, req, m.ipNow);
      && (ok <==> IPOpen(d, req, m))
      && ipLimits == if AsksIPLimiter(d, req) then RateLimit.Allow(d.ipLimits, IPCall(d, req, m)).0 else d.ipLimits
  {
    hide RateLimit.Allow, Policy.OwnerConflict, Policy.KeyConflict, Address.Normalize;
    assert Address.Normalize(Policy.UNSET.ownerAddress).None? by { NoOwner(); }
  }

  lemma NoOwner()
    ensures Address.Normalize("").None?
  {
  }

  /** The stages before the ledger. */
  ghost predicate LimitersOpen(d: Desk, req: Request, m: Moment) {
    m.known && IPOpen(d, req, m) && RateLimit.Allow(d.keyLimits, KeyCall(d, req, m)).1
  }

  lemma AdmittedMeans(d: Desk, req: Request, m: Moment)
    ensures var (d', stopped) := Admitted(d, req, m);
      && (stopped.None? <==> LimitersOpen(d, req, m))
      && d'.policies == d.policies && d'.books == d.books
      && (!m.known ==> d' == d && stopped == Some(Refused(404, "unknown keyId")))
      && (m.known && !IPOpen(d, req, m) ==> d'.keyLimits == d.keyLimits && stopped == Some(Refused(429, "ip rate limit exceeded")))
      && (m.known && IPOpen(d, req, m) && stopped.Some? ==> stopped == Some(Refused(429, "rate limit exceeded")))
      && (m.known && IPOpen(d, req, m) ==> d'.keyLimits == RateLimit.Allow(d.keyLimits, KeyCall(d, req, m)).0)
      && (m.known ==> d'.ipLimits == if AsksIPLimiter(d, req) then RateLimit.Allow(d.ipLimits, IPCall(d, req, m)).0 else d.ipLimits)
  {
    hide RateLimit.Allow, IPGate, IPOpen, AsksIPLimiter, IPCall;
    IPGateMeans(d, req, m);
  }

  // ---- the answer ----

  lemma ObjectionMeans(f: Foreign, t: Policy.Table, req: Request)
    ensures var cfg, i := Policy.ConfigOf(t, req.keyID), IntentFor(f, req.kind, SeenIn(req.payload));
      var agreed := SharedCapAgreed(t, req.keyID, i.notional);
      var consents := Consents(cfg, i.kind, i.coin, i.notional);
      && (Objection(f, t, req).None? <==> agreed && consents && WellFormed(req))
      && (!agreed ==> Objection(f, t, req) == Some(Refused(403, "address daily cap exceeded")))
      && (agreed && !consents ==> Objection(f, t, req) == Some(Refused(403, Denial(cfg, i))))
      && (agreed && consents && !WellFormed(req) ==> Objection(f, t, req) == Some(Refused(400, "unsupported action")))
  {
    hide Policy.OwnerConflict, Policy.Evaluate, Consents, Denial, Address.Normalize, IntentFor, SeenIn, Actions.KindName, Msgpack.Supported, Actions.Build;
    NoOwner();
    ConsentMeansAllowed(f, req.kind, SeenIn(req.payload), Policy.ConfigOf(t, req.keyID));
    DenialMeans(IntentFor(f, req.kind, SeenIn(req.payload)), Policy.ConfigOf(t, req.keyID));
    if WellFormed(req) { Actions.BuildsSupported(req.payload.action); }
  }

  /** Why policy turns an intent down; the first complaint is named. */
  function Denial(cfg: Policy.Config, i: Policy.Intent): string {
    if cfg.killSwitch then "kill-switch active"
    else if i.kind !in cfg.allowedKinds || !cfg.allowedKinds[i.kind] then "kind not allowed"
    else if i.notional == NaN || i.notional == NegInf || (i.notional.Fin? && i.notional.r < 0.0) then "invalid notional"
    else "over notional cap"
  }

  lemma DenialMeans(i: Policy.Intent, cfg: Policy.Config)
    ensures Policy.Evaluate(i, cfg).Denied? ==> Policy.Evaluate(i, cfg).reason == Denial(cfg, i)
  {
  }

  /** What is put before the ledger, for a request that gets there. */
  lemma SubmissionMeans(f: Foreign, t: Policy.Table, req: Request, m: Moment)
    requires WellFormed(req) && req.keyID in t
    ensures ActionOf(req.kind, req.payload).Some?
    ensures var a := req.payload.action;
      Submission(f, t, req, m.epoch, m.now) == Asks(f, t[req.keyID], req, m, a, if a.TwapOrder? then NaN else Worth(f, a))
  {
    IntentOfWellFormed(f, req);
    hide Worth, Address.Normalize, Actions.Build, Msgpack.Enc, IntentFor, SeenIn;
  }

  lemma HandleSigns(f: Foreign, d: Desk, req: Request, m: Moment)
    ensures Handle(f, d, req, m).1.Signed? <==>
      && Admitted(d, req, m).1.None? && Objection(f, d.policies, req).None? && m.isLeader && m.signs
      && ActionOf(req.kind, req.payload).Some?
      && Ledger.AuthorizeBooks(d.books, Submission(f, d.policies, req, m.epoch, m.now), m.wall).1.Ok?
    ensures Handle(f, d, req, m).1.Signed? ==>
      var g := Ledger.AuthorizeBooks(d.books, Submission(f, d.policies, req, m.epoch, m.now), m.wall).1.value;
      Handle(f, d, req, m).1 == Signed(ActionOf(req.kind, req.payload).value, g.nonce, req.testnet, g.duplicate)
  {
    AdmittedMeans(d, req, m);
    hide Admitted, Submission, Ledger.AuthorizeBooks, IntentFor, SeenIn, ActionOf, Policy.Evaluate, Policy.OwnerConflict, LimitersOpen, IPOpen;
    hide RateLimit.Allow, AsksIPLimiter, Actions.Build, Msgpack.Supported;
  }

  /** The endpoint signs exactly when all of this holds: the key is known, this instance leads and can
      sign; the limiters let the request through; the parameters make an action of the kind named; the
      configuration consents to its kind and worth; the owner's keys agree about their shared cap; and
      the ledger admits it under the caps, fence and clock of the request. */
  lemma SignedExactlyWhen(f: Foreign, d: Desk, req: Request, m: Moment)
    ensures Handle(f, d, req, m).1.Signed? <==> MaySign(f, d, req, m)
  {
    hide RateLimit.Allow, IPOpen, KeyCall, Admitted, Objection, Submission, Consents, SharedCapAgreed, Worth, Asks;
    hide Ledger.AuthorizeBooks, Ledger.Admissible, IntentFor, SeenIn, CoinOf, Denial, Actions.KindName;
    HandleSigns(f, d, req, m);
    AdmittedMeans(d, req, m);
    ObjectionMeans(f, d.policies, req);
    SomeConsentToNothing();
    if WellFormed(req) {
      IntentOfWellFormed(f, req);
      if req.keyID in d.policies {
        SubmissionMeans(f, d.policies, req, m);
        Ledger.AuthorizedExactlyWhen(d.books, Submission(f, d.policies, req, m.epoch, m.now), m.wall);
        assert Objection(f, d.policies, req).None? <==>
          && !req.payload.action.TwapOrder? && SharedCapAgreed(d.policies, req.keyID, Worth(f, req.payload.action))
          && Consents(d.policies[req.keyID], req.kind, CoinOf(req.payload.action), Worth(f, req.payload.action));
      }
    }
    hide Handle;
  }

  lemma SomeConsentToNothing()
    ensures forall kind, coin, notional :: !Consents(Policy.UNSET, kind, coin, notional)
    ensures forall cfg, kind, coin :: !Consents(cfg, kind, coin, NaN)
  {
  }

  /** What is signed: the action asked for, under the nonce of its first grant if it was granted before,
      else under the least nonce that is neither in the past nor used. */
  lemma SignatureMeans(f: Foreign, d: Desk, req: Request, m: Moment)
    requires Handle(f, d, req, m).1.Signed?
    ensures WellFormed(req)
    ensures var r, id, used := Handle(f, d, req, m).1, Ledger.Key(req.keyID, req.cloid), d.books.WriterOf(req.keyID).lastNonce;
      && r.action == req.payload.action && r.testnet == req.testnet && (r.duplicate <==> id in d.books.records)
      && (id in d.books.records ==> r.nonce == d.books.records[id].nonce)
      && (id !in d.books.records && used < TWO64 - 1 ==> r.nonce == if used < m.now then m.now else used + 1)
  {
    hide Admitted, Objection, Submission, MaySign, Ledger.AuthorizeBooks, Actions.KindName, Handle, Asks, ActionOf;
    SignedExactlyWhen(f, d, req, m);
    HandleSigns(f, d, req, m);
    MayMeans(f, d, req, m);
    IntentOfWellFormed(f, req);
    SubmissionMeans(f, d.policies, req, m);
    AsksFor(f, d.policies[req.keyID], req, m, req.payload.action);
    Ledger.GrantMeans(d.books, Submission(f, d.policies, req, m.epoch, m.now), m.wall);
  }

  lemma AsksFor(f: Foreign, cfg: Policy.Config, req: Request, m: Moment, a: Actions.Action)
    ensures forall notional :: Asks(f, cfg, req, m, a, notional).Id() == Ledger.Key(req.keyID, req.cloid)
    ensures forall notional :: Asks(f, cfg, req, m, a, notional).nowMs == m.now
  {
    hide Address.Normalize, Actions.Build, Msgpack.Enc;
  }

  lemma MayMeans(f: Foreign, d: Desk, req: Request, m: Moment)
    requires MaySign(f, d, req, m)
    ensures WellFormed(req) && req.keyID in d.policies
  {
  }

  // ---- refusals ----

  /** What the request is answered once the limiters are past and nothing is left but the ledger. */
  ghost predicate ReachesLedger(f: Foreign, d: Desk, req: Request, m: Moment) {
    && LimitersOpen(d, req, m) && WellFormed(req) && m.isLeader
    && var cfg, i := Policy.ConfigOf(d.policies, req.keyID), IntentFor(f, req.kind, SeenIn(req.payload));
       SharedCapAgreed(d.policies, req.keyID, i.notional) && Consents(cfg, i.kind, i.coin, i.notional)
  }

  /** The first obstacle is the answer: an unknown key, the limiters in turn, the shared cap, the
      policy, the parameters, the lease. Short of the ledger none of this touches the books. */
  lemma FirstObstacle(f: Foreign, d: Desk, req: Request, m: Moment)
    ensures var (d', r) := Handle(f, d, req, m);
      var cfg, i := Policy.ConfigOf(d.policies, req.keyID), IntentFor(f, req.kind, SeenIn(req.payload));
      var agreed := SharedCapAgreed(d.policies, req.keyID, i.notional);
      var consents := Consents(cfg, i.kind, i.coin, i.notional);
      && (!ReachesLedger(f, d, req, m) ==> d'.books == d.books)
      && (!m.known ==> r == Refused(404, "unknown keyId"))
      && (m.known && !IPOpen(d, req, m) ==> r == Refused(429, "ip rate limit exceeded"))
      && (m.known && IPOpen(d, req, m) && !LimitersOpen(d, req, m) ==> r == Refused(429, "rate limit exceeded"))
      && (LimitersOpen(d, req, m) && !agreed ==> r == Refused(403, "address daily cap exceeded"))
      && (LimitersOpen(d, req, m) && agreed && !consents ==> r == Refused(403, Denial(cfg, i)))
      && (LimitersOpen(d, req, m) && agreed && consents && !WellFormed(req) ==> r == Refused(400, "unsupported action"))
      && (LimitersOpen(d, req, m) && agreed && consents && WellFormed(req) && !m.isLeader ==> r == Refused(503, "not leader"))
  {
    hide RateLimit.Allow, IPOpen, Admitted, Objection, Submission, Consents, SharedCapAgreed, Ledger.AuthorizeBooks;
    hide IntentFor, SeenIn, Denial, ActionOf, WellFormed, LimitersOpen;
    AdmittedMeans(d, req, m);
    ObjectionMeans(f, d.policies, req);
    WellFormedActs(req);
    OpenMeans(d, req, m);
    if Admitted(d, req, m).1.Some? {
      assert Handle(f, d, req, m) == (Admitted(d, req, m).0, Admitted(d, req, m).1.value);
    } else if Objection(f, d.policies, req).Some? {
      assert Handle(f, d, req, m) == (Admitted(d, req, m).0, Objection(f, d.policies, req).value);
    }
  }

  lemma OpenMeans(d: Desk, req: Request, m: Moment)
    ensures LimitersOpen(d, req, m) ==> m.known && IPOpen(d, req, m)
  {
  }

  lemma WellFormedActs(req: Request)
    ensures ActionOf(req.kind, req.payload).Some? <==> WellFormed(req)
  {
  }

  /** The limiters are asked in turn, each only by requests that get as far, and keep what they took
      whatever becomes of the request. */
  lemma LimitersKeepTheirToll(f: Foreign, d: Desk, req: Request, m: Moment)
    ensures var d' := Handle(f, d, req, m).0;
      && d'.policies == d.policies
      && (!m.known ==> d' == d)
      && (m.known ==> d'.ipLimits == if AsksIPLimiter(d, req) then RateLimit.Allow(d.ipLimits, IPCall(d, req, m)).0 else d.ipLimits)
      && (m.known ==> d'.keyLimits == if IPOpen(d, req, m) then RateLimit.Allow(d.keyLimits, KeyCall(d, req, m)).0 else d.keyLimits)
  {
    hide RateLimit.Allow, IPOpen, Admitted, Objection, Submission, Ledger.AuthorizeBooks, AsksIPLimiter, IPCall, ActionOf;
    AdmittedMeans(d, req, m);
    ObjectionActs(f, d.policies, req);
  }

  lemma ObjectionActs(f: Foreign, t: Policy.Table, req: Request)
    ensures Objection(f, t, req).None? ==> ActionOf(req.kind, req.payload).Some?
  {
    hide Policy.OwnerConflict, Policy.Evaluate, Address.Normalize, IntentFor, SeenIn, ActionOf, Msgpack.Supported, Actions.Build;
  }

  /** The ledger's complaint, in its order: no cloid, a cloid used for something else, a stale fence, a
      clock at or before the epoch, no finite non-negative notional, the key's cap, the owner's cap. */
  function Complaint(b: Ledger.Books, r: Ledger.Request): Response {
    var writer := b.WriterOf(r.keyID);
    var spent := if writer.spendDay == DayOf(r.nowMs) then writer.spendTotal else Fin(0.0);
    if r.cloid == "" then Refused(400, "missing cloid")
    else if r.Id() in b.records then Refused(409, "cloid reuse mismatch")
    else if r.fence < writer.fence then Refused(409, "fenced")
    else if r.nowMs <= 0 then Refused(500, "invalid clock")
    else if !r.notional.Fin? || r.notional.r < 0.0 then Refused(403, "invalid notional")
    else if r.dailyCap.Lt(Fin(0.0)) || (Fin(0.0).Lt(r.dailyCap) && r.dailyCap.Lt(spent.Add(r.notional))) then Refused(403, "daily cap exceeded")
    else Refused(403, "address daily cap exceeded")
  }

  lemma ComplaintMeans(b: Ledger.Books, r: Ledger.Request, wall: int64)
    ensures var out := Ledger.AuthorizeBooks(b, r, wall).1;
      out.Err? ==> Explained(out.error) == Complaint(b, r)
  {
  }

  /** A request that reaches the ledger is signed if the ledger admits it and the key can sign, and
      otherwise answered with the ledger's complaint or the failure to sign. */
  lemma LedgerDecides(f: Foreign, d: Desk, req: Request, m: Moment)
    requires ReachesLedger(f, d, req, m)
    ensures req.keyID in d.policies && WellFormed(req)
    ensures var (d', r) := Handle(f, d, req, m);
      var ask := Asks(f, d.policies[req.keyID], req, m, req.payload.action, Worth(f, req.payload.action));
      && d'.books == Ledger.AuthorizeBooks(d.books, ask, m.wall).0
      && (!Ledger.Admissible(d.books, ask) ==> r == Complaint(d.books, ask))
      && (Ledger.Admissible(d.books, ask) && !m.signs ==> r == Refused(500, "sign failed"))
      && (Ledger.Admissible(d.books, ask) && m.signs ==> r.Signed?)
  {
    hide RateLimit.Allow, IPOpen, Admitted, Objection, Submission, Consents, SharedCapAgreed, Ledger.AuthorizeBooks, Ledger.Admissible;
    hide IntentFor, SeenIn, ActionOf, WellFormed, LimitersOpen, Asks, Complaint, Explained, Worth, Denial;
    AdmittedMeans(d, req, m);
    ObjectionMeans(f, d.policies, req);
    SomeConsentToNothing();
    WellFormedActs(req);
    IntentOfWellFormed(f, req);
    SubmissionMeans(f, d.policies, req, m);
    var sub := Submission(f, d.policies, req, m.epoch, m.now);
    Ledger.AuthorizedExactlyWhen(d.books, sub, m.wall);
    ComplaintMeans(d.books, sub, m.wall);
  }

  /** Parameters that cannot be read are not taken for worthless: a request of an order-carrying kind
      whose prices and sizes do not decode is refused by policy, not passed on as free. */
  lemma UnreadableIsRefused(f: Foreign, d: Desk, req: Request, m: Moment)
    requires
      || ((req.kind == "order" || req.kind == "modify") && !SeenIn(req.payload).One?)
      || (req.kind == "batchModify" && !SeenIn(req.payload).Many?)
      || req.kind == "twapOrder"
    ensures Handle(f, d, req, m).1.Refused? && Handle(f, d, req, m).0.books == d.books
    ensures LimitersOpen(d, req, m) ==> Handle(f, d, req, m).1.code == 403
  {
    hide Handle, LimitersOpen, SharedCapAgreed, SeenIn, Consents, Denial, WellFormed, IPOpen;
    var i := IntentFor(f, req.kind, SeenIn(req.payload));
    assert i.notional == NaN by {
      assert |"order"| == 5 && |"modify"| == 6 && |"batchModify"| == 11 && |"twapOrder"| == 9;
    }
    hide IntentFor;
    SomeConsentToNothing();
    FirstObstacle(f, d, req, m);
  }
}
