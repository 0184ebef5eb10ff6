/** The signing endpoint on parsed requests: limiters, policy, fence, ledger, signature. */
module Signer {
  import opened Numbers
  import opened Wrappers
  import Actions
  import Address
  import L1Hash
  import Ledger
  import Msgpack
  import Policy
  import RateLimit

  // ---- what a request is worth ----

  type byte = Msgpack.byte

  /** A parsed number: `None` if the text is none. */
  type Parsed = Option<Float>

  /** Calls into code that is not part of this model: SHA-256 and the parser of decimal numbers. */
  datatype Foreign = Foreign(sha: L1Hash.Hash, parse: seq<byte> -> Parsed)

  datatype Leg = Leg(px: seq<byte>, sz: seq<byte>)

  /** The parameters as far as the notional depends on them. */
  datatype Params = Malformed | One(asset: int64, leg: Leg) | Many(legs: seq<Leg>) | Opaque

  const ZERO := Fin(0.0)

  predicate BadNumber(x: Parsed) { x.None? || x.value == NaN || x.value.Negative() }

  function OrderNotional(f: Foreign, leg: Leg): Float {
    var px, sz := f.parse(leg.px), f.parse(leg.sz);
    if BadNumber(px) || BadNumber(sz) then NaN else px.value.MulNonNegative(sz.value)
  }

  function BatchNotional(f: Foreign, legs: seq<Leg>): Float {
    if legs == [] then ZERO else BatchNotional(f, legs[..|legs| - 1]).Add(OrderNotional(f, legs[|legs| - 1]))
  }

  function Digits(n: nat): string { if n < 10 then [n as char + '0'] else Digits(n / 10) + [(n % 10) as char + '0'] }

  function Decimal(n: int): string { if n < 0 then "-" + Digits(-n) else Digits(n) }

  function IntentFor(f: Foreign, kind: string, params: Params): Policy.Intent {
    if kind == "order" || kind == "modify" then
      if params.One? then Policy.Intent(kind, Decimal(params.asset), OrderNotional(f, params.leg)) else Policy.Intent(kind, "", NaN)
    else if kind == "batchModify" then
      Policy.Intent(kind, "", if params.Many? then BatchNotional(f, params.legs) else NaN)
    else if kind == "twapOrder" then Policy.Intent(kind, "", NaN)
    else Policy.Intent(kind, "", ZERO)
  }

  /** Sums the legs of a batch in a loop. */
  method ComputeIntent(f: Foreign, kind: string, params: Params) returns (intent: Policy.Intent)
    ensures intent == IntentFor(f, kind, params)
  {
    if kind != "batchModify" || !params.Many? { return IntentFor(f, kind, params); }
    var total := ZERO;
    for i := 0 to |params.legs|
      invariant total == BatchNotional(f, params.legs[..i])
    {
      assert params.legs[..i + 1][..i] == params.legs[..i];
      total := total.Add(OrderNotional(f, params.legs[i]));
    }
    assert params.legs[..|params.legs|] == params.legs;
    return Policy.Intent(kind, "", total);
  }

  lemma ProductIsNotNegative(f: Foreign, leg: Leg)
    ensures OrderNotional(f, leg) == NaN || !OrderNotional(f, leg).Negative()
  {
    var px, sz := f.parse(leg.px), f.parse(leg.sz);
    if !BadNumber(px) && !BadNumber(sz) && px.value.Fin? && sz.value.Fin? {
      assert px.value.r * sz.value.r >= 0.0;
    }
  }

  /** A leg is worth price times size; text that is no number, NaN, a negative number, or infinity
      times zero make it NaN. */
  lemma OrderNotionalMeans(f: Foreign, leg: Leg)
    ensures var px, sz, n := f.parse(leg.px), f.parse(leg.sz), OrderNotional(f, leg);
      && (n == NaN <==>
            || px.None? || sz.None? || px.value == NaN || sz.value == NaN || px.value.Lt(Fin(0.0)) || sz.value.Lt(Fin(0.0))
            || (px.value == PosInf && sz.value == Fin(0.0)) || (px.value == Fin(0.0) && sz.value == PosInf))
      && (n != NaN && px.value.Fin? && sz.value.Fin? ==> n == Fin(px.value.r * sz.value.r))
      && (n != NaN && !(px.value.Fin? && sz.value.Fin?) ==> n == PosInf)
  {
  }

  predicate NaNOrNonNegative(x: Float) { x == NaN || !x.Negative() }

  lemma AddNests(x: Float, y: Float, z: Float)
    requires NaNOrNonNegative(x) && NaNOrNonNegative(y) && NaNOrNonNegative(z)
    ensures x.Add(y.Add(z)) == x.Add(y).Add(z) && x.Add(ZERO) == x
  {
  }

  /** Batches add up: two together are worth the sum, and the empty one nothing. */
  lemma {:induction false} BatchesAddUp(f: Foreign, x: seq<Leg>, y: seq<Leg>)
    ensures BatchNotional(f, x + y) == BatchNotional(f, x).Add(BatchNotional(f, y))
    ensures BatchNotional(f, []) == Fin(0.0)
  {
    hide OrderNotional;
    BadLegIsNotMasked(f, x);
    AddNests(BatchNotional(f, x), ZERO, ZERO);
    if y == [] {
      assert x + y == x;
    } else {
      var n := |y| - 1;
      assert (x + y)[..|x| + n] == x + y[..n];
      BatchesAddUp(f, x, y[..n]);
      BadLegIsNotMasked(f, y[..n]);
      ProductIsNotNegative(f, y[n]);
      AddNests(BatchNotional(f, x), BatchNotional(f, y[..n]), OrderNotional(f, y[n]));
    }
  }

  predicate AllDigits(s: string) { forall i :: 0 <= i < |s| ==> '0' <= s[i] <= '9' }

  /** The number that digits stand for. */
  function ValueOf(s: string): nat
    requires AllDigits(s)
  {
    if s == "" then 0 else 10 * ValueOf(s[..|s| - 1]) + (s[|s| - 1] as int - '0' as int)
  }

  lemma {:induction false} DigitsReadBack(n: nat)
    ensures var s := Digits(n); s != "" && AllDigits(s) && ValueOf(s) == n && (|s| > 1 ==> s[0] != '0')
  {
    var s := Digits(n);
    if n < 10 {
      assert s[..0] == "";
    } else {
      DigitsReadBack(n / 10);
      assert s[..|s| - 1] == Digits(n / 10);
    }
  }

  /** Coins are named by the decimal digits of their asset number, with a minus sign if negative. */
  lemma DecimalReadsBack(n: int)
    ensures var s := Decimal(n);
      && (n >= 0 ==> AllDigits(s) && ValueOf(s) == n && (|s| > 1 ==> s[0] != '0'))
      && (n < 0 ==> s[0] == '-' && AllDigits(s[1..]) && ValueOf(s[1..]) == -n && (|s| > 2 ==> s[1] != '0'))
  {
    DigitsReadBack(if n < 0 then -n else n);
  }

  /** No leg masks another: one bad leg makes the whole batch NaN, and a batch is never negative. */
  lemma {:induction false} BadLegIsNotMasked(f: Foreign, legs: seq<Leg>)
    ensures BatchNotional(f, legs) == NaN <==> exists i :: 0 <= i < |legs| && OrderNotional(f, legs[i]) == NaN
    ensures BatchNotional(f, legs) == NaN || !BatchNotional(f, legs).Negative()
  {
    if legs != [] {
      var n := |legs| - 1;
      BadLegIsNotMasked(f, legs[..n]);
      ProductIsNotNegative(f, legs[n]);
      hide OrderNotional;
      assert forall i :: 0 <= i < n ==> legs[..n][i] == legs[i];
    }
  }

  // ---- the same parameters, decoded twice ----

  /** The parameters of a request: the notional is read from part of what the action is built from.
      If the action cannot be built, `seen` is whatever that part decodes to. */
  datatype Payload = Undecodable(seen: Params) | Decoded(action: Actions.Action)

  function LegOf(o: Actions.OrderInput): Leg { Leg(o.px, o.sz) }

  function LegsOf(orders: seq<Actions.OrderInput>): seq<Leg> { seq(|orders|, i requires 0 <= i < |orders| => LegOf(orders[i])) }

  /** The orders inside an action. */
  function OrdersIn(a: Actions.Action): seq<Actions.OrderInput> {
    match a
    case Order(orders, _, _) => orders
    case Modify(m) => [m.order]
    case BatchModify(ms) => seq(|ms|, i requires 0 <= i < |ms| => ms[i].order)
    case _ => []
  }

  /** What the orders inside an action come to. */
  function Worth(f: Foreign, a: Actions.Action): Float { BatchNotional(f, LegsOf(OrdersIn(a))) }

  function SeenIn(payload: Payload): Params {
    match payload
    case Undecodable(seen) => seen
    case Decoded(Order(orders, _, _)) => if |orders| == 1 then One(orders[0].asset, LegOf(orders[0])) else Opaque
    case Decoded(Modify(m)) => One(m.order.asset, LegOf(m.order))
    case Decoded(BatchModify(ms)) => Many(LegsOf(OrdersIn(payload.action)))
    case Decoded(_) => Opaque
  }

  /** The action a request asks for; an order request carries one order. */
  function ActionOf(kind: string, payload: Payload): Option<Actions.Action> {
    if payload.Decoded? && kind == Actions.KindName(payload.action) && (payload.action.Order? ==> |payload.action.orders| == 1)
    then Some(payload.action) else None
  }

  function NotionalOf(f: Foreign, req: Request): Float { IntentFor(f, req.kind, SeenIn(req.payload)).notional }

  lemma OneLeg(f: Foreign, leg: Leg)
    ensures BatchNotional(f, [leg]) == OrderNotional(f, leg)
  {
    ProductIsNotNegative(f, leg);
    hide OrderNotional;
    assert [leg][..0] == [] && BatchNotional(f, []) == ZERO;
  }

  /** The kinds that carry orders, by name. */
  lemma KindNames(a: Actions.Action)
    ensures var kind := Actions.KindName(a);
      && (kind == "order" <==> a.Order?) && (kind == "modify" <==> a.Modify?)
      && (kind == "batchModify" <==> a.BatchModify?) && (kind == "twapOrder" <==> a.TwapOrder?)
  {
    assert |"order"| == 5 && |"modify"| == 6 && |"batchModify"| == 11 && |"twapOrder"| == 9;
    assert |"cancel"| == 6 && "cancel"[0] == 'c' && "modify"[0] == 'm';
    assert |"twapCancel"| == 10 && |"cancelByCloid"| == 13 && |"updateLeverage"| == 14;
    assert |"updateIsolatedMargin"| == 20 && |"scheduleCancel"| == 14;
  }

  /** What is charged is what the orders in the action come to; only a TWAP, which names no price,
      has no worth, and is turned away for it. */
  lemma NotionalIsWorth(f: Foreign, req: Request)
    requires ActionOf(req.kind, req.payload).Some?
    ensures var a := ActionOf(req.kind, req.payload).value;
      NotionalOf(f, req) == if a.TwapOrder? then NaN else Worth(f, a)
  {
    hide OrderNotional, BatchNotional, Actions.KindName;
    var a := req.payload.action;
    KindNames(a);
    if a.Order? {
      assert LegsOf(a.orders) == [LegOf(a.orders[0])];
      OneLeg(f, LegOf(a.orders[0]));
    } else if a.Modify? {
      assert LegsOf([a.change.order]) == [LegOf(a.change.order)];
      OneLeg(f, LegOf(a.change.order));
    } else if !a.BatchModify? {
      assert LegsOf([]) == [];
      NoLegs(f);
    }
  }

  lemma NoLegs(f: Foreign)
    ensures BatchNotional(f, []) == ZERO
  {
  }

  /** Actions that ask for the same thing are worth the same. */
  lemma SameMeaningSameWorth(f: Foreign, a: Actions.Action, b: Actions.Action)
    requires Actions.Meaning(a) == Actions.Meaning(b)
    ensures Worth(f, a) == Worth(f, b)
  {
    hide BatchNotional;
    MeaningKeepsOrders(a);
    MeaningKeepsOrders(b);
  }

  lemma MeaningKeepsOrders(a: Actions.Action)
    ensures OrdersIn(Actions.Meaning(a)) == OrdersIn(a)
  {
    assert |OrdersIn(Actions.Meaning(a))| == |OrdersIn(a)|;
    assert forall i :: 0 <= i < |OrdersIn(a)| ==> OrdersIn(Actions.Meaning(a))[i] == OrdersIn(a)[i];
  }

  // ---- the endpoint ----

  /** `ip` is absent if the peer has none. */
  datatype Request = Request(keyID: string, cloid: string, kind: string, payload: Payload, testnet: bool, ip: Option<string>)

  /** What the surroundings answer while the request is served. */
  datatype Moment = Moment(
    known: bool, epoch: uint64, isLeader: bool, ipNow: int64, keyNow: int64, now: int64, wall: int64, signs: bool)

  datatype Response =
    | Refused(code: int, message: string)
    | Signed(action: Actions.Action, nonce: uint64, testnet: bool, duplicate: bool)

  /** The mutable state behind the endpoint. */
  datatype Desk = Desk(policies: Policy.Table, books: Ledger.Books, keyLimits: RateLimit.State, ipLimits: RateLimit.State)

  const IP_RATE := Refused(429, "ip rate limit exceeded")
  const KEY_RATE := Refused(429, "rate limit exceeded")
  const ADDRESS_CAP := Refused(403, "address daily cap exceeded")

  function Owner(t: Policy.Table, keyID: string): Option<string> {
    Address.Normalize(Policy.ConfigOf(t, keyID).ownerAddress)
  }

  /** The budget an owner's keys share per source address. */
  ghost function IPGate(d: Desk, req: Request, now: int64): (RateLimit.State, bool) {
    var cfg, owner := Policy.ConfigOf(d.policies, req.keyID), Owner(d.policies, req.keyID);
    if owner.Some? && Policy.OwnerConflict(d.policies, Policy.IPRate, owner.value)
       && Policy.KeyConflict(d.policies, Policy.IPRate, req.keyID) then (d.ipLimits, false)
    else if cfg.ipRate.IsZero() && cfg.ipBurst.IsZero() then (d.ipLimits, true)
    else if owner.None? || cfg.ipRate.IsZero() || req.ip.None? then (d.ipLimits, false)
    else RateLimit.Allow(d.ipLimits, RateLimit.Call(owner.value + "|" + req.ip.value, cfg.ipRate, cfg.ipBurst, now))
  }

  /** What stands against the request once the limiters have let it through. */
  ghost function Objection(f: Foreign, t: Policy.Table, req: Request): Option<Response> {
    var cfg, owner, intent := Policy.ConfigOf(t, req.keyID), Owner(t, req.keyID), IntentFor(f, req.kind, SeenIn(req.payload));
    var action := ActionOf(req.kind, req.payload);
    if !cfg.addressDailyMax.IsZero() && owner.None? then Some(ADDRESS_CAP)
    else if !intent.notional.IsZero() && owner.Some? && Policy.OwnerConflict(t, Policy.AddressCap, owner.value) then Some(ADDRESS_CAP)
    else if Policy.Evaluate(intent, cfg).Denied? then Some(Refused(403, Policy.Evaluate(intent, cfg).reason))
    else if action.None? then Some(Refused(400, "unsupported action"))
    else if !Msgpack.Supported(Actions.Build(action.value)) then Some(Refused(400, "encode action"))
    else None
  }

  /** What is put before the ledger. Requests worth nothing stay clear of the shared budget. */
  function Submission(f: Foreign, t: Policy.Table, req: Request, epoch: uint64, now: int64): Ledger.Request
    requires ActionOf(req.kind, req.payload).Some?
  {
    var cfg, owner, notional := Policy.ConfigOf(t, req.keyID), Owner(t, req.keyID), NotionalOf(f, req);
    var action := Actions.Build(ActionOf(req.kind, req.payload).value);
    Ledger.Request(
      req.keyID, req.cloid, f.sha(L1Hash.IntentPreimage(action, req.testnet)), epoch, notional, cfg.dailyMax,
      if !notional.IsZero() && owner.Some? then owner.value else "",
      if !notional.IsZero() then cfg.addressDailyMax else ZERO,
      now)
  }

  function Explained(e: Ledger.Error): Response {
    match e
    case ErrMissingCloid => Refused(400, "missing cloid")
    case ErrCloidReuse => Refused(409, "cloid reuse mismatch")
    case ErrAddressDailyCap => ADDRESS_CAP
    case Writer(ErrFenced) => Refused(409, "fenced")
    case Writer(ErrDailyCap) => Refused(403, "daily cap exceeded")
    case Writer(ErrInvalidNotional) => Refused(403, "invalid notional")
    case Writer(ErrInvalidClock) => Refused(500, "invalid clock")
    case _ => Refused(500, "authorize failed")
  }

  /** The desk as it stands after the limiters, and whether they let the request through. */
  ghost function Admitted(d: Desk, req: Request, m: Moment): (Desk, Option<Response>) {
    if !m.known then (d, Some(Refused(404, "unknown keyId")))
    else
      var cfg := Policy.ConfigOf(d.policies, req.keyID);
      var (ipLimits, ipOk) := IPGate(d, req, m.ipNow);
      if !ipOk then (d.(ipLimits := ipLimits), Some(IP_RATE))
      else
        var (keyLimits, keyOk) := RateLimit.Allow(d.keyLimits, RateLimit.Call(req.keyID, cfg.ratePerSec, cfg.rateBurst, m.keyNow));
        (d.(ipLimits := ipLimits, keyLimits := keyLimits), if keyOk then None else Some(KEY_RATE))
  }

  /** The request that reaches the ledger, if any does. */
  ghost function Submitted(f: Foreign, d: Desk, req: Request, m: Moment): Option<Ledger.Request> {
    if Admitted(d, req, m).1.Some? || Objection(f, d.policies, req).Some? || !m.isLeader then None
    else Some(Submission(f, d.policies, req, m.epoch, m.now))
  }

  ghost function Handle(f: Foreign, d: Desk, req: Request, m: Moment): (Desk, Response) {
    var (d1, stopped) := Admitted(d, req, m);
    if stopped.Some? then (d1, stopped.value)
    else if Objection(f, d.policies, req).Some? then (d1, Objection(f, d.policies, req).value)
    else if !m.isLeader then (d1, Refused(503, "not leader"))
    else
      var (books, out) := Ledger.AuthorizeBooks(d.books, Submission(f, d.policies, req, m.epoch, m.now), m.wall);
      var d2 := d1.(books := books);
      match out
      case Err(e) => (d2, Explained(e))
      case Ok(g) =>
        (d2, if m.signs then Signed(ActionOf(req.kind, req.payload).value, g.nonce, req.testnet, g.duplicate)
             else Refused(500, "sign failed"))
  }

  function Behind(policies: Policy.Store, ledger: Ledger.Mem, keyLimiter: RateLimit.Limiter, ipLimiter: RateLimit.Limiter): Desk
    reads policies, ledger, keyLimiter, ipLimiter
  {
    Desk(policies.byKey, ledger.Contents(), keyLimiter.Contents(), ipLimiter.Contents())
  }

  /** The grouped per-address limit; true if it lets the request through. */
  method CheckIP(policies: Policy.Store, ipLimiter: RateLimit.Limiter, cfg: Policy.Config, owner: Option<string>,
                 req: Request, now: int64)
    returns (ok: bool)
    requires policies.Valid() && cfg == Policy.ConfigOf(policies.byKey, req.keyID) && owner == Owner(policies.byKey, req.keyID)
    modifies ipLimiter
    ensures forall d: Desk :: d.policies == policies.byKey && d.ipLimits == old(ipLimiter.Contents()) ==>
      (ipLimiter.Contents(), ok) == IPGate(d, req, now)
  {
    hide Policy.OwnerConflict, Policy.KeyConflict, RateLimit.Allow, Policy.Agree, Address.Normalize;
    if owner.Some? {
      Address.NormalizeIdempotent(cfg.ownerAddress);
      var conflict, _ := policies.OwnerConflicts(owner.value);
      var flagged, _ := policies.KeyConflicts(req.keyID);
      if conflict && flagged { return false; }
    }
    if !cfg.ipRate.IsZero() || !cfg.ipBurst.IsZero() {
      if owner.None? { return false; }
      if cfg.ipRate.IsZero() { return false; }
      if req.ip.None? { return false; }
      ok := ipLimiter.AllowCall(owner.value + "|" + req.ip.value, cfg.ipRate, cfg.ipBurst, now);
      return ok;
    }
    return true;
  }

  /** The checks between the limiters and the fence. */
  method Vet(f: Foreign, policies: Policy.Store, cfg: Policy.Config, owner: Option<string>, intent: Policy.Intent, req: Request)
    returns (objection: Option<Response>, bytes: seq<byte>)
    requires policies.Valid() && cfg == Policy.ConfigOf(policies.byKey, req.keyID) && owner == Owner(policies.byKey, req.keyID)
    requires intent == IntentFor(f, req.kind, SeenIn(req.payload))
    ensures objection == Objection(f, policies.byKey, req)
    ensures objection.None? ==>
      var action := ActionOf(req.kind, req.payload); action.Some? && bytes == Msgpack.Enc(Actions.Build(action.value))
  {
    hide Policy.OwnerConflict, Policy.KeyConflict, Policy.Agree, Address.Normalize, IntentFor, Policy.Evaluate, Msgpack.Enc;
    hide Msgpack.Supported, Actions.Build, ActionOf, SeenIn;
    bytes := [];
    if !cfg.addressDailyMax.IsZero() && owner.None? { return Some(ADDRESS_CAP), []; }
    if !intent.notional.IsZero() && owner.Some? {
      Address.NormalizeIdempotent(cfg.ownerAddress);
      var _, conflict := policies.OwnerConflicts(owner.value);
      if conflict { return Some(ADDRESS_CAP), []; }
    }
    var decision := Policy.Evaluate(intent, cfg);
    if decision.Denied? { return Some(Refused(403, decision.reason)), []; }
    var action := ActionOf(req.kind, req.payload);
    if action.None? { return Some(Refused(400, "unsupported action")), []; }
    var ok;
    ok, bytes := Msgpack.Encode(Actions.Build(action.value));
    if !ok { return Some(Refused(400, "encode action")), []; }
    return None, bytes;
  }

  method HandleSignL1(f: Foreign, policies: Policy.Store, ledger: Ledger.Mem,
                      keyLimiter: RateLimit.Limiter, ipLimiter: RateLimit.Limiter, req: Request, m: Moment)
    returns (response: Response)
    requires policies.Valid() && ledger.Valid() && keyLimiter != ipLimiter
    modifies ledger, keyLimiter, ipLimiter
    ensures ledger.Valid()
    ensures (Behind(policies, ledger, keyLimiter, ipLimiter), response)
         == Handle(f, old(Behind(policies, ledger, keyLimiter, ipLimiter)), req, m)
  {
    hide Policy.OwnerConflict, Policy.KeyConflict, Policy.Agree, RateLimit.Allow, Address.Normalize, IntentFor;
    hide Ledger.AuthorizeBooks, Objection, IPGate, Msgpack.Enc, Actions.Build, ActionOf, SeenIn;
    if !m.known { return Refused(404, "unknown keyId"); }
    var cfg := policies.Get(req.keyID);
    var owner := Address.Normalize(cfg.ownerAddress);
    var ok := CheckIP(policies, ipLimiter, cfg, owner, req, m.ipNow);
    if !ok { return IP_RATE; }
    ok := keyLimiter.AllowCall(req.keyID, cfg.ratePerSec, cfg.rateBurst, m.keyNow);
    if !ok { return KEY_RATE; }
    var intent := ComputeIntent(f, req.kind, SeenIn(req.payload));
    var objection, bytes := Vet(f, policies, cfg, owner, intent, req);
    if objection.Some? { return objection.value; }
    var spendKey, addressCap := "", ZERO;
    if !intent.notional.IsZero() {
      spendKey := if owner.Some? then owner.value else "";
      addressCap := cfg.addressDailyMax;
    }
    var digest := f.sha(bytes + [if req.testnet then 1 else 0]);
    if !m.isLeader { return Refused(503, "not leader"); }
    var out := ledger.Authorize(
      Ledger.Request(req.keyID, req.cloid, digest, m.epoch, intent.notional, cfg.dailyMax, spendKey, addressCap, m.now), m.wall);
    if out.Err? { return Explained(out.error); }
    if !m.signs { return Refused(500, "sign failed"); }
    return Signed(ActionOf(req.kind, req.payload).value, out.value.nonce, req.testnet, out.value.duplicate);
  }
}
