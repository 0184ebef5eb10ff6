/** The ordered action maps fed to the encoder, and that their bytes tell the actions apart. */
module Actions {
  import opened Numbers
  import opened Wrappers
  import opened LongArrays
  import opened Msgpack

  /** ASCII text as bytes. */
  function Text(s: string): seq<byte> {
    seq(|s|, i requires 0 <= i < |s| => s[i] as int % 256)
  }

  datatype OrderInput = OrderInput(
    asset: int64, isBuy: bool, px: seq<byte>, sz: seq<byte>, reduceOnly: bool, tif: seq<byte>, cloid: seq<byte>)

  datatype Builder = Builder(address: seq<byte>, feeTenthBps: int64)

  datatype CancelInput = CancelInput(asset: int64, oid: int64)

  datatype CancelByCloidInput = CancelByCloidInput(asset: int64, cloid: seq<byte>)

  /** `oid` is used only when `cloid` is empty. */
  datatype ModifyInput = ModifyInput(oid: int64, cloid: seq<byte>, order: OrderInput)

  datatype Action =
    | Order(orders: seq<OrderInput>, grouping: seq<byte>, builder: Option<Builder>)
    | Cancel(cancels: seq<CancelInput>)
    | TwapOrder(asset: int64, isBuy: bool, sz: seq<byte>, reduceOnly: bool, minutes: int64, randomize: bool)
    | TwapCancel(asset: int64, twapId: int64)
    | CancelByCloid(byCloid: seq<CancelByCloidInput>)
    | Modify(change: ModifyInput)
    | BatchModify(changes: seq<ModifyInput>)
    | UpdateLeverage(asset: int64, isCross: bool, leverage: int64)
    | UpdateIsolatedMargin(asset: int64, isBuy: bool, ntli: int64)
    | ScheduleCancel(time: Option<int64>)

  function Field(name: string, v: Value): KV { KV(Text(name), v) }

  function OrderTuple(o: OrderInput): seq<KV> {
    [Field("a", Int(o.asset)), Field("b", Bool(o.isBuy)), Field("p", Str(o.px)), Field("s", Str(o.sz)),
     Field("r", Bool(o.reduceOnly)), Field("t", Map([Field("limit", Map([Field("tif", Str(o.tif))]))]))]
    + if o.cloid != [] then [Field("c", Str(o.cloid))] else []
  }

  /** The oid slot takes the cloid when there is one. */
  function ModifyEntry(m: ModifyInput): seq<KV> {
    [Field("oid", if m.cloid != [] then Str(m.cloid) else Int(m.oid)), Field("order", Map(OrderTuple(m.order)))]
  }

  function KindName(a: Action): string {
    match a
    case Order(_, _, _) => "order"
    case Cancel(_) => "cancel"
    case TwapOrder(_, _, _, _, _, _) => "twapOrder"
    case TwapCancel(_, _) => "twapCancel"
    case CancelByCloid(_) => "cancelByCloid"
    case Modify(_) => "modify"
    case BatchModify(_) => "batchModify"
    case UpdateLeverage(_, _, _) => "updateLeverage"
    case UpdateIsolatedMargin(_, _, _) => "updateIsolatedMargin"
    case ScheduleCancel(_) => "scheduleCancel"
  }

  /** The fields after `type`, in Hyperliquid's byte order. */
  function Body(a: Action): seq<KV> {
    match a
    case Order(orders, grouping, builder) =>
      [Field("orders", Arr(seq(|orders|, i requires 0 <= i < |orders| => Map(OrderTuple(orders[i]))))),
       Field("grouping", Str(grouping))]
      + (match builder
         case None => []
         case Some(b) => [Field("builder", BuilderMap(b))])
    case Cancel(cs) =>
      [Field("cancels", Arr(seq(|cs|, i requires 0 <= i < |cs| => CancelMap(cs[i]))))]
    case TwapOrder(asset, isBuy, sz, reduceOnly, minutes, randomize) =>
      [Field("twap", Map([Field("a", Int(asset)), Field("b", Bool(isBuy)), Field("s", Str(sz)),
                          Field("r", Bool(reduceOnly)), Field("m", Int(minutes)), Field("t", Bool(randomize))]))]
    case TwapCancel(asset, twapId) => [Field("a", Int(asset)), Field("t", Int(twapId))]
    case CancelByCloid(cs) =>
      [Field("cancels", Arr(seq(|cs|, i requires 0 <= i < |cs| => ByCloidMap(cs[i]))))]
    case Modify(m) => ModifyEntry(m)
    case BatchModify(ms) =>
      [Field("modifies", Arr(seq(|ms|, i requires 0 <= i < |ms| => Map(ModifyEntry(ms[i])))))]
    case UpdateLeverage(asset, isCross, leverage) =>
      [Field("asset", Int(asset)), Field("isCross", Bool(isCross)), Field("leverage", Int(leverage))]
    case UpdateIsolatedMargin(asset, isBuy, ntli) =>
      [Field("asset", Int(asset)), Field("isBuy", Bool(isBuy)), Field("ntli", Int(ntli))]
    case ScheduleCancel(time) =>
      match time
      case None => []
      case Some(t) => [Field("time", Int(t))]
  }

  function Build(a: Action): Value { Map([Field("type", Str(Text(KindName(a))))] + Body(a)) }

  /** What an action asks for: a modify that names a cloid has no use for its oid. */
  function Meaning(a: Action): Action {
    match a
    case Modify(m) => Modify(Target(m))
    case BatchModify(ms) => BatchModify(seq(|ms|, i requires 0 <= i < |ms| => Target(ms[i])))
    case _ => a
  }

  function Target(m: ModifyInput): ModifyInput { if m.cloid != [] then m.(oid := 0) else m }

  /** Every action can be encoded. */
  lemma BuildsSupported(a: Action)
    ensures Supported(Build(a))
  {
    BodySupported(a);
    hide Body;
    MapSupported(Build(a).kvs);
  }

  lemma BodySupported(a: Action)
    ensures forall i :: 0 <= i < |Body(a)| ==> Supported(Body(a)[i].v)
  {
    hide Text;
    match a
    case Order(orders, _, builder) =>
      forall i | 0 <= i < |orders| ensures Supported(Map(OrderTuple(orders[i]))) { TupleSupported(orders[i]); }
      if builder.Some? { MapSupported(BuilderMap(builder.value).kvs); }
    case Cancel(cs) =>
      var xs := Body(a)[0].v.xs;
      forall i | 0 <= i < |xs| ensures Supported(xs[i]) { MapSupported(xs[i].kvs); }
    case CancelByCloid(cs) =>
      var xs := Body(a)[0].v.xs;
      forall i | 0 <= i < |xs| ensures Supported(xs[i]) { MapSupported(xs[i].kvs); }
    case TwapOrder(_, _, _, _, _, _) => MapSupported(Body(a)[0].v.kvs);
    case Modify(m) => TupleSupported(m.order);
    case BatchModify(ms) =>
      forall i | 0 <= i < |ms| ensures Supported(Map(ModifyEntry(ms[i]))) {
        TupleSupported(ms[i].order);
        MapSupported(ModifyEntry(ms[i]));
      }
    case _ =>
  }

  lemma MapSupported(kvs: seq<KV>)
    requires forall i :: 0 <= i < |kvs| ==> Supported(kvs[i].v)
    ensures Supported(Map(kvs))
  {
  }

  lemma TupleSupported(o: OrderInput)
    ensures Supported(Map(OrderTuple(o)))
  {
    var tif := [Field("tif", Str(o.tif))];
    MapSupported(tif);
    MapSupported([Field("limit", Map(tif))]);
    MapSupported(OrderTuple(o));
  }

  // ---- sizes ----

  predicate Announced(s: seq<byte>) { |s| < 0x1_0000_0000 }

  predicate OrderStrings(o: OrderInput) { Announced(o.px) && Announced(o.sz) && Announced(o.tif) && Announced(o.cloid) }

  predicate ModifyStrings(m: ModifyInput) { Announced(m.cloid) && OrderStrings(m.order) }

  /** Every string in the action is under 2^32 bytes; lists may be of any length. */
  predicate StringsAnnounced(a: Action) {
    match a
    case Order(orders, grouping, builder) =>
      (forall i :: 0 <= i < |orders| ==> OrderStrings(orders[i])) && Announced(grouping)
      && (builder.Some? ==> Announced(builder.value.address))
    case TwapOrder(_, _, sz, _, _, _) => Announced(sz)
    case CancelByCloid(cs) => forall i :: 0 <= i < |cs| ==> Announced(cs[i].cloid)
    case Modify(m) => ModifyStrings(m)
    case BatchModify(ms) => forall i :: 0 <= i < |ms| ==> ModifyStrings(ms[i])
    case _ => true
  }

  lemma MapSized(kvs: seq<KV>)
    requires |kvs| < 0x1_0000
    requires forall i :: 0 <= i < |kvs| ==> |kvs[i].k| < 0x1_0000_0000 && WellSized(kvs[i].v)
    ensures WellSized(Map(kvs))
  {
  }

  lemma TupleSized(o: OrderInput)
    requires OrderStrings(o)
    ensures WellSized(Map(OrderTuple(o)))
  {
    hide Text;
    KeysAreShort();
    var tif := [Field("tif", Str(o.tif))];
    MapSized(tif);
    MapSized([Field("limit", Map(tif))]);
    MapSized(OrderTuple(o));
  }

  lemma ModifySized(m: ModifyInput)
    requires ModifyStrings(m)
    ensures WellSized(Map(ModifyEntry(m)))
  {
    hide Text, OrderTuple;
    KeysAreShort();
    TupleSized(m.order);
    MapSized(ModifyEntry(m));
  }

  lemma KeysAreShort()
    ensures forall name: string :: |Text(name)| == |name|
  {
  }

  /** The bytes of every action say where it ends. */
  lemma BuildIsSelfDelimiting(a: Action)
    requires StringsAnnounced(a)
    ensures SelfDelimiting(Build(a))
  {
    BuildsSupported(a);
    BodySized(a);
    hide Body, WellSized, FieldSized, Text;
    KeysAreShort();
    KindNameIsShort(a);
    StrSized(Text(KindName(a)));
  }

  lemma KindNameIsShort(a: Action)
    ensures |KindName(a)| < 0x1_0000
  {
  }

  lemma StrSized(s: seq<byte>)
    requires Announced(s)
    ensures FieldSized(Str(s))
  {
  }

  predicate FieldsSized(kvs: seq<KV>) {
    |kvs| < 0xffff && forall i :: 0 <= i < |kvs| ==> |kvs[i].k| < 0x1_0000_0000 && FieldSized(kvs[i].v)
  }

  lemma ListSized(xs: seq<Value>)
    requires Maps(xs) && forall i :: 0 <= i < |xs| ==> Supported(xs[i]) && WellSized(xs[i])
    ensures FieldSized(Arr(xs))
  {
  }

  lemma BodySized(a: Action)
    requires StringsAnnounced(a)
    ensures FieldsSized(Body(a))
  {
    match a
    case Order(_, _, _) => OrdersSized(a);
    case Cancel(_) => CancelsSized(a);
    case CancelByCloid(_) => CancelsByCloidSized(a);
    case BatchModify(_) => BatchSized(a);
    case Modify(m) => EntrySized(m); ModifyBody(a); hide Body, ModifyEntry, FieldSized;
    case _ => FlatSized(a);
  }

  lemma FlatSized(a: Action)
    requires StringsAnnounced(a) && !a.Order? && !a.Cancel? && !a.CancelByCloid? && !a.BatchModify? && !a.Modify?
    ensures FieldsSized(Body(a))
  {
    hide Text;
    KeysAreShort();
    if a.TwapOrder? { MapSized(Body(a)[0].v.kvs); }
  }

  lemma OrdersSized(a: Action)
    requires a.Order? && StringsAnnounced(a)
    ensures FieldsSized(Body(a))
  {
    hide Text, OrderTuple, FieldSized, Maps, BuilderMap;
    KeysAreShort();
    var xs := Body(a)[0].v.xs;
    forall i | 0 <= i < |xs| ensures xs[i].Map? && Supported(xs[i]) && WellSized(xs[i]) {
      TupleSized(a.orders[i]);
      TupleSupported(a.orders[i]);
    }
    assert Maps(xs) by { AreMaps(xs); }
    ListSized(xs);
    StrSized(a.grouping);
    if a.builder.Some? { BuilderSized(a.builder.value); }
  }

  lemma AreMaps(xs: seq<Value>)
    requires forall i :: 0 <= i < |xs| ==> xs[i].Map?
    ensures Maps(xs)
  {
  }

  lemma BuilderSized(b: Builder)
    requires Announced(b.address)
    ensures FieldSized(BuilderMap(b))
  {
    hide Text;
    KeysAreShort();
    MapSized(BuilderMap(b).kvs);
  }

  lemma CancelsSized(a: Action)
    requires a.Cancel?
    ensures FieldsSized(Body(a))
  {
    hide Text, FieldSized;
    KeysAreShort();
    var xs := Body(a)[0].v.xs;
    forall i | 0 <= i < |xs| ensures Supported(xs[i]) && WellSized(xs[i]) {
      MapSized(xs[i].kvs);
      MapSupported(xs[i].kvs);
    }
    ListSized(xs);
  }

  lemma CancelsByCloidSized(a: Action)
    requires a.CancelByCloid? && StringsAnnounced(a)
    ensures FieldsSized(Body(a))
  {
    hide Text, FieldSized;
    KeysAreShort();
    var xs := Body(a)[0].v.xs;
    forall i | 0 <= i < |xs| ensures Supported(xs[i]) && WellSized(xs[i]) {
      MapSized(xs[i].kvs);
      MapSupported(xs[i].kvs);
    }
    ListSized(xs);
  }

  lemma BatchSized(a: Action)
    requires a.BatchModify? && StringsAnnounced(a)
    ensures FieldsSized(Body(a))
  {
    hide Text, FieldSized, ModifyEntry;
    KeysAreShort();
    BodySupported(a);
    var xs := Body(a)[0].v.xs;
    forall i | 0 <= i < |xs| ensures xs[i].Map? && Supported(xs[i]) && WellSized(xs[i]) { ModifySized(a.changes[i]); }
    ListSized(xs);
  }

  lemma EntrySized(m: ModifyInput)
    requires ModifyStrings(m)
    ensures FieldsSized(ModifyEntry(m))
  {
    hide Text, OrderTuple;
    KeysAreShort();
    TupleSized(m.order);
  }

  predicate Ascii(s: string) { forall i :: 0 <= i < |s| ==> s[i] < 128 as char }

  lemma SameText(s: string, t: string)
    requires Text(s) == Text(t) && Ascii(s) && Ascii(t)
    ensures s == t
  {
    assert |Text(s)| == |Text(t)|;
    forall i | 0 <= i < |s| ensures s[i] == t[i] {
      assert Text(s)[i] == Text(t)[i];
    }
  }

  lemma KindNameIsAscii(a: Action)
    ensures Ascii(KindName(a))
  {
  }

  /** The `type` field tells the kinds apart. */
  lemma KindNamesDiffer(a: Action, b: Action)
    requires Text(KindName(a)) == Text(KindName(b))
    ensures KindName(a) == KindName(b)
  {
    KindNameIsAscii(a);
    KindNameIsAscii(b);
    hide KindName, Ascii;
    SameText(KindName(a), KindName(b));
  }

  /** Field by field, what equal canonical maps say. */
  lemma SameField(x: Value, y: Value, i: nat)
    requires x.Map? && y.Map? && Canon(x) == Canon(y)
    ensures |x.kvs| == |y.kvs|
    ensures i < |x.kvs| ==> x.kvs[i].k == y.kvs[i].k && Canon(x.kvs[i].v) == Canon(y.kvs[i].v)
  {
    assert CanonPairs(x.kvs) == CanonPairs(y.kvs);
    if i < |x.kvs| { assert CanonPairs(x.kvs)[i] == CanonPairs(y.kvs)[i]; }
  }

  lemma SameElement(x: Value, y: Value, i: nat)
    requires x.Arr? && y.Arr? && Canon(x) == Canon(y)
    ensures |x.xs| == |y.xs|
    ensures i < |x.xs| ==> Canon(x.xs[i]) == Canon(y.xs[i])
  {
    assert CanonAll(x.xs) == CanonAll(y.xs);
    if i < |x.xs| { assert CanonAll(x.xs)[i] == CanonAll(y.xs)[i]; }
  }

  /** Entry `i` of two equal canonical maps. */
  lemma At(x: seq<KV>, y: seq<KV>, i: nat)
    requires CanonPairs(x) == CanonPairs(y) && i < |x|
    ensures |x| == |y| && x[i].k == y[i].k && Canon(x[i].v) == Canon(y[i].v)
  {
    assert CanonPairs(x)[i] == CanonPairs(y)[i];
  }

  lemma SameOrder(a: OrderInput, b: OrderInput)
    requires CanonPairs(OrderTuple(a)) == CanonPairs(OrderTuple(b))
    ensures a == b
  {
    hide Text, Canon, CanonPairs;
    var x, y := OrderTuple(a), OrderTuple(b);
    At(x, y, 0);
    At(x, y, 1);
    At(x, y, 2);
    At(x, y, 3);
    At(x, y, 4);
    At(x, y, 5);
    StrSame(x[0].v, y[0].v);
    StrSame(x[1].v, y[1].v);
    StrSame(x[2].v, y[2].v);
    StrSame(x[3].v, y[3].v);
    StrSame(x[4].v, y[4].v);
    var limitA, limitB := Map([Field("tif", Str(a.tif))]), Map([Field("tif", Str(b.tif))]);
    var tifA, tifB := Map([Field("limit", limitA)]), Map([Field("limit", limitB)]);
    assert x[5].v == tifA && y[5].v == tifB;
    SameField(tifA, tifB, 0);
    SameField(limitA, limitB, 0);
    StrSame(Str(a.tif), Str(b.tif));
    if a.cloid != [] {
      At(x, y, 6);
      StrSame(x[6].v, y[6].v);
    }
  }

  lemma SameModify(a: ModifyInput, b: ModifyInput)
    requires CanonPairs(ModifyEntry(a)) == CanonPairs(ModifyEntry(b))
    ensures Target(a) == Target(b)
  {
    At(ModifyEntry(a), ModifyEntry(b), 0);
    At(ModifyEntry(a), ModifyEntry(b), 1);
    SameOrder(a.order, b.order);
  }

  /** Integers, booleans and strings are their own meaning. */
  lemma StrSame(x: Value, y: Value)
    requires Canon(x) == Canon(y) && (x.Str? || x.Bool? || x.Int?) && (y.Str? || y.Bool? || y.Int?)
    ensures x == y
  {
  }

  lemma MapSame(x: Value, y: Value)
    requires Canon(x) == Canon(y) && x.Map? && y.Map?
    ensures CanonPairs(x.kvs) == CanonPairs(y.kvs)
  {
  }

  function BuilderMap(b: Builder): Value { Map([Field("b", Str(b.address)), Field("f", Int(b.feeTenthBps))]) }

  lemma SameBuilder(a: Builder, b: Builder)
    requires Canon(BuilderMap(a)) == Canon(BuilderMap(b))
    ensures a == b
  {
    SameField(BuilderMap(a), BuilderMap(b), 0);
    SameField(BuilderMap(a), BuilderMap(b), 1);
  }

  lemma SameOrders(a: Action, b: Action)
    requires a.Order? && b.Order? && CanonPairs(Body(a)) == CanonPairs(Body(b))
    ensures a == b
  {
    hide OrderTuple, Canon, CanonPairs, Text;
    At(Body(a), Body(b), 0);
    At(Body(a), Body(b), 1);
    StrSame(Body(a)[1].v, Body(b)[1].v);
    var x, y := Body(a)[0].v, Body(b)[0].v;
    SameElement(x, y, 0);
    forall i | 0 <= i < |a.orders| ensures a.orders[i] == b.orders[i] {
      SameElement(x, y, i);
      MapSame(x.xs[i], y.xs[i]);
      SameOrder(a.orders[i], b.orders[i]);
    }
    if a.builder.Some? {
      At(Body(a), Body(b), 2);
      SameBuilder(a.builder.value, b.builder.value);
    }
  }

  function CancelMap(c: CancelInput): Value { Map([Field("a", Int(c.asset)), Field("o", Int(c.oid))]) }

  function ByCloidMap(c: CancelByCloidInput): Value { Map([Field("asset", Int(c.asset)), Field("cloid", Str(c.cloid))]) }

  lemma SameCancels(a: Action, b: Action)
    requires a.Cancel? && b.Cancel? && CanonPairs(Body(a)) == CanonPairs(Body(b))
    ensures a == b
  {
    hide Text, Canon, CanonPairs, CancelMap;
    At(Body(a), Body(b), 0);
    var x, y := Body(a)[0].v, Body(b)[0].v;
    SameElement(x, y, 0);
    forall i | 0 <= i < |a.cancels| ensures a.cancels[i] == b.cancels[i] {
      SameElement(x, y, i);
      SameCancel(a.cancels[i], b.cancels[i]);
    }
  }

  lemma SameCancel(a: CancelInput, b: CancelInput)
    requires Canon(CancelMap(a)) == Canon(CancelMap(b))
    ensures a == b
  {
    SameField(CancelMap(a), CancelMap(b), 0);
    SameField(CancelMap(a), CancelMap(b), 1);
  }

  lemma SameByCloid(a: CancelByCloidInput, b: CancelByCloidInput)
    requires Canon(ByCloidMap(a)) == Canon(ByCloidMap(b))
    ensures a == b
  {
    SameField(ByCloidMap(a), ByCloidMap(b), 0);
    SameField(ByCloidMap(a), ByCloidMap(b), 1);
  }

  lemma SameCancelsByCloid(a: Action, b: Action)
    requires a.CancelByCloid? && b.CancelByCloid? && CanonPairs(Body(a)) == CanonPairs(Body(b))
    ensures a == b
  {
    hide Text, Canon, CanonPairs, ByCloidMap;
    At(Body(a), Body(b), 0);
    var x, y := Body(a)[0].v, Body(b)[0].v;
    SameElement(x, y, 0);
    forall i | 0 <= i < |a.byCloid| ensures a.byCloid[i] == b.byCloid[i] {
      SameElement(x, y, i);
      SameByCloid(a.byCloid[i], b.byCloid[i]);
    }
  }

  lemma SameBatch(a: Action, b: Action)
    requires a.BatchModify? && b.BatchModify? && CanonPairs(Body(a)) == CanonPairs(Body(b))
    ensures Meaning(a) == Meaning(b)
  {
    hide ModifyEntry, Canon, CanonPairs, Text;
    At(Body(a), Body(b), 0);
    var x, y := Body(a)[0].v, Body(b)[0].v;
    SameElement(x, y, 0);
    forall i | 0 <= i < |a.changes| ensures Target(a.changes[i]) == Target(b.changes[i]) {
      SameElement(x, y, i);
      MapSame(x.xs[i], y.xs[i]);
      SameModify(a.changes[i], b.changes[i]);
    }
  }

  lemma SameTwapOrder(a: Action, b: Action)
    requires a.TwapOrder? && b.TwapOrder? && CanonPairs(Body(a)) == CanonPairs(Body(b))
    ensures a == b
  {
    At(Body(a), Body(b), 0);
    var x, y := Body(a)[0].v, Body(b)[0].v;
    SameField(x, y, 0);
    SameField(x, y, 1);
    SameField(x, y, 2);
    SameField(x, y, 3);
    SameField(x, y, 4);
    SameField(x, y, 5);
  }

  lemma SameFlat(a: Action, b: Action)
    requires KindName(a) == KindName(b) && CanonPairs(Body(a)) == CanonPairs(Body(b))
    requires a.TwapCancel? || a.UpdateLeverage? || a.UpdateIsolatedMargin? || a.ScheduleCancel?
    ensures a == b
  {
    SameKind(a, b);
    hide Canon, CanonPairs, Text, KindName;
    assert |CanonPairs(Body(a))| == |CanonPairs(Body(b))|;
    if Body(a) != [] { At(Body(a), Body(b), 0); StrSame(Body(a)[0].v, Body(b)[0].v); }
    if |Body(a)| > 1 { At(Body(a), Body(b), 1); StrSame(Body(a)[1].v, Body(b)[1].v); }
    if |Body(a)| > 2 { At(Body(a), Body(b), 2); StrSame(Body(a)[2].v, Body(b)[2].v); }
  }

  lemma SameKind(a: Action, b: Action)
    requires KindName(a) == KindName(b)
    ensures a.Order? == b.Order? && a.Cancel? == b.Cancel? && a.TwapOrder? == b.TwapOrder? && a.TwapCancel? == b.TwapCancel?
    ensures a.CancelByCloid? == b.CancelByCloid? && a.Modify? == b.Modify? && a.BatchModify? == b.BatchModify?
    ensures a.UpdateLeverage? == b.UpdateLeverage? && a.UpdateIsolatedMargin? == b.UpdateIsolatedMargin?
    ensures a.ScheduleCancel? == b.ScheduleCancel?
  {
    assert "cancel"[0] != "modify"[0] && "updateLeverage"[0] != "scheduleCancel"[0];
  }

  /** Actions of any two kinds that build the same canonical map ask for the same thing. */
  lemma SameBuildSameMeaning(a: Action, b: Action)
    requires Canon(Build(a)) == Canon(Build(b))
    ensures Meaning(a) == Meaning(b)
  {
    hide Body, Text, KindName;
    SameField(Build(a), Build(b), 0);
    KindNamesDiffer(a, b);
    SameKind(a, b);
    var x, y := Build(a).kvs, Build(b).kvs;
    assert x[1..] == Body(a) && y[1..] == Body(b);
    assert CanonPairs(x)[1..] == CanonPairs(Body(a)) && CanonPairs(y)[1..] == CanonPairs(Body(b));
    match a
    case Order(_, _, _) => SameOrders(a, b);
    case Cancel(_) => SameCancels(a, b);
    case CancelByCloid(_) => SameCancelsByCloid(a, b);
    case TwapOrder(_, _, _, _, _, _) => SameTwapOrder(a, b);
    case Modify(_) => ModifyBody(a); ModifyBody(b); SameModify(a.change, b.change);
    case BatchModify(_) => SameBatch(a, b);
    case _ => SameFlat(a, b);
  }

  lemma ModifyBody(a: Action)
    requires a.Modify?
    ensures Body(a) == ModifyEntry(a.change)
  {
  }

  /** The bytes that are hashed and signed determine the action: if two encodings agree, up to
      less than 65536 bytes of other content behind them, the actions are of the same kind and ask
      for the same thing, field by field, and the rest agrees too. Lists may be of any length. */
  lemma SameBytesSameMeaning(a: Action, b: Action, x: seq<byte>, y: seq<byte>)
    requires StringsAnnounced(a) && StringsAnnounced(b) && |x| < 0x1_0000 && |y| < 0x1_0000
    requires Enc(Build(a)) + x == Enc(Build(b)) + y
    ensures Meaning(a) == Meaning(b) && x == y
  {
    hide Enc, Build, Meaning, SelfDelimiting;
    BuildIsSelfDelimiting(a);
    BuildIsSelfDelimiting(b);
    Unambiguous(Build(a), Build(b), x, y);
    SameBuildSameMeaning(a, b);
  }
}
