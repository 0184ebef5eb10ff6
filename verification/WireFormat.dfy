/** Reading a signed action back out of its bytes, by the names the exchange gives the fields. */
module WireFormat {
  import opened Numbers
  import opened Wrappers
  import opened Actions
  import opened LongArrays
  import opened Msgpack

  // ---- looking fields up ----

  function Name(k: seq<byte>): string { seq(|k|, i requires 0 <= i < |k| => k[i] as char) }

  /** The names of a map's fields, in their order. */
  function Names(v: Value): seq<string> {
    if v.Map? then seq(|v.kvs|, i requires 0 <= i < |v.kvs| => Name(v.kvs[i].k)) else []
  }

  function Find(kvs: seq<KV>, name: string): Option<Value> {
    if kvs == [] then None else if Name(kvs[0].k) == name then Some(kvs[0].v) else Find(kvs[1..], name)
  }

  /** The first field of that name. */
  function Get(v: Value, name: string): Option<Value> { if v.Map? then Find(v.kvs, name) else None }

  predicate HasInt(v: Value, name: string, i: int64) { Get(v, name) == Some(if i >= 0 then Uint(i) else Int(i)) }

  predicate HasBool(v: Value, name: string, b: bool) { Get(v, name) == Some(Bool(b)) }

  predicate HasStr(v: Value, name: string, s: seq<byte>) { Get(v, name) == Some(Str(s)) }

  predicate HasMap(v: Value, name: string) { Get(v, name).Some? && Get(v, name).value.Map? }

  predicate HasList(v: Value, name: string, n: nat) {
    Get(v, name).Some? && Get(v, name).value.Arr? && |Get(v, name).value.xs| == n
  }

  // ---- what the exchange reads ----

  predicate ReadsOrder(v: Value, o: OrderInput) {
    && Names(v) == ["a", "b", "p", "s", "r", "t"] + (if o.cloid == [] then [] else ["c"])
    && HasInt(v, "a", o.asset) && HasBool(v, "b", o.isBuy) && HasStr(v, "p", o.px) && HasStr(v, "s", o.sz)
    && HasBool(v, "r", o.reduceOnly) && HasMap(v, "t") && ReadsTif(Get(v, "t").value, o.tif)
    && (if o.cloid == [] then Get(v, "c") == None else HasStr(v, "c", o.cloid))
  }

  predicate ReadsTif(v: Value, tif: seq<byte>) {
    && Names(v) == ["limit"] && HasMap(v, "limit")
    && var limit := Get(v, "limit").value; Names(limit) == ["tif"] && HasStr(limit, "tif", tif)
  }

  /** The order to change is named by cloid if there is one, else by number. */
  predicate ReadsModify(v: Value, m: ModifyInput) {
    && (if m.cloid == [] then HasInt(v, "oid", m.oid) else HasStr(v, "oid", m.cloid))
    && HasMap(v, "order") && ReadsOrder(Get(v, "order").value, m.order)
  }

  predicate ReadsCancel(v: Value, c: CancelInput) { Names(v) == ["a", "o"] && HasInt(v, "a", c.asset) && HasInt(v, "o", c.oid) }

  predicate ReadsByCloid(v: Value, c: CancelByCloidInput) {
    Names(v) == ["asset", "cloid"] && HasInt(v, "asset", c.asset) && HasStr(v, "cloid", c.cloid)
  }

  predicate ReadsBuilder(v: Value, b: Builder) {
    Names(v) == ["b", "f"] && HasStr(v, "b", b.address) && HasInt(v, "f", b.feeTenthBps)
  }

  predicate ReadsTwap(v: Value, a: Action)
    requires a.TwapOrder?
  {
    && Names(v) == ["a", "b", "s", "r", "m", "t"]
    && HasInt(v, "a", a.asset) && HasBool(v, "b", a.isBuy) && HasStr(v, "s", a.sz) && HasBool(v, "r", a.reduceOnly)
    && HasInt(v, "m", a.minutes) && HasBool(v, "t", a.randomize)
  }

  /** The kind and, in this order, these fields after it. */
  predicate Shape(v: Value, kind: string, fields: seq<string>) {
    && Names(v) == ["type"] + fields
    && Get(v, "type").Some? && Get(v, "type").value.Str? && Name(Get(v, "type").value.s) == kind
  }

  /** The map says what the action says, field by field. */
  predicate Reads(v: Value, a: Action) {
    match a
    case Order(orders, grouping, builder) =>
      && Shape(v, "order", ["orders", "grouping"] + (if builder.None? then [] else ["builder"]))
      && HasList(v, "orders", |orders|)
      && (forall i :: 0 <= i < |orders| ==> ReadsOrder(Get(v, "orders").value.xs[i], orders[i]))
      && HasStr(v, "grouping", grouping)
      && (if builder.None? then Get(v, "builder") == None
          else HasMap(v, "builder") && ReadsBuilder(Get(v, "builder").value, builder.value))
    case Cancel(cs) =>
      && Shape(v, "cancel", ["cancels"]) && HasList(v, "cancels", |cs|)
      && forall i :: 0 <= i < |cs| ==> ReadsCancel(Get(v, "cancels").value.xs[i], cs[i])
    case TwapOrder(_, _, _, _, _, _) =>
      Shape(v, "twapOrder", ["twap"]) && HasMap(v, "twap") && ReadsTwap(Get(v, "twap").value, a)
    case TwapCancel(asset, twapId) =>
      Shape(v, "twapCancel", ["a", "t"]) && HasInt(v, "a", asset) && HasInt(v, "t", twapId)
    case CancelByCloid(cs) =>
      && Shape(v, "cancelByCloid", ["cancels"]) && HasList(v, "cancels", |cs|)
      && forall i :: 0 <= i < |cs| ==> ReadsByCloid(Get(v, "cancels").value.xs[i], cs[i])
    case Modify(m) => Shape(v, "modify", ["oid", "order"]) && ReadsModify(v, m)
    case BatchModify(ms) =>
      && Shape(v, "batchModify", ["modifies"]) && HasList(v, "modifies", |ms|)
      && forall i :: 0 <= i < |ms| ==>
           Names(Get(v, "modifies").value.xs[i]) == ["oid", "order"] && ReadsModify(Get(v, "modifies").value.xs[i], ms[i])
    case UpdateLeverage(asset, isCross, leverage) =>
      && Shape(v, "updateLeverage", ["asset", "isCross", "leverage"])
      && HasInt(v, "asset", asset) && HasBool(v, "isCross", isCross) && HasInt(v, "leverage", leverage)
    case UpdateIsolatedMargin(asset, isBuy, ntli) =>
      && Shape(v, "updateIsolatedMargin", ["asset", "isBuy", "ntli"])
      && HasInt(v, "asset", asset) && HasBool(v, "isBuy", isBuy) && HasInt(v, "ntli", ntli)
    case ScheduleCancel(time) =>
      && Shape(v, "scheduleCancel", if time.None? then [] else ["time"])
      && (if time.None? then Get(v, "time") == None else HasInt(v, "time", time.value))
  }

  // ---- that it is there to be read ----

  predicate Distinct(names: seq<string>) { forall i, j :: 0 <= i < j < |names| ==> names[i] != names[j] }

  /** Fields written under these names, in this order. */
  predicate Written(kvs: seq<KV>, names: seq<string>) {
    |kvs| == |names| && forall i :: 0 <= i < |names| ==> kvs[i].k == Text(names[i]) && Ascii(names[i])
  }

  lemma NameOfText(s: string)
    requires Ascii(s)
    ensures Name(Text(s)) == s
  {
  }

  lemma {:induction false} FindsFirst(kvs: seq<KV>, name: string, i: nat)
    requires i <= |kvs| && forall j :: 0 <= j < i ==> Name(kvs[j].k) != name
    ensures i < |kvs| && Name(kvs[i].k) == name ==> Find(kvs, name) == Some(kvs[i].v)
    ensures i == |kvs| ==> Find(kvs, name) == None
  {
    if i > 0 {
      FindsFirst(kvs[1..], name, i - 1);
    }
  }

  /** Fields written under distinct names are found under them, in their order, and nothing else is. */
  lemma MapReads(kvs: seq<KV>, names: seq<string>)
    requires Written(kvs, names) && Distinct(names)
    ensures var v := Canon(Map(kvs));
      && v.Map? && Names(v) == names
      && (forall i :: 0 <= i < |names| ==> Get(v, names[i]) == Some(Canon(kvs[i].v)))
      && (forall name :: name !in names ==> Get(v, name) == None)
  {
    hide Text, Ascii, Name;
    var v := Canon(Map(kvs));
    forall i | 0 <= i < |names| ensures Name(v.kvs[i].k) == names[i] {
      NameOfText(names[i]);
    }
    forall i | 0 <= i < |names| ensures Get(v, names[i]) == Some(Canon(kvs[i].v)) {
      FindsFirst(v.kvs, names[i], i);
    }
    forall name | name !in names ensures Get(v, name) == None {
      FindsFirst(v.kvs, name, |names|);
    }
    hide *;
  }

  lemma OrderNames(o: OrderInput) returns (names: seq<string>)
    ensures names == ["a", "b", "p", "s", "r", "t"] + (if o.cloid == [] then [] else ["c"])
    ensures Written(OrderTuple(o), names) && Distinct(names)
  {
    hide Text;
    names := ["a", "b", "p", "s", "r", "t"] + (if o.cloid == [] then [] else ["c"]);
    assert forall i :: 0 <= i < |names| ==> |names[i]| == 1;
    assert forall i, j :: 0 <= i < j < |names| ==> names[i][0] != names[j][0];
  }

  lemma TifReads(o: OrderInput)
    ensures var v := Canon(Map([Field("limit", Map([Field("tif", Str(o.tif))]))]));
      v.Map? && ReadsTif(v, o.tif)
  {
    hide Text, Canon, Get, Names;
    var tif := [Field("tif", Str(o.tif))];
    var limit := [Field("limit", Map(tif))];
    MapReads(tif, ["tif"]);
    MapReads(limit, ["limit"]);
    assert ["limit"][0] == "limit" && ["tif"][0] == "tif";
    CanonOf(Str(o.tif));
  }

  /** Integers, booleans and strings survive decoding as they are. */
  lemma CanonOf(v: Value)
    ensures v.Str? || v.Bool? ==> Canon(v) == v
    ensures v.Int? ==> Canon(v) == if v.i >= 0 then Uint(v.i) else v
    ensures v.Map? ==> Canon(v).Map?
    ensures v.Arr? ==> Canon(v).Arr? && |Canon(v).xs| == |v.xs| && forall i :: 0 <= i < |v.xs| ==> Canon(v).xs[i] == Canon(v.xs[i])
  {
  }

  lemma TupleFields(o: OrderInput)
    ensures var kvs := OrderTuple(o);
      && |kvs| == (if o.cloid == [] then 6 else 7)
      && kvs[0].v == Int(o.asset) && kvs[1].v == Bool(o.isBuy) && kvs[2].v == Str(o.px) && kvs[3].v == Str(o.sz)
      && kvs[4].v == Bool(o.reduceOnly) && kvs[5].v == Map([Field("limit", Map([Field("tif", Str(o.tif))]))])
      && (o.cloid != [] ==> kvs[6].v == Str(o.cloid))
  {
    hide Text;
  }

  lemma OrderReads(o: OrderInput)
    ensures ReadsOrder(Canon(Map(OrderTuple(o))), o)
  {
    hide Text, Canon, Get, Names, ReadsTif, Written, Distinct, OrderTuple, Field;
    var kvs := OrderTuple(o);
    var names := OrderNames(o);
    TupleFields(o);
    MapReads(kvs, names);
    var v := Canon(Map(kvs));
    assert names[0] == "a" && names[1] == "b" && names[2] == "p" && names[3] == "s" && names[4] == "r" && names[5] == "t";
    CanonOf(kvs[0].v);
    CanonOf(kvs[1].v);
    CanonOf(kvs[2].v);
    CanonOf(kvs[3].v);
    CanonOf(kvs[4].v);
    TifReads(o);
    if o.cloid == [] {
      assert forall i :: 0 <= i < |names| ==> names[i][0] != 'c';
      assert "c" !in names;
    } else {
      assert names[6] == "c";
      CanonOf(kvs[6].v);
    }
  }

  /** A map of two fields. */
  lemma PairReads(kvs: seq<KV>, a: string, b: string)
    requires Written(kvs, [a, b]) && a != b
    ensures var v := Canon(Map(kvs));
      v.Map? && Names(v) == [a, b] && Get(v, a) == Some(Canon(kvs[0].v)) && Get(v, b) == Some(Canon(kvs[1].v))
  {
    hide Text, Canon, Get, Names, Ascii;
    MapReads(kvs, [a, b]);
    assert [a, b][0] == a && [a, b][1] == b;
  }

  lemma CancelReads(c: CancelInput)
    ensures ReadsCancel(Canon(CancelMap(c)), c)
  {
    hide Text, Canon, Get, Names;
    PairReads(CancelMap(c).kvs, "a", "o");
    CanonOf(Int(c.asset));
    CanonOf(Int(c.oid));
  }

  lemma ByCloidReads(c: CancelByCloidInput)
    ensures ReadsByCloid(Canon(ByCloidMap(c)), c)
  {
    hide Text, Canon, Get, Names;
    PairReads(ByCloidMap(c).kvs, "asset", "cloid");
    CanonOf(Int(c.asset));
    CanonOf(Str(c.cloid));
  }

  lemma BuilderReads(b: Builder)
    ensures Canon(BuilderMap(b)).Map? && ReadsBuilder(Canon(BuilderMap(b)), b)
  {
    hide Text, Canon, Get, Names;
    PairReads(BuilderMap(b).kvs, "b", "f");
    CanonOf(Str(b.address));
    CanonOf(Int(b.feeTenthBps));
  }

  /** The values of a modify, wherever its two fields stand. */
  lemma EntryReads(v: Value, m: ModifyInput)
    requires Get(v, "oid") == Some(Canon(ModifyEntry(m)[0].v)) && Get(v, "order") == Some(Canon(ModifyEntry(m)[1].v))
    ensures ReadsModify(v, m)
  {
    hide Text, Canon, Get, ReadsOrder, OrderTuple;
    CanonOf(ModifyEntry(m)[0].v);
    CanonOf(ModifyEntry(m)[1].v);
    OrderReads(m.order);
  }

  lemma EntryWritten(m: ModifyInput)
    ensures Written(ModifyEntry(m), ["oid", "order"])
  {
    hide Text;
  }

  lemma ModifyReads(m: ModifyInput)
    ensures var v := Canon(Map(ModifyEntry(m))); Names(v) == ["oid", "order"] && ReadsModify(v, m)
  {
    hide Text, Canon, Get, Names, ModifyEntry, ReadsModify, Written;
    EntryWritten(m);
    PairReads(ModifyEntry(m), "oid", "order");
    EntryReads(Canon(Map(ModifyEntry(m))), m);
  }

  lemma TwapWritten(a: Action) returns (names: seq<string>)
    requires a.TwapOrder?
    ensures names == ["a", "b", "s", "r", "m", "t"]
    ensures Body(a)[0].v.Map? && Written(Body(a)[0].v.kvs, names) && Distinct(names)
  {
    hide Text;
    names := ["a", "b", "s", "r", "m", "t"];
    assert forall i :: 0 <= i < |names| ==> |names[i]| == 1;
    assert forall i, j :: 0 <= i < j < |names| ==> names[i][0] != names[j][0];
  }

  lemma TwapFields(a: Action)
    requires a.TwapOrder?
    ensures |Body(a)| == 1 && Body(a)[0].v.Map?
    ensures var kvs := Body(a)[0].v.kvs;
      && |kvs| == 6 && kvs[0].v == Int(a.asset) && kvs[1].v == Bool(a.isBuy) && kvs[2].v == Str(a.sz)
      && kvs[3].v == Bool(a.reduceOnly) && kvs[4].v == Int(a.minutes) && kvs[5].v == Bool(a.randomize)
  {
    hide Text;
  }

  lemma TwapReads(a: Action)
    requires a.TwapOrder?
    ensures var v := Canon(Body(a)[0].v); v.Map? && ReadsTwap(v, a)
  {
    hide Text, Canon, Get, Names, Body, Written, Distinct;
    TwapFields(a);
    var names := TwapWritten(a);
    var kvs := Body(a)[0].v.kvs;
    MapReads(kvs, names);
    assert names[0] == "a" && names[1] == "b" && names[2] == "s" && names[3] == "r" && names[4] == "m" && names[5] == "t";
    CanonOf(kvs[0].v);
    CanonOf(kvs[1].v);
    CanonOf(kvs[2].v);
    CanonOf(kvs[3].v);
    CanonOf(kvs[4].v);
    CanonOf(kvs[5].v);
  }

  /** The kind comes first, and the body's fields follow. */
  lemma BuildReads(a: Action, names: seq<string>)
    requires Written(Body(a), names) && Distinct(["type"] + names)
    ensures var v := Canon(Build(a));
      && Shape(v, KindName(a), names)
      && (forall i :: 0 <= i < |names| ==> Get(v, names[i]) == Some(Canon(Body(a)[i].v)))
      && (forall name :: name != "type" && name !in names ==> Get(v, name) == None)
  {
    hide Body, Canon, Get, Names, KindName, Text;
    var all := ["type"] + names;
    var kvs := Build(a).kvs;
    assert kvs[1..] == Body(a) && kvs[0] == Field("type", Str(Text(KindName(a))));
    assert Ascii("type");
    assert forall i :: 0 < i < |all| ==> all[i] == names[i - 1] && kvs[i] == Body(a)[i - 1];
    MapReads(kvs, all);
    assert all[0] == "type";
    CanonOf(kvs[0].v);
    KindNameIsAscii(a);
    NameOfText(KindName(a));
    var v := Canon(Build(a));
    forall i | 0 <= i < |names| ensures Get(v, names[i]) == Some(Canon(Body(a)[i].v)) {
      assert Get(v, all[i + 1]) == Some(Canon(kvs[i + 1].v));
    }
  }

  /** The names of the fields after `type`. */
  function BodyNames(a: Action): seq<string> {
    match a
    case Order(_, _, builder) => ["orders", "grouping"] + (if builder.None? then [] else ["builder"])
    case Cancel(_) => ["cancels"]
    case TwapOrder(_, _, _, _, _, _) => ["twap"]
    case TwapCancel(_, _) => ["a", "t"]
    case CancelByCloid(_) => ["cancels"]
    case Modify(_) => ["oid", "order"]
    case BatchModify(_) => ["modifies"]
    case UpdateLeverage(_, _, _) => ["asset", "isCross", "leverage"]
    case UpdateIsolatedMargin(_, _, _) => ["asset", "isBuy", "ntli"]
    case ScheduleCancel(time) => if time.None? then [] else ["time"]
  }

  lemma BodyWritten(a: Action)
    ensures Written(Body(a), BodyNames(a))
  {
    hide Text, OrderTuple;
  }

  lemma BodyNamesDistinct(a: Action)
    ensures Distinct(["type"] + BodyNames(a))
  {
    var names := ["type"] + BodyNames(a);
  }

  lemma OrdersRead(a: Action)
    requires a.Order?
    ensures Reads(Canon(Build(a)), a)
  {
    hide Text, Canon, Get, Names, ReadsOrder, ReadsBuilder, OrderTuple, BuilderMap, Written, Distinct;
    BodyWritten(a);
    BodyNamesDistinct(a);
    var names, v := BodyNames(a), Canon(Build(a));
    BuildReads(a, names);
    assert names[0] == "orders" && names[1] == "grouping";
    CanonOf(Body(a)[0].v);
    CanonOf(Body(a)[1].v);
    forall i | 0 <= i < |a.orders| ensures ReadsOrder(Get(v, "orders").value.xs[i], a.orders[i]) { OrderReads(a.orders[i]); }
    if a.builder.Some? {
      assert names[2] == "builder";
      BuilderReads(a.builder.value);
    }
  }

  lemma CancelsRead(a: Action)
    requires a.Cancel? || a.CancelByCloid?
    ensures Reads(Canon(Build(a)), a)
  {
    hide Text, Canon, Get, Names, ReadsCancel, ReadsByCloid, CancelMap, ByCloidMap, Written, Distinct;
    BodyWritten(a);
    BodyNamesDistinct(a);
    var names, v := BodyNames(a), Canon(Build(a));
    BuildReads(a, names);
    assert names[0] == "cancels";
    CanonOf(Body(a)[0].v);
    if a.Cancel? {
      forall i | 0 <= i < |a.cancels| ensures ReadsCancel(Get(v, "cancels").value.xs[i], a.cancels[i]) { CancelReads(a.cancels[i]); }
    } else {
      forall i | 0 <= i < |a.byCloid| ensures ReadsByCloid(Get(v, "cancels").value.xs[i], a.byCloid[i]) { ByCloidReads(a.byCloid[i]); }
    }
  }

  lemma ModifiesRead(a: Action)
    requires a.Modify? || a.BatchModify?
    ensures Reads(Canon(Build(a)), a)
  {
    hide Text, Canon, Get, Names, ReadsModify, ModifyEntry, Written, Distinct;
    BodyWritten(a);
    BodyNamesDistinct(a);
    var names, v := BodyNames(a), Canon(Build(a));
    BuildReads(a, names);
    if a.Modify? {
      assert names[0] == "oid" && names[1] == "order";
      ModifyBody(a);
      EntryReads(v, a.change);
    } else {
      assert names[0] == "modifies";
      CanonOf(Body(a)[0].v);
      forall i | 0 <= i < |a.changes|
        ensures Names(Get(v, "modifies").value.xs[i]) == ["oid", "order"] && ReadsModify(Get(v, "modifies").value.xs[i], a.changes[i])
      {
        ModifyReads(a.changes[i]);
      }
    }
  }

  lemma TwapRead(a: Action)
    requires a.TwapOrder?
    ensures Reads(Canon(Build(a)), a)
  {
    hide Text, Canon, Get, Names, ReadsTwap, Written, Distinct, Body;
    BodyWritten(a);
    BodyNamesDistinct(a);
    BuildReads(a, ["twap"]);
    assert ["twap"][0] == "twap";
    TwapReads(a);
  }

  lemma MarginRead(a: Action)
    requires a.UpdateLeverage? || a.UpdateIsolatedMargin?
    ensures Reads(Canon(Build(a)), a)
  {
    hide Text, Canon, Get, Names, Written, Distinct, KindName;
    BodyWritten(a);
    BodyNamesDistinct(a);
    var names := BodyNames(a);
    BuildReads(a, names);
    KindNameOf(a);
    assert names[0] == "asset" && |names| == 3;
    CanonOf(Body(a)[0].v);
    CanonOf(Body(a)[1].v);
    CanonOf(Body(a)[2].v);
    assert Get(Canon(Build(a)), names[1]) == Some(Canon(Body(a)[1].v)) && Get(Canon(Build(a)), names[2]) == Some(Canon(Body(a)[2].v));
    hide Body;
  }

  lemma KindNameOf(a: Action)
    ensures a.UpdateLeverage? ==> KindName(a) == "updateLeverage"
    ensures a.UpdateIsolatedMargin? ==> KindName(a) == "updateIsolatedMargin"
    ensures a.TwapCancel? ==> KindName(a) == "twapCancel"
    ensures a.ScheduleCancel? ==> KindName(a) == "scheduleCancel"
  {
  }

  lemma TimerRead(a: Action)
    requires a.TwapCancel? || a.ScheduleCancel?
    ensures Reads(Canon(Build(a)), a)
  {
    hide Text, Canon, Get, Names, Written, Distinct, KindName;
    BodyWritten(a);
    BodyNamesDistinct(a);
    var names := BodyNames(a);
    BuildReads(a, names);
    KindNameOf(a);
    if a.TwapCancel? {
      assert names[0] == "a" && names[1] == "t";
      CanonOf(Body(a)[0].v);
      CanonOf(Body(a)[1].v);
    } else if a.time.Some? {
      assert names[0] == "time";
      CanonOf(Body(a)[0].v);
    } else {
      assert "time" != "type" by { assert "time"[1] != "type"[1]; }
    }
  }

  /** Lists that a 16-bit header can announce. */
  predicate ListsAnnounced(a: Action) {
    match a
    case Order(orders, _, _) => |orders| < 0x1_0000
    case Cancel(cs) => |cs| < 0x1_0000
    case CancelByCloid(cs) => |cs| < 0x1_0000
    case BatchModify(ms) => |ms| < 0x1_0000
    case _ => true
  }

  lemma BuildSized(a: Action)
    requires StringsAnnounced(a) && ListsAnnounced(a)
    ensures WellSized(Build(a))
  {
    BuildIsSelfDelimiting(a);
    hide Text;
    forall i | 0 <= i < |Body(a)| ensures WellSized(Body(a)[i].v) {
      assert Build(a).kvs[i + 1] == Body(a)[i];
      assert FieldSized(Body(a)[i].v);
    }
  }

  /** The signed bytes say what the action says: decoded by the format's own rules and read by the
      exchange's names, they give every field of the action under its name, in the exchange's order,
      optional fields exactly when given, and nothing more. */
  lemma BytesReadByName(a: Action, rest: seq<byte>)
    requires StringsAnnounced(a) && ListsAnnounced(a)
    ensures var p := Dec(Enc(Build(a)) + rest);
      p.Got? && p.rest == rest && Reads(p.value, a)
  {
    hide Dec, Enc, Build, Reads, Canon, WellSized, Supported;
    BuildsSupported(a);
    BuildSized(a);
    RoundTrip(Build(a), rest);
    match a
    case Order(_, _, _) => OrdersRead(a);
    case Cancel(_) => CancelsRead(a);
    case CancelByCloid(_) => CancelsRead(a);
    case Modify(_) => ModifiesRead(a);
    case BatchModify(_) => ModifiesRead(a);
    case TwapOrder(_, _, _, _, _, _) => TwapRead(a);
    case UpdateLeverage(_, _, _) => MarginRead(a);
    case UpdateIsolatedMargin(_, _, _) => MarginRead(a);
    case _ => TimerRead(a);
  }

  // ---- nothing is left unsaid ----

  lemma ReadsKind(v: Value, a: Action)
    requires Reads(v, a)
    ensures Get(v, "type").Some? && Get(v, "type").value.Str? && Name(Get(v, "type").value.s) == KindName(a)
  {
    hide Get, Names, ReadsOrder, ReadsBuilder, ReadsCancel, ReadsByCloid, ReadsModify, ReadsTwap, Name, HasList, HasMap;
    hide HasInt, HasStr, HasBool;
  }

  lemma SameOrderRead(v: Value, a: OrderInput, b: OrderInput)
    requires ReadsOrder(v, a) && ReadsOrder(v, b)
    ensures a == b
  {
    hide Get, Names;
  }

  lemma SameModifyRead(v: Value, a: ModifyInput, b: ModifyInput)
    requires ReadsModify(v, a) && ReadsModify(v, b)
    ensures Target(a) == Target(b)
  {
    hide Get, Names, ReadsOrder;
    SameOrderRead(Get(v, "order").value, a.order, b.order);
  }

  /** What is read leaves nothing open: actions that one map can be read as ask for the same thing. */
  lemma ReadingDetermines(v: Value, a: Action, b: Action)
    requires Reads(v, a) && Reads(v, b)
    ensures Meaning(a) == Meaning(b)
  {
    hide Get, Names, ReadsOrder, ReadsModify, KindName, Name;
    ReadsKind(v, a);
    ReadsKind(v, b);
    SameKind(a, b);
    match a
    case Order(_, _, _) =>
      forall i | 0 <= i < |a.orders| ensures a.orders[i] == b.orders[i] {
        SameOrderRead(Get(v, "orders").value.xs[i], a.orders[i], b.orders[i]);
      }
    case Modify(_) => SameModifyRead(v, a.change, b.change);
    case BatchModify(_) =>
      forall i | 0 <= i < |a.changes| ensures Target(a.changes[i]) == Target(b.changes[i]) {
        SameModifyRead(Get(v, "modifies").value.xs[i], a.changes[i], b.changes[i]);
      }
    case Cancel(_) =>
      forall i | 0 <= i < |a.cancels| ensures a.cancels[i] == b.cancels[i] {
        assert ReadsCancel(Get(v, "cancels").value.xs[i], a.cancels[i]) && ReadsCancel(Get(v, "cancels").value.xs[i], b.cancels[i]);
      }
    case CancelByCloid(_) =>
      forall i | 0 <= i < |a.byCloid| ensures a.byCloid[i] == b.byCloid[i] {
        assert ReadsByCloid(Get(v, "cancels").value.xs[i], a.byCloid[i]) && ReadsByCloid(Get(v, "cancels").value.xs[i], b.byCloid[i]);
      }
    case _ =>
  }
}
