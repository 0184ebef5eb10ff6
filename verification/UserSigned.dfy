/** EIP-712 digests of user-signed actions, and that a digest pins down the message. */
module UserSigned {
  import opened Numbers
  import opened Wrappers
  import opened Msgpack
  import opened L1Hash
  import Actions

  datatype Field = Field(name: seq<byte>, typ: seq<byte>)

  datatype Val = S(s: seq<byte>) | U(u: uint64) | B(b: bool) | Other

  type Message = map<seq<byte>, Val>

  // ---- addresses ----

  function Lower(s: seq<byte>): seq<byte> {
    seq(|s|, i requires 0 <= i < |s| => if 65 <= s[i] <= 90 then s[i] + 32 else s[i])
  }

  function TrimPrefix(s: seq<byte>, prefix: seq<byte>): seq<byte> { if prefix <= s then s[|prefix|..] else s }

  /** An address up to letter case and 0x prefix. */
  function Bare(s: seq<byte>): seq<byte> { TrimPrefix(Lower(s), Actions.Text("0x")) }

  function HexVal(c: byte): Option<byte> {
    if 48 <= c <= 57 then Some(c - 48)
    else if 97 <= c <= 102 then Some(c - 87)
    else if 65 <= c <= 70 then Some(c - 55)
    else None
  }

  function HexDecode(s: seq<byte>): Option<seq<byte>> {
    if s == [] then Some([])
    else if |s| == 1 then None
    else
      match (HexVal(s[0]), HexVal(s[1]), HexDecode(s[2..]))
      case (Some(hi), Some(lo), Some(rest)) => Some([hi * 16 + lo] + rest)
      case _ => None
  }

  predicate NoUpper(s: seq<byte>) { forall i :: 0 <= i < |s| ==> !(65 <= s[i] <= 90) }

  lemma {:induction false} HexUnambiguous(a: seq<byte>, b: seq<byte>)
    requires NoUpper(a) && NoUpper(b) && HexDecode(a).Some? && HexDecode(a) == HexDecode(b)
    ensures a == b
  {
    if |a| >= 2 && |b| >= 2 {
      HexStep(a);
      HexStep(b);
      hide HexDecode;
      DigitsUnambiguous(a[0], a[1], b[0], b[1]);
      HexUnambiguous(a[2..], b[2..]);
      hide HexVal;
      assert a == [a[0], a[1]] + a[2..] && b == [b[0], b[1]] + b[2..];
    }
  }

  lemma HexStep(a: seq<byte>)
    requires |a| >= 2 && HexDecode(a).Some?
    ensures HexVal(a[0]).Some? && HexVal(a[1]).Some? && HexDecode(a[2..]).Some? && HexDecode(a).value != []
    ensures HexDecode(a).value[0] == HexVal(a[0]).value * 16 + HexVal(a[1]).value
    ensures HexDecode(a).value[1..] == HexDecode(a[2..]).value
  {
  }

  lemma DigitsUnambiguous(a: byte, b: byte, c: byte, d: byte)
    requires !(65 <= a <= 90) && !(65 <= b <= 90) && !(65 <= c <= 90) && !(65 <= d <= 90)
    requires HexVal(a).Some? && HexVal(b).Some? && HexVal(c).Some? && HexVal(d).Some?
    requires HexVal(a).value * 16 + HexVal(b).value == HexVal(c).value * 16 + HexVal(d).value
    ensures a == c && b == d
  {
  }

  lemma BareNoUpper(s: seq<byte>)
    ensures NoUpper(Bare(s))
  {
  }

  // ---- fields ----

  /** A 32-byte word, left-padded. */
  function Word(n: nat): seq<byte> { BE(32, n) }

  const ZEROS12: seq<byte> := [0, 0, 0, 0, 0, 0, 0, 0, 0, 0, 0, 0]

  /** One field value as a 32-byte word; a value of the wrong shape is an error. */
  function EncodeField(keccak: Hash, f: Field, v: Val): Option<seq<byte>> {
    if f.typ == Actions.Text("string") then
      if v.S? then Some(keccak(v.s)) else None
    else if f.typ == Actions.Text("address") then
      if !v.S? then None
      else
        match HexDecode(Bare(v.s))
        case Some(bytes) => if |bytes| == 20 then Some(ZEROS12 + bytes) else None
        case None => None
    else if f.typ == Actions.Text("uint64") then
      if v.U? then Some(Word(v.u)) else None
    else if f.typ == Actions.Text("bool") then
      if v.B? then Some(Word(if v.b then 1 else 0)) else None
    else None
  }

  /** Equal values as far as the type is concerned. */
  predicate SameValue(f: Field, v: Val, w: Val) {
    v == w || (f.typ == Actions.Text("address") && v.S? && w.S? && Bare(v.s) == Bare(w.s))
  }

  lemma Length32(keccak: Hash, f: Field, v: Val)
    requires Is32(keccak)
    ensures EncodeField(keccak, f, v).Some? ==> |EncodeField(keccak, f, v).value| == 32
  {
  }

  lemma WordUnambiguous(m: uint64, n: uint64)
    requires Word(m) == Word(n)
    ensures m == n
  {
    Pow256Grows(8, 32);
    Pow256Values();
    SameNumber(32, m, n);
  }

  lemma {:induction false} Pow256Grows(k: nat, m: nat)
    requires k <= m
    ensures Pow256(k) <= Pow256(m)
  {
    if k < m {
      Pow256Grows(k, m - 1);
    }
  }

  /** A field's word determines its value, unless two strings collide. */
  lemma FieldUnambiguous(keccak: Hash, f: Field, v: Val, w: Val)
    requires EncodeField(keccak, f, v).Some? && EncodeField(keccak, f, v) == EncodeField(keccak, f, w)
    ensures SameValue(f, v, w) || (v.S? && w.S? && Collide(keccak, v.s, w.s))
  {
    hide BE;
    if f.typ == Actions.Text("string") {
    } else if f.typ == Actions.Text("address") {
      var x, y := HexDecode(Bare(v.s)).value, HexDecode(Bare(w.s)).value;
      assert (ZEROS12 + x)[12..] == x && (ZEROS12 + y)[12..] == y;
      BareNoUpper(v.s);
      BareNoUpper(w.s);
      HexUnambiguous(Bare(v.s), Bare(w.s));
    } else if f.typ == Actions.Text("uint64") {
      WordUnambiguous(v.u, w.u);
    } else {
      WordUnambiguous(if v.b then 1 else 0, if w.b then 1 else 0);
    }
  }

  // ---- the type string ----

  const OPEN: byte := 40
  const CLOSE: byte := 41
  const COMMA: byte := 44
  const SPACE: byte := 32

  /** `type1 name1,type2 name2,...)` */
  function FieldList(fields: seq<Field>): seq<byte>
    decreases |fields|, 0
  {
    if fields == [] then [CLOSE] else fields[0].typ + [SPACE] + fields[0].name + More(fields[1..])
  }

  function More(fields: seq<Field>): seq<byte>
    decreases |fields|, 1
  {
    if fields == [] then [CLOSE] else [COMMA] + FieldList(fields)
  }

  /** EIP-712's encodeType of a struct without nested structs. */
  function TypeString(primary: seq<byte>, fields: seq<Field>): seq<byte> { primary + [OPEN] + FieldList(fields) }

  lemma NoMore(fields: seq<Field>)
    requires fields == []
    ensures FieldList(fields) == [CLOSE] == More(fields)
  {
  }

  /** Writing field `i` after its comma leaves the rest to be written. */
  lemma FieldAppended(before: seq<byte>, fields: seq<Field>, i: nat)
    requires i < |fields|
    ensures i == 0 ==>
      before + FieldList(fields) == before + fields[0].typ + [SPACE] + fields[0].name + More(fields[1..])
    ensures i > 0 ==>
      before + More(fields[i..]) == before + [COMMA] + fields[i].typ + [SPACE] + fields[i].name + More(fields[i + 1..])
  {
    hide FieldList, More;
    ListFrom(fields, i);
    if i == 0 {
      Reassociate(before, fields[0].typ, [SPACE], fields[0].name, More(fields[1..]));
    } else {
      Reassociate(before + [COMMA], fields[i].typ, [SPACE], fields[i].name, More(fields[i + 1..]));
      Associate(before, [COMMA], FieldList(fields[i..]));
    }
  }

  lemma Associate(a: seq<byte>, b: seq<byte>, c: seq<byte>)
    ensures a + (b + c) == a + b + c
  {
  }

  lemma ListFrom(fields: seq<Field>, i: nat)
    requires i < |fields|
    ensures FieldList(fields[i..]) == fields[i].typ + [SPACE] + fields[i].name + More(fields[i + 1..])
    ensures fields[0..] == fields && More(fields[i..]) == [COMMA] + FieldList(fields[i..])
  {
    assert fields[i..][1..] == fields[i + 1..];
  }

  lemma Reassociate(a: seq<byte>, b: seq<byte>, c: seq<byte>, d: seq<byte>, e: seq<byte>)
    ensures a + (b + c + d + e) == a + b + c + d + e
  {
  }

  /** The loop that writes it. */
  method UserSignedTypeString(primary: seq<byte>, fields: seq<Field>) returns (text: seq<byte>)
    ensures text == TypeString(primary, fields)
  {
    hide FieldList, More;
    var sb := primary + [OPEN];
    NoMore(fields[|fields|..]);
    if fields == [] { NoMore(fields); }
    for i := 0 to |fields|
      invariant sb + (if i == 0 then FieldList(fields) else More(fields[i..])) == TypeString(primary, fields)
    {
      FieldAppended(sb, fields, i);
      if i > 0 { sb := sb + [COMMA]; }
      sb := sb + fields[i].typ;
      sb := sb + [SPACE];
      sb := sb + fields[i].name;
    }
    return sb + [CLOSE];
  }

  predicate DelimiterFree(s: seq<byte>) { OPEN !in s && CLOSE !in s && COMMA !in s && SPACE !in s }

  predicate CleanNames(primary: seq<byte>, fields: seq<Field>) {
    DelimiterFree(primary) && forall i :: 0 <= i < |fields| ==> DelimiterFree(fields[i].typ) && DelimiterFree(fields[i].name)
  }

  lemma DelimiterInside(a: seq<byte>, b: seq<byte>, c: byte, d: byte, x: seq<byte>, y: seq<byte>)
    requires a + [c] + x == b + [d] + y
    ensures |a| < |b| ==> c in b
    ensures |a| == |b| ==> a == b && c == d && x == y
  {
    var s, t := a + [c] + x, b + [d] + y;
    assert s[|a|] == c;
    if |a| < |b| {
      assert t[|a|] == b[|a|];
    } else if |a| == |b| {
      assert s[..|a|] == a && t[..|a|] == b;
      assert s[|a|..][0] == c && s[|a|..][1..] == x;
      assert t[|a|..][0] == d && t[|a|..][1..] == y;
    }
  }

  /** Text up to the first delimiter. */
  lemma FirstDelimiter(a: seq<byte>, b: seq<byte>, c: byte, d: byte, x: seq<byte>, y: seq<byte>)
    requires c !in b && d !in a && a + [c] + x == b + [d] + y
    ensures a == b && c == d && x == y
  {
    DelimiterInside(a, b, c, d, x, y);
    DelimiterInside(b, a, d, c, y, x);
  }

  lemma {:induction false} FieldListUnambiguous(a: seq<Field>, b: seq<Field>)
    requires CleanNames([], a) && CleanNames([], b) && FieldList(a) == FieldList(b)
    ensures a == b
    decreases |a|, 1
  {
    if a == [] || b == [] {
      assert FieldList(a)[0] == FieldList(b)[0];
    } else {
      var x, y := a[0].name + More(a[1..]), b[0].name + More(b[1..]);
      assert FieldList(a) == a[0].typ + [SPACE] + x && FieldList(b) == b[0].typ + [SPACE] + y;
      FirstDelimiter(a[0].typ, b[0].typ, SPACE, SPACE, x, y);
      var p, q := More(a[1..]), More(b[1..]);
      assert p == [p[0]] + p[1..] && q == [q[0]] + q[1..];
      assert x == a[0].name + [p[0]] + p[1..] && y == b[0].name + [q[0]] + q[1..];
      FirstDelimiter(a[0].name, b[0].name, p[0], q[0], p[1..], q[1..]);
      if a[1..] != [] && b[1..] != [] {
        FieldListUnambiguous(a[1..], b[1..]);
      }
      assert a == [a[0]] + a[1..] && b == [b[0]] + b[1..];
    }
  }

  /** The type string determines the primary type and the field list. */
  lemma TypeStringUnambiguous(p: seq<byte>, q: seq<byte>, a: seq<Field>, b: seq<Field>)
    requires CleanNames(p, a) && CleanNames(q, b) && TypeString(p, a) == TypeString(q, b)
    ensures p == q && a == b
  {
    FirstDelimiter(p, q, OPEN, OPEN, FieldList(a), FieldList(b));
    FieldListUnambiguous(a, b);
  }

  /** Without clean names it does not: a name may smuggle in a field. */
  lemma DelimitersSmuggleFields()
    ensures var a, b := [Field(Actions.Text("x,bool y"), Actions.Text("bool"))],
                        [Field(Actions.Text("x"), Actions.Text("bool")), Field(Actions.Text("y"), Actions.Text("bool"))];
      a != b && TypeString([], a) == TypeString([], b)
  {
    var t, x, y := Actions.Text("bool"), Actions.Text("x"), Actions.Text("y");
    var xy := Actions.Text("x,bool y");
    assert xy == x + [COMMA] + t + [SPACE] + y;
    var b := [Field(x, t), Field(y, t)];
    assert b[1..] == [Field(y, t)] && [Field(y, t)][1..] == [] && [Field(xy, t)][1..] == [];
    assert FieldList(b[1..]) == t + [SPACE] + y + [CLOSE];
    assert FieldList([Field(xy, t)]) == t + [SPACE] + xy + [CLOSE];
  }

  // ---- the digest ----

  /** The concatenated field words, or nothing if a field is missing or malformed. */
  function Words(keccak: Hash, fields: seq<Field>, m: Message): Option<seq<byte>> {
    if fields == [] then Some([])
    else
      var f := fields[|fields| - 1];
      if f.name !in m then None
      else
        match (Words(keccak, fields[..|fields| - 1], m), EncodeField(keccak, f, m[f.name]))
        case (Some(before), Some(w)) => Some(before + w)
        case _ => None
  }

  function StructPreimage(keccak: Hash, primary: seq<byte>, fields: seq<Field>, words: seq<byte>): seq<byte> {
    keccak(TypeString(primary, fields)) + words
  }

  function DomainPreimage(keccak: Hash, chainID: uint64): seq<byte> {
    keccak(Actions.Text("EIP712Domain(string name,string version,uint256 chainId,address verifyingContract)"))
    + keccak(Actions.Text("HyperliquidSignTransaction")) + keccak(Actions.Text("1")) + Word(chainID) + Word(0)
  }

  function DigestPreimage(keccak: Hash, primary: seq<byte>, fields: seq<Field>, chainID: uint64, words: seq<byte>): seq<byte> {
    [0x19, 0x01] + keccak(DomainPreimage(keccak, chainID)) + keccak(StructPreimage(keccak, primary, fields, words))
  }

  /** Accumulates the words in a loop and hashes; any missing or malformed field is an error. */
  method UserSignedDigest(keccak: Hash, primary: seq<byte>, fields: seq<Field>, chainID: uint64, m: Message)
    returns (digest: Option<seq<byte>>)
    ensures digest ==
      match Words(keccak, fields, m)
      case None => None
      case Some(words) => Some(keccak(DigestPreimage(keccak, primary, fields, chainID, words)))
  {
    hide EncodeField, TypeString, DomainPreimage;
    var text := UserSignedTypeString(primary, fields);
    var words: seq<byte> := [];
    for i := 0 to |fields|
      invariant Words(keccak, fields[..i], m) == Some(words)
    {
      var f := fields[i];
      assert fields[..i + 1][..i] == fields[..i];
      WordsNeedPrefix(keccak, fields, i + 1, m);
      if f.name !in m { return None; }
      var w := EncodeField(keccak, f, m[f.name]);
      if w.None? { return None; }
      words := words + w.value;
    }
    assert fields[..|fields|] == fields;
    return Some(keccak([0x19, 0x01] + keccak(DomainPreimage(keccak, chainID)) + keccak(keccak(text) + words)));
  }

  lemma {:induction false} WordsNeedPrefix(keccak: Hash, fields: seq<Field>, n: nat, m: Message)
    requires n <= |fields|
    ensures Words(keccak, fields, m).Some? ==> Words(keccak, fields[..n], m).Some?
    decreases |fields|
  {
    if n < |fields| {
      WordsNeedPrefix(keccak, fields[..|fields| - 1], n, m);
      assert fields[..|fields| - 1][..n] == fields[..n];
    } else {
      assert fields[..n] == fields;
    }
  }

  lemma {:induction false} WordsLength(keccak: Hash, fields: seq<Field>, m: Message)
    requires Is32(keccak) && Words(keccak, fields, m).Some?
    ensures |Words(keccak, fields, m).value| == 32 * |fields|
  {
    if fields != [] {
      WordsLength(keccak, fields[..|fields| - 1], m);
      Length32(keccak, fields[|fields| - 1], m[fields[|fields| - 1].name]);
    }
  }

  ghost predicate SameMessage(fields: seq<Field>, m: Message, n: Message) {
    forall i :: 0 <= i < |fields| ==>
      fields[i].name in m && fields[i].name in n && SameValue(fields[i], m[fields[i].name], n[fields[i].name])
  }

  /** Two different string values of one field have one hash. */
  ghost predicate StringsCollide(keccak: Hash, fields: seq<Field>, m: Message, n: Message) {
    exists i :: 0 <= i < |fields| && fields[i].name in m && fields[i].name in n
      && m[fields[i].name].S? && n[fields[i].name].S? && Collide(keccak, m[fields[i].name].s, n[fields[i].name].s)
  }

  lemma {:induction false} WordsUnambiguous(keccak: Hash, fields: seq<Field>, m: Message, n: Message)
    requires Is32(keccak) && Words(keccak, fields, m).Some? && Words(keccak, fields, m) == Words(keccak, fields, n)
    ensures SameMessage(fields, m, n) || StringsCollide(keccak, fields, m, n)
  {
    if fields != [] {
      hide EncodeField, SameValue, SameMessage, StringsCollide;
      var before, f := fields[..|fields| - 1], fields[|fields| - 1];
      var x, y := Words(keccak, before, m).value, Words(keccak, before, n).value;
      WordsLength(keccak, before, m);
      WordsLength(keccak, before, n);
      Length32(keccak, f, m[f.name]);
      Length32(keccak, f, n[f.name]);
      var v, w := EncodeField(keccak, f, m[f.name]).value, EncodeField(keccak, f, n[f.name]).value;
      assert (x + v)[..|x|] == x && (y + w)[..|x|] == y && (x + v)[|x|..] == v && (y + w)[|x|..] == w;
      WordsUnambiguous(keccak, before, m, n);
      FieldUnambiguous(keccak, f, m[f.name], n[f.name]);
      Extends(keccak, fields, m, n);
    }
  }

  /** What held of all fields but the last, and holds of the last, holds of all. */
  lemma Extends(keccak: Hash, fields: seq<Field>, m: Message, n: Message)
    requires fields != []
    requires var f := fields[|fields| - 1];
      && f.name in m && f.name in n
      && (SameValue(f, m[f.name], n[f.name])
          || (m[f.name].S? && n[f.name].S? && Collide(keccak, m[f.name].s, n[f.name].s)))
    requires var before := fields[..|fields| - 1]; SameMessage(before, m, n) || StringsCollide(keccak, before, m, n)
    ensures SameMessage(fields, m, n) || StringsCollide(keccak, fields, m, n)
  {
    hide SameValue;
    var before := fields[..|fields| - 1];
    if StringsCollide(keccak, before, m, n) {
      var i :| 0 <= i < |before| && before[i].name in m && before[i].name in n
        && m[before[i].name].S? && n[before[i].name].S? && Collide(keccak, m[before[i].name].s, n[before[i].name].s);
      assert fields[i] == before[i];
    } else {
      assert forall i :: 0 <= i < |before| ==> fields[i] == before[i];
    }
  }

  lemma DomainUnambiguous(keccak: Hash, c: uint64, d: uint64)
    requires Is32(keccak) && DomainPreimage(keccak, c) == DomainPreimage(keccak, d)
    ensures c == d
  {
    hide BE;
    assert DomainPreimage(keccak, c)[96..128] == Word(c) && DomainPreimage(keccak, d)[96..128] == Word(d);
    WordUnambiguous(c, d);
  }

  /** Message unambiguity: equal digests mean the same chain id, primary type, field list and
      field values, addresses up to case and prefix; or a named pair of preimages collides. */
  lemma DigestBindsMessage(keccak: Hash, p: seq<byte>, q: seq<byte>, a: seq<Field>, b: seq<Field>,
                           c: uint64, d: uint64, m: Message, n: Message)
    requires Is32(keccak) && CleanNames(p, a) && CleanNames(q, b)
    requires Words(keccak, a, m).Some? && Words(keccak, b, n).Some?
    requires keccak(DigestPreimage(keccak, p, a, c, Words(keccak, a, m).value))
          == keccak(DigestPreimage(keccak, q, b, d, Words(keccak, b, n).value))
    ensures var x, y := Words(keccak, a, m).value, Words(keccak, b, n).value;
      || (p == q && a == b && c == d && SameMessage(a, m, n))
      || Collide(keccak, DigestPreimage(keccak, p, a, c, x), DigestPreimage(keccak, q, b, d, y))
      || Collide(keccak, DomainPreimage(keccak, c), DomainPreimage(keccak, d))
      || Collide(keccak, StructPreimage(keccak, p, a, x), StructPreimage(keccak, q, b, y))
      || Collide(keccak, TypeString(p, a), TypeString(q, b))
      || StringsCollide(keccak, a, m, n)
  {
    hide Words, TypeString, DomainPreimage, CleanNames, SameMessage, StringsCollide;
    var x, y := Words(keccak, a, m).value, Words(keccak, b, n).value;
    var s, t := DigestPreimage(keccak, p, a, c, x), DigestPreimage(keccak, q, b, d, y);
    if s == t {
      assert s[2..34] == keccak(DomainPreimage(keccak, c)) && t[2..34] == keccak(DomainPreimage(keccak, d));
      assert s[34..] == keccak(StructPreimage(keccak, p, a, x)) && t[34..] == keccak(StructPreimage(keccak, q, b, y));
      var u, v := StructPreimage(keccak, p, a, x), StructPreimage(keccak, q, b, y);
      if DomainPreimage(keccak, c) == DomainPreimage(keccak, d) && u == v {
        DomainUnambiguous(keccak, c, d);
        assert u[..32] == keccak(TypeString(p, a)) && v[..32] == keccak(TypeString(q, b)) && u[32..] == x && v[32..] == y;
        if TypeString(p, a) == TypeString(q, b) {
          TypeStringUnambiguous(p, q, a, b);
          WordsUnambiguous(keccak, a, m, n);
        }
      }
    }
  }

  // ---- reading a digest's parts ----

  function HexDigit(n: nat): byte
    requires n < 16
  {
    if n < 10 then 48 + n else 87 + n
  }

  /** Two lower-case digits for each byte. */
  function HexEncode(s: seq<byte>): seq<byte> {
    if s == [] then [] else [HexDigit(s[0] / 16), HexDigit(s[0] % 16)] + HexEncode(s[1..])
  }

  predicate IsHex(c: byte) { 48 <= c <= 57 || 65 <= c <= 70 || 97 <= c <= 102 }

  /** Hex text is what is read: any even number of hex digits, and the bytes spell them in lower case. */
  lemma {:induction false} HexReadsBack(s: seq<byte>)
    ensures HexDecode(s).Some? <==> |s| % 2 == 0 && forall i :: 0 <= i < |s| ==> IsHex(s[i])
    ensures HexDecode(s).Some? ==> 2 * |HexDecode(s).value| == |s| && HexEncode(HexDecode(s).value) == Lower(s)
  {
    hide HexVal, HexDigit, IsHex, Lower;
    if |s| >= 2 {
      var rest := s[2..];
      HexReadsBack(rest);
      DigitReadsBack(s[0]);
      DigitReadsBack(s[1]);
      LowerSplits(s);
      assert s == [s[0], s[1]] + rest;
      if HexDecode(s).Some? {
        HexStep(s);
        EncodeStep(HexVal(s[0]).value, HexVal(s[1]).value, HexDecode(rest).value);
        assert HexDecode(s).value == [HexVal(s[0]).value * 16 + HexVal(s[1]).value] + HexDecode(rest).value;
      }
    } else {
      LowerSplits(s);
    }
  }

  lemma LowerSplits(s: seq<byte>)
    ensures |s| >= 2 ==> Lower(s) == Lower([s[0]]) + Lower([s[1]]) + Lower(s[2..])
    ensures |Lower(s)| == |s|
  {
  }

  lemma EncodeStep(hi: nat, lo: nat, rest: seq<byte>)
    requires hi < 16 && lo < 16
    ensures HexEncode([hi * 16 + lo] + rest) == [HexDigit(hi)] + [HexDigit(lo)] + HexEncode(rest)
  {
    hide HexDigit;
    assert ([hi * 16 + lo] + rest)[1..] == rest;
  }

  lemma DigitReadsBack(c: byte)
    ensures HexVal(c).Some? <==> IsHex(c)
    ensures HexVal(c).Some? ==> HexVal(c).value < 16 && [HexDigit(HexVal(c).value)] == Lower([c])
  {
  }

  /** An address stands for its digits, in lower case and without a 0x or 0X in front. */
  lemma BareMeans(s: seq<byte>)
    ensures var prefixed := |s| >= 2 && s[0] == 48 && (s[1] == 120 || s[1] == 88);
      Bare(s) == Lower(if prefixed then s[2..] else s)
  {
    assert Actions.Text("0x") == [48, 120];
    var t := Lower(s);
    if |s| >= 2 { assert t[..2] == [t[0], t[1]]; }
  }

  /** Which values a field takes, and what its word says: the hash of a string, twelve zeros and the
      twenty bytes of an address, the number itself, or one for true and zero for false. */
  lemma FieldReadsBack(keccak: Hash, f: Field, v: Val)
    requires Is32(keccak)
    ensures var digits := if v.S? then Bare(v.s) else [];
      EncodeField(keccak, f, v).Some? <==>
        || (f.typ == Actions.Text("string") && v.S?) || (f.typ == Actions.Text("uint64") && v.U?)
        || (f.typ == Actions.Text("bool") && v.B?)
        || (f.typ == Actions.Text("address") && v.S? && |digits| == 40 && forall i :: 0 <= i < 40 ==> IsHex(digits[i]))
    ensures EncodeField(keccak, f, v).Some? ==>
      var w := EncodeField(keccak, f, v).value;
      && |w| == 32
      && (f.typ == Actions.Text("string") ==> v.S? && w == keccak(v.s))
      && (f.typ == Actions.Text("address") ==> v.S? && w[..12] == [0, 0, 0, 0, 0, 0, 0, 0, 0, 0, 0, 0] && HexEncode(w[12..]) == Bare(v.s))
      && (f.typ == Actions.Text("uint64") ==> v.U? && FromBE(w) == v.u)
      && (f.typ == Actions.Text("bool") ==> v.B? && FromBE(w) == if v.b then 1 else 0)
  {
    hide BE, FromBE, Bare, Actions.Text, HexDecode, HexEncode, IsHex;
    TypesDiffer();
    match v
    case S(s) =>
      HexReadsBack(Bare(s));
      BareNoUpper(s);
      NoUpperIsLower(Bare(s));
      if HexDecode(Bare(s)).Some? {
        assert (ZEROS12 + HexDecode(Bare(s)).value)[12..] == HexDecode(Bare(s)).value;
      }
    case U(u) => SmallWord(u);
    case B(b) => SmallWord(if b then 1 else 0);
    case Other =>
  }

  lemma NoUpperIsLower(s: seq<byte>)
    requires NoUpper(s)
    ensures Lower(s) == s
  {
  }

  lemma TypesDiffer()
    ensures Actions.Text("string") != Actions.Text("address") && Actions.Text("string") != Actions.Text("uint64")
    ensures Actions.Text("string") != Actions.Text("bool") && Actions.Text("address") != Actions.Text("uint64")
    ensures Actions.Text("address") != Actions.Text("bool") && Actions.Text("uint64") != Actions.Text("bool")
  {
    assert |Actions.Text("string")| == 6 && Actions.Text("string")[0] == 115;
    assert |Actions.Text("uint64")| == 6 && Actions.Text("uint64")[0] == 117;
    assert |Actions.Text("address")| == 7 && |Actions.Text("bool")| == 4;
  }

  /** There are words exactly when every field is there and well-formed, and then word `i` is field `i`'s. */
  lemma {:induction false} WordsReadBack(keccak: Hash, fields: seq<Field>, m: Message)
    requires Is32(keccak)
    ensures Words(keccak, fields, m).Some? <==>
      forall i :: 0 <= i < |fields| ==> fields[i].name in m && EncodeField(keccak, fields[i], m[fields[i].name]).Some?
    ensures Words(keccak, fields, m).Some? ==>
      var w := Words(keccak, fields, m).value;
      && |w| == 32 * |fields|
      && forall i :: 0 <= i < |fields| ==>
           Some(w[32 * i..32 * i + 32]) == EncodeField(keccak, fields[i], m[fields[i].name])
  {
    hide EncodeField;
    if fields != [] {
      var n := |fields| - 1;
      var before, f := fields[..n], fields[n];
      WordsReadBack(keccak, before, m);
      assert forall i :: 0 <= i < n ==> before[i] == fields[i];
      if Words(keccak, fields, m).Some? {
        Length32(keccak, f, m[f.name]);
        var x, w := Words(keccak, before, m).value, Words(keccak, fields, m).value;
        forall i | 0 <= i < n ensures w[32 * i..32 * i + 32] == x[32 * i..32 * i + 32] {
          assert 32 * i + 32 <= |x|;
        }
        assert w[32 * n..32 * n + 32] == EncodeField(keccak, f, m[f.name]).value;
      }
    }
  }

  /** The digest is over 0x1901, the hashed domain and the hashed struct; the struct opens with the hashed
      type string, and the domain names the transaction domain in version 1, the chain and address zero. */
  lemma DigestReadsBack(keccak: Hash, primary: seq<byte>, fields: seq<Field>, chainID: uint64, words: seq<byte>)
    requires Is32(keccak)
    ensures var p, d, s := DigestPreimage(keccak, primary, fields, chainID, words), DomainPreimage(keccak, chainID), StructPreimage(keccak, primary, fields, words);
      && p[..2] == [0x19, 0x01] && p[2..34] == keccak(d) && p[34..] == keccak(s)
      && s[..32] == keccak(TypeString(primary, fields)) && s[32..] == words
      && |d| == 160 && d[32..64] == keccak(Actions.Text("HyperliquidSignTransaction")) && d[64..96] == keccak(Actions.Text("1"))
      && FromBE(d[96..128]) == chainID && FromBE(d[128..160]) == 0
      && d[..32] == keccak(Actions.Text("EIP712Domain(string name,string version,uint256 chainId,address verifyingContract)"))
  {
    hide Actions.Text, BE, FromBE, TypeString;
    SmallWord(chainID);
    SmallWord(0);
    var d, s := DomainPreimage(keccak, chainID), StructPreimage(keccak, primary, fields, words);
    assert |keccak(d)| == 32;
    assert d[96..128] == Word(chainID) && d[128..160] == Word(0);
  }

  /** Texts joined by commas. */
  function Joined(parts: seq<seq<byte>>): seq<byte> {
    if parts == [] then [] else if |parts| == 1 then parts[0] else parts[0] + [44] + Joined(parts[1..])
  }

  function Spelled(f: Field): seq<byte> { f.typ + [32] + f.name }

  function AllSpelled(fields: seq<Field>): seq<seq<byte>> { seq(|fields|, i requires 0 <= i < |fields| => Spelled(fields[i])) }

  /** The type string is the primary type and, in brackets, type and name of each field, comma-separated. */
  lemma TypeStringMeans(primary: seq<byte>, fields: seq<Field>)
    ensures TypeString(primary, fields) == primary + [40] + Joined(AllSpelled(fields)) + [41]
  {
    ListIsJoined(fields);
    hide FieldList, Joined;
  }

  lemma {:induction false} ListIsJoined(fields: seq<Field>)
    ensures FieldList(fields) == Joined(AllSpelled(fields)) + [41]
  {
    if |fields| > 1 {
      ListIsJoined(fields[1..]);
      assert AllSpelled(fields)[1..] == AllSpelled(fields[1..]);
    } else if |fields| == 1 {
      assert AllSpelled(fields) == [Spelled(fields[0])];
    }
  }

  // ---- the shipped tables ----

  datatype Kind = ApproveAgent | Withdraw | UsdSend | ApproveBuilderFee | UsdClassTransfer | SpotSend

  function PrimaryName(k: Kind): string {
    match k
    case ApproveAgent => "HyperliquidTransaction:ApproveAgent"
    case Withdraw => "HyperliquidTransaction:Withdraw"
    case UsdSend => "HyperliquidTransaction:UsdSend"
    case ApproveBuilderFee => "HyperliquidTransaction:ApproveBuilderFee"
    case UsdClassTransfer => "HyperliquidTransaction:UsdClassTransfer"
    case SpotSend => "HyperliquidTransaction:SpotSend"
  }

  function FieldNames(k: Kind): seq<(string, string)> {
    [("hyperliquidChain", "string")] +
    match k
    case ApproveAgent => [("agentAddress", "address"), ("agentName", "string"), ("nonce", "uint64")]
    case Withdraw => [("destination", "string"), ("amount", "string"), ("time", "uint64")]
    case UsdSend => [("destination", "string"), ("amount", "string"), ("time", "uint64")]
    case ApproveBuilderFee => [("maxFeeRate", "string"), ("builder", "address"), ("nonce", "uint64")]
    case UsdClassTransfer => [("amount", "string"), ("toPerp", "bool"), ("nonce", "uint64")]
    case SpotSend => [("destination", "string"), ("token", "string"), ("amount", "string"), ("time", "uint64")]
  }

  function Primary(k: Kind): seq<byte> { Actions.Text(PrimaryName(k)) }

  function Table(k: Kind): seq<Field> {
    var names := FieldNames(k);
    seq(|names|, i requires 0 <= i < |names| => Field(Actions.Text(names[i].0), Actions.Text(names[i].1)))
  }

  lemma TextJoins(s: string, t: string)
    ensures Actions.Text(s) + Actions.Text(t) == Actions.Text(s + t)
  {
  }

  lemma SpelledText(typ: string, name: string, end: string)
    ensures Spelled(Field(Actions.Text(name), Actions.Text(typ))) + Actions.Text(end) == Actions.Text(typ + " " + name + end)
  {
    Punctuation();
    TextJoins(typ, " ");
    TextJoins(typ + " ", name);
    TextJoins(typ + " " + name, end);
  }

  /** The type string of an agent approval, spelled out. */
  lemma ApproveAgentTypeString()
    ensures TypeString(Primary(ApproveAgent), Table(ApproveAgent)) ==
      Actions.Text("HyperliquidTransaction:ApproveAgent(") + Actions.Text("string hyperliquidChain,")
      + Actions.Text("address agentAddress,") + Actions.Text("string agentName,") + Actions.Text("uint64 nonce)")
  {
    hide Actions.Text, FieldList, Spelled;
    var t := Table(ApproveAgent);
    Punctuation();
    TextJoins(PrimaryName(ApproveAgent), "(");
    assert PrimaryName(ApproveAgent) + "(" == "HyperliquidTransaction:ApproveAgent(";
    SpelledText("string", "hyperliquidChain", ",");
    assert "string" + " " + "hyperliquidChain" + "," == "string hyperliquidChain,";
    SpelledText("address", "agentAddress", ",");
    assert "address" + " " + "agentAddress" + "," == "address agentAddress,";
    SpelledText("string", "agentName", ",");
    assert "string" + " " + "agentName" + "," == "string agentName,";
    SpelledText("uint64", "nonce", ")");
    assert "uint64" + " " + "nonce" + ")" == "uint64 nonce)";
    TypeStringMeans(Primary(ApproveAgent), t);
    FourJoined(Spelled(t[0]), Spelled(t[1]), Spelled(t[2]), Spelled(t[3]));
    assert AllSpelled(t) == [Spelled(t[0]), Spelled(t[1]), Spelled(t[2]), Spelled(t[3])];
  }

  lemma FourJoined(a: seq<byte>, b: seq<byte>, c: seq<byte>, d: seq<byte>)
    ensures Joined([a, b, c, d]) == a + [44] + (b + [44]) + (c + [44]) + d
  {
    var parts := [a, b, c, d];
    assert parts[1..] == [b, c, d] && parts[1..][1..] == [c, d] && parts[1..][1..][1..] == [d];
    assert Joined([c, d]) == c + [44] + d;
    assert Joined([b, c, d]) == b + [44] + Joined([c, d]);
  }

  lemma Punctuation()
    ensures Actions.Text("(") == [OPEN] && Actions.Text(")") == [CLOSE] && Actions.Text(",") == [COMMA] && Actions.Text(" ") == [SPACE]
  {
  }

  /** Letters, digits and colons. */
  predicate Plain(s: string) { forall i :: 0 <= i < |s| ==> '0' <= s[i] <= 'z' }

  lemma PlainIsDelimiterFree(s: string)
    requires Plain(s)
    ensures DelimiterFree(Actions.Text(s))
  {
    forall c | c in Actions.Text(s) ensures c >= 48 {
      var i :| 0 <= i < |s| && Actions.Text(s)[i] == c;
      assert '0' <= s[i] <= 'z';
    }
  }

  lemma PrimaryIsPlain(k: Kind)
    ensures Plain(PrimaryName(k))
  {
  }

  lemma TypesArePlain()
    ensures Plain("string") && Plain("address") && Plain("uint64") && Plain("bool")
  {
  }

  lemma FirstNamesArePlain()
    ensures Plain("hyperliquidChain") && Plain("agentAddress") && Plain("agentName") && Plain("nonce")
  {
  }

  lemma LaterNamesArePlain()
    ensures Plain("destination") && Plain("amount") && Plain("time") && Plain("token") && Plain("toPerp")
    ensures Plain("maxFeeRate") && Plain("builder")
  {
  }

  lemma NamesArePlain(k: Kind)
    ensures forall i :: 0 <= i < |FieldNames(k)| ==> Plain(FieldNames(k)[i].0) && Plain(FieldNames(k)[i].1)
  {
    TypesArePlain();
    FirstNamesArePlain();
    LaterNamesArePlain();
    hide Plain;
  }

  /** Every shipped table is unambiguous, and the primary types tell the kinds apart. */
  lemma TablesAreClean(k: Kind)
    ensures CleanNames(Primary(k), Table(k))
  {
    PrimaryIsPlain(k);
    NamesArePlain(k);
    hide PrimaryName, FieldNames, Plain, DelimiterFree;
    PlainIsDelimiterFree(PrimaryName(k));
    var names := FieldNames(k);
    forall i | 0 <= i < |names| ensures DelimiterFree(Table(k)[i].typ) && DelimiterFree(Table(k)[i].name) {
      PlainIsDelimiterFree(names[i].0);
      PlainIsDelimiterFree(names[i].1);
    }
  }

  /** Digests of two different kinds of user-signed action agree only if a named pair collides. */
  lemma KindsDoNotMix(keccak: Hash, j: Kind, k: Kind, c: uint64, d: uint64, m: Message, n: Message)
    requires Is32(keccak) && j != k
    requires Words(keccak, Table(j), m).Some? && Words(keccak, Table(k), n).Some?
    requires keccak(DigestPreimage(keccak, Primary(j), Table(j), c, Words(keccak, Table(j), m).value))
          == keccak(DigestPreimage(keccak, Primary(k), Table(k), d, Words(keccak, Table(k), n).value))
    ensures var x, y := Words(keccak, Table(j), m).value, Words(keccak, Table(k), n).value;
      || Collide(keccak, DigestPreimage(keccak, Primary(j), Table(j), c, x), DigestPreimage(keccak, Primary(k), Table(k), d, y))
      || Collide(keccak, DomainPreimage(keccak, c), DomainPreimage(keccak, d))
      || Collide(keccak, StructPreimage(keccak, Primary(j), Table(j), x), StructPreimage(keccak, Primary(k), Table(k), y))
      || Collide(keccak, TypeString(Primary(j), Table(j)), TypeString(Primary(k), Table(k)))
      || StringsCollide(keccak, Table(j), m, n)
  {
    TablesAreClean(j);
    TablesAreClean(k);
    PrimariesDiffer(j, k);
    hide *;
    DigestBindsMessage(keccak, Primary(j), Primary(k), Table(j), Table(k), c, d, m, n);
  }

  lemma Letters(k: Kind)
    ensures |PrimaryName(k)| == |Primary(k)| > 24
    ensures Primary(k)[23] == PrimaryName(k)[23] as int % 256 && Primary(k)[24] == PrimaryName(k)[24] as int % 256
  {
  }

  lemma PrimariesDiffer(j: Kind, k: Kind)
    requires j != k
    ensures Primary(j) != Primary(k)
  {
    Letters(j);
    Letters(k);
    hide Primary;
  }
}
