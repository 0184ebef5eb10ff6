/** The MessagePack encoder of Hyperliquid actions, and a decoder written from the format
    specification that inverts it. */
module Msgpack {
  import opened Numbers

  type byte = x: int | 0 <= x < 256

  /** The value shapes an action may use; anything else is `Unsupported`. */
  datatype Value =
    | Str(s: seq<byte>)
    | Bool(b: bool)
    | Int(i: int64)
    | Uint(u: uint64)
    | Arr(xs: seq<Value>)
    | Map(kvs: seq<KV>)
    | Unsupported

  datatype KV = KV(k: seq<byte>, v: Value)

  // ---- big-endian integers ----

  /** The low `k` bytes of `n`, most significant first; the rest of `n` is cut off. */
  function BE(k: nat, n: nat): (s: seq<byte>)
    ensures |s| == k
  {
    if k == 0 then [] else BE(k - 1, n / 256) + [n % 256]
  }

  function FromBE(s: seq<byte>): nat {
    if s == [] then 0 else FromBE(s[..|s| - 1]) * 256 + s[|s| - 1]
  }

  function Pow256(k: nat): nat {
    if k == 0 then 1 else 256 * Pow256(k - 1)
  }

  lemma Pow256Values()
    ensures Pow256(1) == 0x100 && Pow256(2) == 0x1_0000 && Pow256(4) == 0x1_0000_0000 && Pow256(8) == TWO64
  {
    assert Pow256(3) == 0x100_0000;
    assert Pow256(5) == 0x100_0000_0000;
    assert Pow256(6) == 0x1_0000_0000_0000;
    assert Pow256(7) == 0x100_0000_0000_0000;
  }

  /** A number that fits is read back as it was written. */
  lemma {:induction false} ReadBackBE(k: nat, n: nat)
    requires n < Pow256(k)
    ensures FromBE(BE(k, n)) == n
  {
    if k > 0 {
      ReadBackBE(k - 1, n / 256);
      assert BE(k, n)[..k - 1] == BE(k - 1, n / 256);
    }
  }

  lemma {:induction false} FromBEBound(s: seq<byte>)
    ensures FromBE(s) < Pow256(|s|)
  {
    if s != [] { FromBEBound(s[..|s| - 1]); }
  }

  // ---- the encoder ----

  function EncStr(s: seq<byte>): seq<byte> { StrHeader(|s|) + s }

  function StrHeader(n: nat): (h: seq<byte>) {
    if n < 32 then [0xa0 + n]
    else if n < 256 then [0xd9, n]
    else if n < 65536 then [0xda] + BE(2, n)
    else [0xdb] + BE(4, n)
  }

  function EncUint(n: uint64): seq<byte> {
    if n < 128 then [n]
    else if n < 256 then [0xcc, n]
    else if n < 65536 then [0xcd] + BE(2, n)
    else if n < 0x1_0000_0000 then [0xce] + BE(4, n)
    else [0xcf] + BE(8, n)
  }

  /** Negative numbers in two's complement. */
  function EncInt(n: int64): seq<byte> {
    if n >= 0 then EncUint(n)
    else if n >= -32 then [n + 0x100]
    else if n >= -128 then [0xd0, n + 0x100]
    else if n >= -0x8000 then [0xd1] + BE(2, n + 0x1_0000)
    else if n >= -0x8000_0000 then [0xd2] + BE(4, n + 0x1_0000_0000)
    else [0xd3] + BE(8, n + TWO64)
  }

  function ArrayHeader(n: nat): seq<byte> { if n < 16 then [0x90 + n] else [0xdc] + BE(2, n) }

  function MapHeader(n: nat): seq<byte> { if n < 16 then [0x80 + n] else [0xde] + BE(2, n) }

  function Enc(v: Value): seq<byte>
    decreases v, 1
  {
    match v
    case Str(s) => EncStr(s)
    case Bool(b) => [if b then 0xc3 else 0xc2]
    case Int(i) => EncInt(i)
    case Uint(u) => EncUint(u)
    case Arr(xs) => ArrayHeader(|xs|) + EncAll(xs)
    case Map(kvs) => MapHeader(|kvs|) + EncPairs(kvs)
    case Unsupported => []
  }

  function EncAll(xs: seq<Value>): seq<byte>
    decreases xs, 0
  {
    if xs == [] then [] else Enc(xs[0]) + EncAll(xs[1..])
  }

  function EncPairs(kvs: seq<KV>): seq<byte>
    decreases kvs, 0
  {
    if kvs == [] then [] else EncStr(kvs[0].k) + Enc(kvs[0].v) + EncPairs(kvs[1..])
  }

  /** No unsupported value anywhere inside. */
  predicate Supported(v: Value) {
    match v
    case Arr(xs) => forall i :: 0 <= i < |xs| ==> Supported(xs[i])
    case Map(kvs) => forall i :: 0 <= i < |kvs| ==> Supported(kvs[i].v)
    case Unsupported => false
    case _ => true
  }

  lemma NoElements(xs: seq<Value>)
    requires xs == []
    ensures EncAll(xs) == []
  {
  }

  lemma ElementAppended(before: seq<byte>, xs: seq<Value>, i: nat)
    requires i < |xs|
    ensures before + EncAll(xs[i..]) == before + Enc(xs[i]) + EncAll(xs[i + 1..])
  {
    hide Enc;
    assert xs[i..][1..] == xs[i + 1..];
  }

  lemma NoPairs(kvs: seq<KV>)
    requires kvs == []
    ensures EncPairs(kvs) == []
  {
  }

  lemma PairAppended(before: seq<byte>, kvs: seq<KV>, i: nat)
    requires i < |kvs|
    ensures before + EncPairs(kvs[i..]) == before + EncStr(kvs[i].k) + Enc(kvs[i].v) + EncPairs(kvs[i + 1..])
  {
    hide EncStr, Enc;
    assert kvs[i..][1..] == kvs[i + 1..];
  }

  /** The buffer the encoding routines append to. */
  class Buffer {
    var bytes: seq<byte>

    constructor ()
      ensures bytes == []
    {
      bytes := [];
    }

    method Append(more: seq<byte>)
      modifies this
      ensures bytes == old(bytes) + more
    {
      bytes := bytes + more;
    }

    method WriteStr(s: seq<byte>)
      modifies this
      ensures bytes == old(bytes) + EncStr(s)
    {
      hide BE;
      var n := |s|;
      if n < 32 { Append([0xa0 + n]); }
      else if n < 256 { Append([0xd9, n]); }
      else if n < 65536 { Append([0xda]); Append(BE(2, n)); }
      else { Append([0xdb]); Append(BE(4, n)); }
      Append(s);
    }

    method WriteUint(n: uint64)
      modifies this
      ensures bytes == old(bytes) + EncUint(n)
    {
      hide BE;
      if n < 128 { Append([n]); }
      else if n < 256 { Append([0xcc, n]); }
      else if n < 65536 { Append([0xcd]); Append(BE(2, n)); }
      else if n < 0x1_0000_0000 { Append([0xce]); Append(BE(4, n)); }
      else { Append([0xcf]); Append(BE(8, n)); }
    }

    method WriteInt(n: int64)
      modifies this
      ensures bytes == old(bytes) + EncInt(n)
    {
      hide BE, EncUint;
      if n >= 0 { WriteUint(n); return; }
      if n >= -32 { Append([n + 0x100]); }
      else if n >= -128 { Append([0xd0, n + 0x100]); }
      else if n >= -0x8000 { Append([0xd1]); Append(BE(2, n + 0x1_0000)); }
      else if n >= -0x8000_0000 { Append([0xd2]); Append(BE(4, n + 0x1_0000_0000)); }
      else { Append([0xd3]); Append(BE(8, n + TWO64)); }
    }

    method WriteArrayHeader(n: nat)
      modifies this
      ensures bytes == old(bytes) + ArrayHeader(n)
    {
      if n < 16 { Append([0x90 + n]); return; }
      Append([0xdc]);
      Append(BE(2, n));
    }

    method WriteMapHeader(n: nat)
      modifies this
      ensures bytes == old(bytes) + MapHeader(n)
    {
      if n < 16 { Append([0x80 + n]); return; }
      Append([0xde]);
      Append(BE(2, n));
    }

    /** Appends one value; stops at the first unsupported one. */
    method Write(v: Value) returns (ok: bool)
      modifies this
      ensures ok == Supported(v)
      ensures ok ==> bytes == old(bytes) + Enc(v)
      decreases v, 1
    {
      hide EncStr, EncInt, EncUint, ArrayHeader, MapHeader, EncAll, EncPairs;
      ok := true;
      match v {
        case Str(s) => WriteStr(s);
        case Bool(b) => Append([if b then 0xc3 else 0xc2]);
        case Int(i) => WriteInt(i);
        case Uint(u) => WriteUint(u);
        case Arr(xs) =>
          WriteArrayHeader(|xs|);
          ok := WriteAll(xs);
        case Map(kvs) =>
          WriteMapHeader(|kvs|);
          ok := WritePairs(kvs);
        case Unsupported => ok := false;
      }
    }

    method WriteAll(xs: seq<Value>) returns (ok: bool)
      modifies this
      ensures ok == forall i :: 0 <= i < |xs| ==> Supported(xs[i])
      ensures ok ==> bytes == old(bytes) + EncAll(xs)
      decreases xs, 0
    {
      hide Enc, EncAll;
      for i := 0 to |xs|
        invariant bytes + EncAll(xs[i..]) == old(bytes) + EncAll(xs)
        invariant forall j :: 0 <= j < i ==> Supported(xs[j])
      {
        ElementAppended(bytes, xs, i);
        ok := Write(xs[i]);
        if !ok { return; }
      }
      NoElements(xs[|xs|..]);
      ok := true;
    }

    method WritePairs(kvs: seq<KV>) returns (ok: bool)
      modifies this
      ensures ok == forall i :: 0 <= i < |kvs| ==> Supported(kvs[i].v)
      ensures ok ==> bytes == old(bytes) + EncPairs(kvs)
      decreases kvs, 0
    {
      hide EncStr, Enc, EncPairs;
      for i := 0 to |kvs|
        invariant bytes + EncPairs(kvs[i..]) == old(bytes) + EncPairs(kvs)
        invariant forall j :: 0 <= j < i ==> Supported(kvs[j].v)
      {
        PairAppended(bytes, kvs, i);
        WriteStr(kvs[i].k);
        ok := Write(kvs[i].v);
        if !ok { return; }
      }
      NoPairs(kvs[|kvs|..]);
      ok := true;
    }
  }

  /** Serializes a value, or reports that some part of it is unsupported. */
  method Encode(v: Value) returns (ok: bool, bytes: seq<byte>)
    ensures ok == Supported(v)
    ensures bytes == if ok then Enc(v) else []
  {
    var b := new Buffer();
    ok := b.Write(v);
    bytes := if ok then b.bytes else [];
  }

  /** The encoder's bytes on the values of the repository's own test table. */
  lemma GoldenBytes()
    ensures Enc(Str([104, 105])) == [0xa2, 104, 105]
    ensures forall s: seq<byte> :: |s| == 32 ==> Enc(Str(s)) == [0xd9, 0x20] + s
    ensures forall s: seq<byte> :: |s| == 256 ==> Enc(Str(s)) == [0xda, 0x01, 0x00] + s
    ensures Enc(Int(0)) == [0x00] && Enc(Int(127)) == [0x7f] && Enc(Int(128)) == [0xcc, 0x80]
    ensures Enc(Int(256)) == [0xcd, 0x01, 0x00] && Enc(Int(65536)) == [0xce, 0x00, 0x01, 0x00, 0x00]
    ensures Enc(Int(4294967296)) == [0xcf, 0, 0, 0, 1, 0, 0, 0, 0]
    ensures Enc(Int(-1)) == [0xff] && Enc(Int(-32)) == [0xe0] && Enc(Int(-33)) == [0xd0, 0xdf]
    ensures Enc(Bool(true)) == [0xc3] && Enc(Bool(false)) == [0xc2]
    ensures Enc(Arr([Int(1), Int(2)])) == [0x92, 0x01, 0x02]
    ensures Enc(Map([KV([97], Int(0)), KV([98], Bool(true))])) == [0x82, 0xa1, 97, 0x00, 0xa1, 98, 0xc3]
  {
    GoldenNumbers();
    hide BE;
    GoldenContainers();
    assert Enc(Str([104, 105])) == [0xa2] + [104, 105];
    hide EncAll, EncPairs;
  }

  lemma GoldenNumbers()
    ensures BE(2, 256) == [1, 0] && BE(4, 65536) == [0, 1, 0, 0] && BE(8, 4294967296) == [0, 0, 0, 1, 0, 0, 0, 0]
  {
    assert BE(1, 1) == [1] && BE(2, 1) == [0, 1];
    assert BE(3, 256) == [0, 1, 0];
    assert BE(3, 1) == [0, 0, 1];
    assert BE(4, 1) == [0, 0, 0, 1];
    assert BE(5, 256) == [0, 0, 0, 1, 0] && BE(6, 65536) == [0, 0, 0, 1, 0, 0];
    assert BE(7, 16777216) == [0, 0, 0, 1, 0, 0, 0];
  }

  lemma GoldenContainers()
    ensures Enc(Arr([Int(1), Int(2)])) == [0x92, 0x01, 0x02]
    ensures Enc(Map([KV([97], Int(0)), KV([98], Bool(true))])) == [0x82, 0xa1, 97, 0x00, 0xa1, 98, 0xc3]
  {
    var xs := [Int(1), Int(2)];
    assert EncAll(xs[1..]) == [2];
    assert EncAll(xs) == [1, 2];
    var kvs := [KV([97], Int(0)), KV([98], Bool(true))];
    assert EncPairs(kvs[1..][1..]) == [];
    assert EncPairs(kvs[1..]) == [0xa1, 98, 0xc3];
    assert EncPairs(kvs) == [0xa1, 97, 0x00] + EncPairs(kvs[1..]);
  }

  // ---- the decoder ----

  datatype Parse<+T> = Fail | Got(value: T, rest: seq<byte>)

  function ReadBE(k: nat, bs: seq<byte>): Parse<nat> {
    if |bs| < k then Fail else Got(FromBE(bs[..k]), bs[k..])
  }

  function Take(n: nat, bs: seq<byte>): Parse<seq<byte>> {
    if |bs| < n then Fail else Got(bs[..n], bs[n..])
  }

  /** The length a str header announces: fixstr, str 8, str 16, str 32. */
  function ReadStrLen(bs: seq<byte>): Parse<nat> {
    if bs == [] then Fail
    else if 0xa0 <= bs[0] < 0xc0 then Got(bs[0] - 0xa0, bs[1..])
    else if bs[0] == 0xd9 then ReadBE(1, bs[1..])
    else if bs[0] == 0xda then ReadBE(2, bs[1..])
    else if bs[0] == 0xdb then ReadBE(4, bs[1..])
    else Fail
  }

  function DecStr(bs: seq<byte>): (p: Parse<seq<byte>>)
    ensures p.Got? ==> |p.rest| + |p.value| < |bs|
  {
    match ReadStrLen(bs)
    case Fail => Fail
    case Got(n, rest) => Take(n, rest)
  }

  /** The number a `k`-byte two's complement word stands for. */
  function Signed(k: nat, n: nat): int {
    if 2 * n >= Pow256(k) then n - Pow256(k) else n
  }

  /** Integers decode to unsigned when they can. */
  function IntValue(n: int): Value
    requires -0x8000_0000_0000_0000 <= n < 0x1_0000_0000_0000_0000
  {
    if n >= 0 then Uint(n) else Int(n)
  }

  predicate IsInt(n: int) { -0x8000_0000_0000_0000 <= n < 0x1_0000_0000_0000_0000 }

  /** positive fixint, negative fixint, uint 8 to 64 and int 8 to 64. */
  function DecInt(bs: seq<byte>): Parse<int> {
    if bs == [] then Fail
    else if bs[0] < 0x80 then Got(bs[0], bs[1..])
    else if bs[0] >= 0xe0 then Got(bs[0] as int - 0x100, bs[1..])
    else if 0xcc <= bs[0] <= 0xcf then ReadBE(WidthOf(bs[0] - 0xcc), bs[1..])
    else if 0xd0 <= bs[0] <= 0xd3 then
      match ReadBE(WidthOf(bs[0] - 0xd0), bs[1..])
      case Fail => Fail
      case Got(n, rest) => Got(Signed(WidthOf(bs[0] - 0xd0), n), rest)
    else Fail
  }

  function WidthOf(log: nat): nat { if log == 0 then 1 else if log == 1 then 2 else if log == 2 then 4 else 8 }

  /** fixarray and array 16. */
  function ReadArrayLen(bs: seq<byte>): Parse<nat> {
    if bs == [] then Fail
    else if 0x90 <= bs[0] < 0xa0 then Got(bs[0] - 0x90, bs[1..])
    else if bs[0] == 0xdc then ReadBE(2, bs[1..])
    else Fail
  }

  /** fixmap and map 16. */
  function ReadMapLen(bs: seq<byte>): Parse<nat> {
    if bs == [] then Fail
    else if 0x80 <= bs[0] < 0x90 then Got(bs[0] - 0x80, bs[1..])
    else if bs[0] == 0xde then ReadBE(2, bs[1..])
    else Fail
  }

  /** Decodes one value and returns the bytes after it. */
  function Dec(bs: seq<byte>): (p: Parse<Value>)
    ensures p.Got? ==> |p.rest| < |bs|
    decreases |bs|, 0
  {
    if bs == [] then Fail
    else if bs[0] == 0xc2 || bs[0] == 0xc3 then Got(Bool(bs[0] == 0xc3), bs[1..])
    else if DecInt(bs).Got? && IsInt(DecInt(bs).value) then Got(IntValue(DecInt(bs).value), DecInt(bs).rest)
    else if DecStr(bs).Got? then Got(Str(DecStr(bs).value), DecStr(bs).rest)
    else if ReadArrayLen(bs).Got? then
      match DecAll(ReadArrayLen(bs).value, ReadArrayLen(bs).rest)
      case Fail => Fail
      case Got(xs, rest) => Got(Arr(xs), rest)
    else if ReadMapLen(bs).Got? then
      match DecPairs(ReadMapLen(bs).value, ReadMapLen(bs).rest)
      case Fail => Fail
      case Got(kvs, rest) => Got(Map(kvs), rest)
    else Fail
  }

  function DecAll(n: nat, bs: seq<byte>): (p: Parse<seq<Value>>)
    ensures p.Got? ==> |p.rest| <= |bs| && |p.value| == n
    decreases |bs|, 1
  {
    if n == 0 then Got([], bs)
    else
      match Dec(bs)
      case Fail => Fail
      case Got(x, rest) =>
        match DecAll(n - 1, rest)
        case Fail => Fail
        case Got(xs, end) => Got([x] + xs, end)
  }

  function DecPairs(n: nat, bs: seq<byte>): (p: Parse<seq<KV>>)
    ensures p.Got? ==> |p.rest| <= |bs| && |p.value| == n
    decreases |bs|, 1
  {
    if n == 0 then Got([], bs)
    else
      match DecStr(bs)
      case Fail => Fail
      case Got(k, afterKey) =>
        match Dec(afterKey)
        case Fail => Fail
        case Got(x, rest) =>
          match DecPairs(n - 1, rest)
          case Fail => Fail
          case Got(kvs, end) => Got([KV(k, x)] + kvs, end)
  }

  // ---- what the decoder recovers ----

  /** Strings under 2^32 bytes, arrays and maps under 65536 entries, all the way down: what the
      headers can announce. */
  predicate WellSized(v: Value) {
    match v
    case Str(s) => |s| < 0x1_0000_0000
    case Arr(xs) => |xs| < 0x1_0000 && forall i :: 0 <= i < |xs| ==> WellSized(xs[i])
    case Map(kvs) => |kvs| < 0x1_0000 && forall i :: 0 <= i < |kvs| ==> |kvs[i].k| < 0x1_0000_0000 && WellSized(kvs[i].v)
    case _ => true
  }

  /** The value up to the one thing the bytes do not say: whether a non-negative integer was
      signed or unsigned in the program. */
  function Canon(v: Value): Value
    decreases v, 1
  {
    match v
    case Int(i) => IntValue(i)
    case Arr(xs) => Arr(CanonAll(xs))
    case Map(kvs) => Map(CanonPairs(kvs))
    case _ => v
  }

  function CanonAll(xs: seq<Value>): (ys: seq<Value>)
    ensures |ys| == |xs| && forall i :: 0 <= i < |xs| ==> ys[i] == Canon(xs[i])
    decreases xs, 0
  {
    if xs == [] then [] else [Canon(xs[0])] + CanonAll(xs[1..])
  }

  function CanonPairs(kvs: seq<KV>): (ys: seq<KV>)
    ensures |ys| == |kvs| && forall i :: 0 <= i < |kvs| ==> ys[i] == KV(kvs[i].k, Canon(kvs[i].v))
    decreases kvs, 0
  {
    if kvs == [] then [] else [KV(kvs[0].k, Canon(kvs[0].v))] + CanonPairs(kvs[1..])
  }

  lemma ReadBack(k: nat, n: nat, rest: seq<byte>)
    requires n < Pow256(k)
    ensures ReadBE(k, BE(k, n) + rest) == Got(n, rest)
  {
    ReadBackBE(k, n);
    assert (BE(k, n) + rest)[..k] == BE(k, n);
    assert (BE(k, n) + rest)[k..] == rest;
  }

  /** Splits a one-byte tag off a concatenation. */
  lemma Tagged(tag: byte, more: seq<byte>, rest: seq<byte>)
    ensures ([tag] + more + rest)[0] == tag && ([tag] + more + rest)[1..] == more + rest
  {
  }

  lemma StrHeaderRead(n: nat, rest: seq<byte>)
    requires n < 0x1_0000_0000
    ensures ReadStrLen(StrHeader(n) + rest) == Got(n, rest)
  {
    Pow256Values();
    if n >= 32 {
      var k := if n < 256 then 1 else if n < 65536 then 2 else 4;
      assert n < 256 ==> BE(1, n) == [n];
      Tagged(StrHeader(n)[0], BE(k, n), rest);
      assert StrHeader(n) == [StrHeader(n)[0]] + BE(k, n);
      ReadBack(k, n, rest);
    }
  }

  lemma StrRead(s: seq<byte>, rest: seq<byte>)
    requires |s| < 0x1_0000_0000
    ensures DecStr(EncStr(s) + rest) == Got(s, rest)
  {
    StrHeaderRead(|s|, s + rest);
    assert EncStr(s) + rest == StrHeader(|s|) + (s + rest);
    assert (s + rest)[..|s|] == s && (s + rest)[|s|..] == rest;
  }

  lemma UintRead(n: uint64, rest: seq<byte>)
    ensures DecInt(EncUint(n) + rest) == Got(n, rest)
  {
    Pow256Values();
    if n >= 128 {
      var k := if n < 256 then 1 else if n < 65536 then 2 else if n < 0x1_0000_0000 then 4 else 8;
      assert n < 256 ==> BE(1, n) == [n];
      assert EncUint(n) == [EncUint(n)[0]] + BE(k, n);
      Tagged(EncUint(n)[0], BE(k, n), rest);
      ReadBack(k, n, rest);
    }
  }

  lemma IntRead(n: int64, rest: seq<byte>)
    ensures DecInt(EncInt(n) + rest) == Got(n, rest)
  {
    if n >= 0 {
      UintRead(n, rest);
    } else if n < -32 {
      NegativeRead(n, rest, if n >= -128 then 1 else if n >= -0x8000 then 2 else if n >= -0x8000_0000 then 4 else 8);
    }
  }

  lemma NegativeRead(n: int64, rest: seq<byte>, k: nat)
    requires n < -32 && k == if n >= -128 then 1 else if n >= -0x8000 then 2 else if n >= -0x8000_0000 then 4 else 8
    ensures DecInt(EncInt(n) + rest) == Got(n, rest)
  {
    Pow256Values();
    var m := n + Pow256(k);
    assert k == 1 ==> BE(1, m) == [m];
    hide BE, Pow256;
    assert EncInt(n) == [EncInt(n)[0]] + BE(k, m);
    Tagged(EncInt(n)[0], BE(k, m), rest);
    ReadBack(k, m, rest);
  }

  lemma ArrayHeaderRead(n: nat, rest: seq<byte>)
    requires n < 0x1_0000
    ensures ReadArrayLen(ArrayHeader(n) + rest) == Got(n, rest)
  {
    Pow256Values();
    if n >= 16 {
      Tagged(0xdc, BE(2, n), rest);
      ReadBack(2, n, rest);
    }
  }

  lemma MapHeaderRead(n: nat, rest: seq<byte>)
    requires n < 0x1_0000
    ensures ReadMapLen(MapHeader(n) + rest) == Got(n, rest)
  {
    Pow256Values();
    if n >= 16 {
      Tagged(0xde, BE(2, n), rest);
      ReadBack(2, n, rest);
    }
  }

  /** At most one of the decoder's branches takes a given first byte. */
  lemma DecRoutes(bs: seq<byte>)
    ensures DecInt(bs).Got? ==> !DecStr(bs).Got? && !ReadArrayLen(bs).Got? && !ReadMapLen(bs).Got?
    ensures DecStr(bs).Got? ==> !ReadArrayLen(bs).Got? && !ReadMapLen(bs).Got?
    ensures ReadArrayLen(bs).Got? ==> !ReadMapLen(bs).Got?
    ensures DecInt(bs).Got? || DecStr(bs).Got? || ReadArrayLen(bs).Got? || ReadMapLen(bs).Got? ==>
      bs != [] && bs[0] != 0xc2 && bs[0] != 0xc3
  {
  }

  /** Round trip: the decoder recovers the value and leaves what follows untouched. */
  lemma {:induction false} RoundTrip(v: Value, rest: seq<byte>)
    requires Supported(v) && WellSized(v)
    ensures Dec(Enc(v) + rest) == Got(Canon(v), rest)
    decreases v, 1
  {
    hide EncStr, EncInt, EncUint, DecStr, DecInt, ArrayHeader, MapHeader, ReadArrayLen, ReadMapLen;
    DecRoutes(Enc(v) + rest);
    match v
    case Str(s) => StrRead(s, rest);
    case Bool(b) =>
    case Int(i) => IntRead(i, rest);
    case Uint(u) => UintRead(u, rest);
    case Arr(xs) =>
      assert Enc(v) + rest == ArrayHeader(|xs|) + (EncAll(xs) + rest);
      ArrayHeaderRead(|xs|, EncAll(xs) + rest);
      RoundTripAll(xs, rest);
    case Map(kvs) =>
      assert Enc(v) + rest == MapHeader(|kvs|) + (EncPairs(kvs) + rest);
      MapHeaderRead(|kvs|, EncPairs(kvs) + rest);
      RoundTripPairs(kvs, rest);
  }

  lemma {:induction false} RoundTripAll(xs: seq<Value>, rest: seq<byte>)
    requires forall i :: 0 <= i < |xs| ==> Supported(xs[i]) && WellSized(xs[i])
    ensures DecAll(|xs|, EncAll(xs) + rest) == Got(CanonAll(xs), rest)
    decreases xs, 0
  {
    if xs != [] {
      assert EncAll(xs) + rest == Enc(xs[0]) + (EncAll(xs[1..]) + rest);
      RoundTrip(xs[0], EncAll(xs[1..]) + rest);
      RoundTripAll(xs[1..], rest);
    } else {
      assert EncAll(xs) + rest == rest;
    }
  }

  lemma {:induction false} RoundTripPairs(kvs: seq<KV>, rest: seq<byte>)
    requires forall i :: 0 <= i < |kvs| ==> Supported(kvs[i].v) && WellSized(kvs[i].v) && |kvs[i].k| < 0x1_0000_0000
    ensures DecPairs(|kvs|, EncPairs(kvs) + rest) == Got(CanonPairs(kvs), rest)
    decreases kvs, 0
  {
    hide EncStr, DecStr, Enc, Dec, Canon;
    if kvs != [] {
      var tail := Enc(kvs[0].v) + (EncPairs(kvs[1..]) + rest);
      assert EncPairs(kvs) + rest == EncStr(kvs[0].k) + tail;
      StrRead(kvs[0].k, tail);
      RoundTrip(kvs[0].v, EncPairs(kvs[1..]) + rest);
      RoundTripPairs(kvs[1..], rest);
    } else {
      assert EncPairs(kvs) + rest == rest;
    }
  }

  /** Encodings are prefix-free: bytes begin with the encoding of at most one value. */
  lemma PrefixFree(v: Value, w: Value, x: seq<byte>, y: seq<byte>)
    requires Supported(v) && WellSized(v) && Supported(w) && WellSized(w)
    requires Enc(v) + x == Enc(w) + y
    ensures Canon(v) == Canon(w) && x == y
  {
    RoundTrip(v, x);
    RoundTrip(w, y);
  }

  lemma ReadBEBound(k: nat, bs: seq<byte>)
    requires |bs| >= k
    ensures FromBE(bs[..k]) < Pow256(k)
  {
    FromBEBound(bs[..k]);
  }

  lemma HeaderBounds(bs: seq<byte>)
    ensures ReadStrLen(bs).Got? ==> ReadStrLen(bs).value < 0x1_0000_0000
    ensures ReadArrayLen(bs).Got? ==> ReadArrayLen(bs).value < 0x1_0000
    ensures ReadMapLen(bs).Got? ==> ReadMapLen(bs).value < 0x1_0000
  {
    Pow256Values();
    if |bs| >= 2 { ReadBEBound(1, bs[1..]); }
    if |bs| >= 3 { ReadBEBound(2, bs[1..]); }
    if |bs| >= 5 { ReadBEBound(4, bs[1..]); }
  }

  lemma DecStrBound(bs: seq<byte>)
    requires DecStr(bs).Got?
    ensures |DecStr(bs).value| < 0x1_0000_0000
  {
    HeaderBounds(bs);
  }

  /** Everything the decoder returns is a value the encoder can announce, in canonical form. */
  lemma {:induction false} DecodedIsSound(bs: seq<byte>)
    requires Dec(bs).Got?
    ensures var v := Dec(bs).value; Supported(v) && WellSized(v) && Canon(v) == v
    decreases |bs|, 0
  {
    HeaderBounds(bs);
    if Dec(bs).value.Arr? {
      DecodedAllIsSound(ReadArrayLen(bs).value, ReadArrayLen(bs).rest);
    } else if Dec(bs).value.Map? {
      DecodedPairsAreSound(ReadMapLen(bs).value, ReadMapLen(bs).rest);
    }
  }

  lemma {:induction false} DecodedAllIsSound(n: nat, bs: seq<byte>)
    requires DecAll(n, bs).Got?
    ensures var xs := DecAll(n, bs).value;
      CanonAll(xs) == xs && forall i :: 0 <= i < |xs| ==> Supported(xs[i]) && WellSized(xs[i])
    decreases |bs|, 1
  {
    hide Dec;
    if n > 0 {
      DecodedIsSound(bs);
      DecodedAllIsSound(n - 1, Dec(bs).rest);
    }
  }

  lemma {:induction false} DecodedPairsAreSound(n: nat, bs: seq<byte>)
    requires DecPairs(n, bs).Got?
    ensures var kvs := DecPairs(n, bs).value;
      && CanonPairs(kvs) == kvs
      && forall i :: 0 <= i < |kvs| ==> Supported(kvs[i].v) && WellSized(kvs[i].v) && |kvs[i].k| < 0x1_0000_0000
    decreases |bs|, 1
  {
    hide Dec, DecStr;
    if n > 0 {
      DecStrBound(bs);
      DecodedIsSound(DecStr(bs).rest);
      DecodedPairsAreSound(n - 1, Dec(DecStr(bs).rest).rest);
    }
  }

  lemma {:induction false} CanonKeepsSizes(v: Value)
    ensures WellSized(Canon(v)) <==> WellSized(v)
  {
    match v
    case Arr(xs) =>
      forall i | 0 <= i < |xs| ensures WellSized(CanonAll(xs)[i]) <==> WellSized(xs[i]) { CanonKeepsSizes(xs[i]); }
    case Map(kvs) =>
      forall i | 0 <= i < |kvs| ensures WellSized(CanonPairs(kvs)[i].v) <==> WellSized(kvs[i].v) { CanonKeepsSizes(kvs[i].v); }
    case _ =>
  }

  /** The round trip holds for exactly the values whose sizes the headers can announce. */
  lemma RoundTripExactlyWhenSized(v: Value, rest: seq<byte>)
    requires Supported(v)
    ensures Dec(Enc(v) + rest) == Got(Canon(v), rest) <==> WellSized(v)
  {
    CanonKeepsSizes(v);
    if WellSized(v) {
      RoundTrip(v, rest);
    } else if Dec(Enc(v) + rest).Got? {
      DecodedIsSound(Enc(v) + rest);
    }
  }

  // ---- the encoder never wastes a byte ----

  lemma ShortestInt(bs: seq<byte>)
    requires DecInt(bs).Got? && IsInt(DecInt(bs).value)
    ensures |Enc(IntValue(DecInt(bs).value))| + |DecInt(bs).rest| <= |bs|
  {
    Pow256Values();
    if |bs| >= 2 { ReadBEBound(1, bs[1..]); }
    if |bs| >= 3 { ReadBEBound(2, bs[1..]); }
    if |bs| >= 5 { ReadBEBound(4, bs[1..]); }
  }

  lemma ShortestStr(bs: seq<byte>)
    requires DecStr(bs).Got?
    ensures |EncStr(DecStr(bs).value)| + |DecStr(bs).rest| <= |bs|
  {
    Pow256Values();
    if |bs| >= 2 { ReadBEBound(1, bs[1..]); }
    if |bs| >= 3 { ReadBEBound(2, bs[1..]); }
  }

  /** Whatever bytes decode to a value, the encoder would have needed no more of them. */
  lemma {:induction false} EncodingIsShortest(bs: seq<byte>)
    requires Dec(bs).Got?
    ensures |Enc(Dec(bs).value)| + |Dec(bs).rest| <= |bs|
    decreases |bs|, 0
  {
    if DecInt(bs).Got? && IsInt(DecInt(bs).value) {
      ShortestInt(bs);
    } else if DecStr(bs).Got? {
      ShortestStr(bs);
    } else if ReadArrayLen(bs).Got? {
      ShortestAll(ReadArrayLen(bs).value, ReadArrayLen(bs).rest);
    } else if ReadMapLen(bs).Got? {
      ShortestPairs(ReadMapLen(bs).value, ReadMapLen(bs).rest);
    }
  }

  lemma {:induction false} ShortestAll(n: nat, bs: seq<byte>)
    requires DecAll(n, bs).Got?
    ensures |EncAll(DecAll(n, bs).value)| + |DecAll(n, bs).rest| <= |bs|
    decreases |bs|, 1
  {
    if n > 0 {
      EncodingIsShortest(bs);
      ShortestAll(n - 1, Dec(bs).rest);
      assert DecAll(n, bs).value[1..] == DecAll(n - 1, Dec(bs).rest).value;
    }
  }

  lemma {:induction false} ShortestPairs(n: nat, bs: seq<byte>)
    requires DecPairs(n, bs).Got?
    ensures |EncPairs(DecPairs(n, bs).value)| + |DecPairs(n, bs).rest| <= |bs|
    decreases |bs|, 1
  {
    if n > 0 {
      ShortestStr(bs);
      EncodingIsShortest(DecStr(bs).rest);
      ShortestPairs(n - 1, Dec(DecStr(bs).rest).rest);
      assert DecPairs(n, bs).value[1..] == DecPairs(n - 1, Dec(DecStr(bs).rest).rest).value;
    }
  }

  // ---- oversized arrays collide ----

  function Trues(n: nat): seq<Value> { seq(n, _ => Bool(true)) }

  lemma {:induction false} EncTrues(n: nat)
    ensures EncAll(Trues(n)) == seq<byte>(n, _ => 0xc3)
  {
    if n > 0 {
      EncTrues(n - 1);
      assert Trues(n)[1..] == Trues(n - 1);
    }
  }

  /** An array whose announced length is a multiple of 65536 over 16, holding one such array. */
  lemma EncNested(n: nat, m: nat)
    requires n >= 16 && m >= 15
    ensures Enc(Arr([Arr(Trues(n))] + Trues(m))) == [0xdc] + BE(2, m + 1) + [0xdc] + BE(2, n) + seq<byte>(n + m, _ => 0xc3)
  {
    var xs := [Arr(Trues(n))] + Trues(m);
    assert xs[1..] == Trues(m);
    EncTrues(n);
    EncTrues(m);
    assert Enc(Arr(Trues(n))) == [0xdc] + BE(2, n) + seq<byte>(n, _ => 0xc3);
    assert EncAll(xs) == Enc(Arr(Trues(n))) + seq<byte>(m, _ => 0xc3);
    assert seq<byte>(n, _ => 0xc3) + seq<byte>(m, _ => 0xc3) == seq<byte>(n + m, _ => 0xc3);
  }

  lemma CutTo16Bits()
    ensures BE(2, 65552) == BE(2, 16) && BE(2, 65536) == BE(2, 131072)
  {
    assert BE(1, 256) == [0] == BE(1, 0) == BE(1, 512);
  }

  /** Beyond 65535 entries the length is cut to 16 bits and two different arrays can come out as
      the same bytes. */
  lemma OversizedArraysCollide()
    ensures var a, b := Arr([Arr(Trues(65536))] + Trues(65551)), Arr([Arr(Trues(131072))] + Trues(15));
      Supported(a) && Supported(b) && |a.xs| != |b.xs| && Enc(a) == Enc(b)
  {
    hide Enc;
    EncNested(65536, 65551);
    EncNested(131072, 15);
    CutTo16Bits();
  }
}
