/** Encodings that stay unambiguous although an array's length was cut to 16 bits.

    An array of maps can be told to have ended by what follows it: a string, or too few bytes for
    the 65536 maps its header would otherwise have to stand for. Every action is such a value. */
module LongArrays {
  import opened Numbers
  import opened Msgpack

  predicate Sized(xs: seq<Value>) { forall i :: 0 <= i < |xs| ==> Supported(xs[i]) && WellSized(xs[i]) }

  predicate Maps(xs: seq<Value>) { forall i :: 0 <= i < |xs| ==> xs[i].Map? }

  /** What a field may hold: a value whose sizes can be announced, or any number of maps. */
  predicate FieldSized(v: Value) { WellSized(v) || (v.Arr? && Sized(v.xs) && Maps(v.xs)) }

  predicate SelfDelimiting(v: Value) {
    Supported(v)
    && match v
       case Map(kvs) =>
         |kvs| < 0x1_0000 && forall i :: 0 <= i < |kvs| ==> |kvs[i].k| < 0x1_0000_0000 && FieldSized(kvs[i].v)
       case _ => WellSized(v)
  }

  /** Nothing is lost: every value that the decoder recovers is self-delimiting. */
  lemma SizedIsSelfDelimiting(v: Value)
    requires Supported(v) && WellSized(v)
    ensures SelfDelimiting(v)
  {
  }

  predicate MapTag(c: byte) { 0x80 <= c < 0x90 || c == 0xde }

  predicate ArrTag(c: byte) { 0x90 <= c < 0xa0 || c == 0xdc }

  predicate StrTag(c: byte) { 0xa0 <= c < 0xc0 || 0xd9 <= c <= 0xdb }

  /** The first byte tells maps, arrays and the rest apart. */
  lemma FirstByte(v: Value)
    requires Supported(v)
    ensures Enc(v) != [] && (v.Map? <==> MapTag(Enc(v)[0])) && (v.Arr? <==> ArrTag(Enc(v)[0]))
  {
  }

  lemma StrFirstByte(s: seq<byte>)
    ensures EncStr(s) != [] && StrTag(EncStr(s)[0])
  {
  }

  /** After these bytes an array of maps is over. */
  predicate Closes(x: seq<byte>) { |x| < 0x1_0000 || !MapTag(x[0]) }

  lemma {:induction false} AtLeastOneByteEach(xs: seq<Value>)
    requires Sized(xs)
    ensures |EncAll(xs)| >= |xs|
  {
    if xs != [] {
      FirstByte(xs[0]);
      hide Enc;
      AtLeastOneByteEach(xs[1..]);
    }
  }

  /** More maps do not close an array, unless there are fewer than 65536. */
  lemma MapsGoOn(xs: seq<Value>, x: seq<byte>)
    requires Sized(xs) && Maps(xs)
    ensures xs != [] && Closes(EncAll(xs) + x) ==> |xs| < 0x1_0000
  {
    if xs != [] {
      AtLeastOneByteEach(xs);
      FirstByte(xs[0]);
      hide Enc;
      assert (EncAll(xs) + x)[0] == Enc(xs[0])[0];
    }
  }

  lemma EncAllStep(xs: seq<Value>, x: seq<byte>)
    requires xs != []
    ensures EncAll(xs) + x == Enc(xs[0]) + (EncAll(xs[1..]) + x)
  {
    hide Enc;
  }

  lemma RestIsSized(xs: seq<Value>)
    requires xs != [] && Sized(xs)
    ensures Sized(xs[1..]) && (Maps(xs) ==> Maps(xs[1..]))
  {
  }

  lemma CanonAllStep(xs: seq<Value>)
    requires xs != []
    ensures CanonAll(xs) == [Canon(xs[0])] + CanonAll(xs[1..])
  {
  }

  /** Elements one after another, their numbers equal up to a multiple of 65536, and after each
      list something that closes it: the lists are equal, and so is what follows. */
  lemma {:induction false} ElementsUnambiguous(xs: seq<Value>, ys: seq<Value>, x: seq<byte>, y: seq<byte>)
    requires Sized(xs) && Sized(ys) && (|xs| - |ys|) % 0x1_0000 == 0
    requires (|xs| > |ys| ==> Maps(xs)) && (|ys| > |xs| ==> Maps(ys)) && Closes(x) && Closes(y)
    requires EncAll(xs) + x == EncAll(ys) + y
    ensures CanonAll(xs) == CanonAll(ys) && x == y
  {
    hide Sized, Maps, Closes;
    if xs == [] || ys == [] {
      OneIsEmpty(xs, ys, x, y);
    } else {
      hide EncAll, CanonAll;
      EncAllStep(xs, x);
      EncAllStep(ys, y);
      RestIsSized(xs);
      RestIsSized(ys);
      HeadIsSized(xs);
      HeadIsSized(ys);
      PrefixFree(xs[0], ys[0], EncAll(xs[1..]) + x, EncAll(ys[1..]) + y);
      ElementsUnambiguous(xs[1..], ys[1..], x, y);
      CanonAllStep(xs);
      CanonAllStep(ys);
    }
  }

  lemma HeadIsSized(xs: seq<Value>)
    requires xs != [] && Sized(xs)
    ensures Supported(xs[0]) && WellSized(xs[0])
  {
  }

  lemma OneIsEmpty(xs: seq<Value>, ys: seq<Value>, x: seq<byte>, y: seq<byte>)
    requires Sized(xs) && Sized(ys) && (|xs| - |ys|) % 0x1_0000 == 0 && (xs == [] || ys == [])
    requires (|xs| > |ys| ==> Maps(xs)) && (|ys| > |xs| ==> Maps(ys)) && Closes(x) && Closes(y)
    requires EncAll(xs) + x == EncAll(ys) + y
    ensures xs == [] && ys == [] && x == y
  {
    hide Closes, Maps, Sized, EncAll;
    assert [] + x == x && [] + y == y;
    if xs == [] { NoElements(xs); } else { MapsGoOn(xs, x); }
    if ys == [] { NoElements(ys); } else { MapsGoOn(ys, y); }
  }

  /** A header keeps the length's low 16 bits. */
  lemma HeaderKeeps16Bits(m: nat, n: nat, x: seq<byte>, y: seq<byte>)
    requires ArrayHeader(m) + x == ArrayHeader(n) + y
    ensures (m - n) % 0x1_0000 == 0 && x == y
  {
    var s, t := ArrayHeader(m) + x, ArrayHeader(n) + y;
    assert s[0] == ArrayHeader(m)[0] && t[0] == ArrayHeader(n)[0];
    var k := |ArrayHeader(m)|;
    assert s[k..] == x && t[k..] == y && s[..k] == ArrayHeader(m) && t[..k] == ArrayHeader(n);
    if m >= 16 {
      assert ArrayHeader(m)[1..] == BE(2, m) && ArrayHeader(n)[1..] == BE(2, n);
      TwoBytes(m);
      TwoBytes(n);
      SameLow16(m, n);
    }
  }

  lemma TwoBytes(n: nat)
    ensures BE(2, n) == [n / 256 % 256, n % 256]
  {
    assert BE(1, n / 256) == [n / 256 % 256];
  }

  lemma SameLow16(m: nat, n: nat)
    requires m / 256 % 256 == n / 256 % 256 && m % 256 == n % 256
    ensures (m - n) % 0x1_0000 == 0
  {
    var a, b := m / 256 / 256, n / 256 / 256;
    assert m == a * 0x1_0000 + m / 256 % 256 * 256 + m % 256;
    assert n == b * 0x1_0000 + n / 256 % 256 * 256 + n % 256;
    assert m - n == (a - b) * 0x1_0000;
  }

  lemma ArrayUnambiguous(xs: seq<Value>, ys: seq<Value>, x: seq<byte>, y: seq<byte>)
    requires Sized(xs) && Sized(ys) && Closes(x) && Closes(y)
    requires (|xs| >= 0x1_0000 ==> Maps(xs)) && (|ys| >= 0x1_0000 ==> Maps(ys))
    requires ArrayHeader(|xs|) + EncAll(xs) + x == ArrayHeader(|ys|) + EncAll(ys) + y
    ensures CanonAll(xs) == CanonAll(ys) && x == y
  {
    hide Sized, Maps, Closes, EncAll, ArrayHeader, CanonAll;
    Regroup(ArrayHeader(|xs|), EncAll(xs), x);
    Regroup(ArrayHeader(|ys|), EncAll(ys), y);
    HeaderKeeps16Bits(|xs|, |ys|, EncAll(xs) + x, EncAll(ys) + y);
    ElementsUnambiguous(xs, ys, x, y);
  }

  lemma Regroup(a: seq<byte>, b: seq<byte>, c: seq<byte>)
    ensures a + b + c == a + (b + c)
  {
  }

  lemma FieldUnambiguous(v: Value, w: Value, x: seq<byte>, y: seq<byte>)
    requires Supported(v) && Supported(w) && FieldSized(v) && FieldSized(w) && Closes(x) && Closes(y)
    requires Enc(v) + x == Enc(w) + y
    ensures Canon(v) == Canon(w) && x == y
  {
    if WellSized(v) && WellSized(w) {
      PrefixFree(v, w, x, y);
    } else {
      FirstByte(v);
      FirstByte(w);
      assert Enc(v)[0] == (Enc(v) + x)[0] == (Enc(w) + y)[0] == Enc(w)[0];
      assert v.Arr? && w.Arr?;
      hide Closes, EncAll, ArrayHeader, CanonAll, Maps, MapTag, ArrTag;
      ArrayUnambiguous(v.xs, w.xs, x, y);
    }
  }

  ghost predicate PairsSized(kvs: seq<KV>) {
    forall i :: 0 <= i < |kvs| ==> Supported(kvs[i].v) && |kvs[i].k| < 0x1_0000_0000 && FieldSized(kvs[i].v)
  }

  lemma PairsStep(kvs: seq<KV>, x: seq<byte>)
    requires kvs != [] && PairsSized(kvs) && |x| < 0x1_0000
    ensures EncPairs(kvs) + x == EncStr(kvs[0].k) + (Enc(kvs[0].v) + (EncPairs(kvs[1..]) + x))
    ensures PairsSized(kvs[1..]) && Closes(EncPairs(kvs[1..]) + x)
    ensures CanonPairs(kvs) == [KV(kvs[0].k, Canon(kvs[0].v))] + CanonPairs(kvs[1..])
  {
    hide Enc, EncStr, FieldSized, Canon;
    var rest := kvs[1..];
    if rest != [] {
      StrFirstByte(rest[0].k);
      assert (EncPairs(rest) + x)[0] == EncStr(rest[0].k)[0];
    }
  }

  lemma {:induction false} PairsUnambiguous(p: seq<KV>, q: seq<KV>, x: seq<byte>, y: seq<byte>)
    requires |p| == |q| && PairsSized(p) && PairsSized(q) && |x| < 0x1_0000 && |y| < 0x1_0000
    requires EncPairs(p) + x == EncPairs(q) + y
    ensures CanonPairs(p) == CanonPairs(q) && x == y
  {
    hide Enc, EncStr, EncPairs, FieldSized, Closes, Canon, CanonPairs, DecStr;
    if p == [] {
      NoPairs(p);
      NoPairs(q);
      assert [] + x == x && [] + y == y;
      assert p == q;
    } else {
      PairsStep(p, x);
      PairsStep(q, y);
      var restP, restQ := EncPairs(p[1..]) + x, EncPairs(q[1..]) + y;
      StrRead(p[0].k, Enc(p[0].v) + restP);
      StrRead(q[0].k, Enc(q[0].v) + restQ);
      FieldUnambiguous(p[0].v, q[0].v, restP, restQ);
      PairsUnambiguous(p[1..], q[1..], x, y);
    }
  }

  /** Self-delimiting values are unambiguous in front of anything shorter than 65536 bytes. */
  lemma Unambiguous(v: Value, w: Value, x: seq<byte>, y: seq<byte>)
    requires SelfDelimiting(v) && SelfDelimiting(w) && |x| < 0x1_0000 && |y| < 0x1_0000
    requires Enc(v) + x == Enc(w) + y
    ensures Canon(v) == Canon(w) && x == y
  {
    FirstByte(v);
    FirstByte(w);
    assert Enc(v)[0] == (Enc(v) + x)[0] == (Enc(w) + y)[0] == Enc(w)[0];
    hide EncPairs, MapHeader, CanonPairs, FieldSized, MapTag, ArrTag;
    if v.Map? {
      var p, q := v.kvs, w.kvs;
      Regroup(MapHeader(|p|), EncPairs(p), x);
      Regroup(MapHeader(|q|), EncPairs(q), y);
      MapHeaderRead(|p|, EncPairs(p) + x);
      MapHeaderRead(|q|, EncPairs(q) + y);
      PairsUnambiguous(p, q, x, y);
    } else {
      PrefixFree(v, w, x, y);
    }
  }
}
