/** Owner addresses as the services compare them: trimmed, lower-cased, 0x and forty hex digits. */
module Address {
  import opened Wrappers

  /** Go's unicode.IsSpace. */
  predicate IsSpace(c: char) {
    || '\t' <= c <= '\r' || c == ' ' || c == '\U{0085}' || c == '\U{00A0}' || c == '\U{1680}'
    || '\U{2000}' <= c <= '\U{200A}' || c == '\U{2028}' || c == '\U{2029}' || c == '\U{202F}'
    || c == '\U{205F}' || c == '\U{3000}'
  }

  function TrimLeft(s: string): string { if s != "" && IsSpace(s[0]) then TrimLeft(s[1..]) else s }

  function TrimRight(s: string): string { if s != "" && IsSpace(s[|s| - 1]) then TrimRight(s[..|s| - 1]) else s }

  function TrimSpace(s: string): string { TrimRight(TrimLeft(s)) }

  function LowerChar(c: char): char { if 'A' <= c <= 'Z' then c + 32 as char else c }

  function ToLower(s: string): string { seq(|s|, i requires 0 <= i < |s| => LowerChar(s[i])) }

  /** What budgets are grouped by. */
  function OwnerKey(addr: string): string { ToLower(TrimSpace(addr)) }

  predicate IsHexDigit(c: char) { '0' <= c <= '9' || 'a' <= c <= 'f' }

  predicate IsAddress(s: string) { |s| == 42 && s[..2] == "0x" && forall i :: 2 <= i < 42 ==> IsHexDigit(s[i]) }

  function Normalize(addr: string): Option<string> { if IsAddress(OwnerKey(addr)) then Some(OwnerKey(addr)) else None }

  predicate Trimmed(s: string) { s == "" || (!IsSpace(s[0]) && !IsSpace(s[|s| - 1])) }

  lemma {:induction false} TrimLeftStarts(s: string)
    ensures TrimLeft(s) == "" || !IsSpace(TrimLeft(s)[0])
  {
    if s != "" && IsSpace(s[0]) {
      TrimLeftStarts(s[1..]);
    }
  }

  lemma {:induction false} TrimRightKeepsStart(s: string)
    requires s == "" || !IsSpace(s[0])
    ensures Trimmed(TrimRight(s))
  {
    if s != "" && IsSpace(s[|s| - 1]) {
      TrimRightKeepsStart(s[..|s| - 1]);
    }
  }

  /** Keys compare as themselves: taking the key of a key changes nothing. */
  lemma OwnerKeyIdempotent(addr: string)
    ensures OwnerKey(OwnerKey(addr)) == OwnerKey(addr)
    ensures Trimmed(OwnerKey(addr))
  {
    TrimLeftStarts(addr);
    TrimRightKeepsStart(TrimLeft(addr));
    var t, k := TrimSpace(addr), OwnerKey(addr);
    assert Trimmed(t);
    hide TrimLeft, TrimRight;
    if k != "" {
      assert k[0] == LowerChar(t[0]) && k[|k| - 1] == LowerChar(t[|t| - 1]);
    }
    AlreadyTrimmed(k);
    assert forall i :: 0 <= i < |k| ==> LowerChar(k[i]) == k[i];
  }

  lemma AlreadyTrimmed(s: string)
    requires Trimmed(s)
    ensures TrimSpace(s) == s
  {
  }

  /** A valid address normalizes to its own budget key, and normalizing again changes nothing. */
  lemma NormalizeIdempotent(addr: string)
    requires Normalize(addr).Some?
    ensures var a := Normalize(addr).value;
      a == OwnerKey(addr) == OwnerKey(a) && Normalize(a) == Some(a) && a != ""
  {
    OwnerKeyIdempotent(addr);
  }

  predicate AllSpace(s: string) { forall i :: 0 <= i < |s| ==> IsSpace(s[i]) }

  lemma {:induction false} LeftTrimmed(s: string) returns (pad: string)
    ensures AllSpace(pad) && s == pad + TrimLeft(s)
  {
    pad := "";
    if s != "" && IsSpace(s[0]) {
      pad := LeftTrimmed(s[1..]);
      pad := [s[0]] + pad;
    }
  }

  lemma {:induction false} RightTrimmed(s: string) returns (pad: string)
    ensures AllSpace(pad) && s == TrimRight(s) + pad
  {
    pad := "";
    if s != "" && IsSpace(s[|s| - 1]) {
      pad := RightTrimmed(s[..|s| - 1]);
      pad := pad + [s[|s| - 1]];
    }
  }

  /** Trimming takes off white space at both ends, all of it, and nothing else. */
  lemma TrimSpaceMeans(s: string) returns (left: string, right: string)
    ensures s == left + TrimSpace(s) + right && AllSpace(left) && AllSpace(right) && Trimmed(TrimSpace(s))
  {
    TrimLeftStarts(s);
    TrimRightKeepsStart(TrimLeft(s));
    hide TrimLeft, TrimRight, AllSpace;
    left := LeftTrimmed(s);
    right := RightTrimmed(TrimLeft(s));
  }

  predicate HexOfEitherCase(c: char) { '0' <= c <= '9' || 'a' <= c <= 'f' || 'A' <= c <= 'F' }

  /** Exactly the strings that are, between white space, 0x or 0X and forty hex digits of either case. */
  lemma NormalizeExactlyWhen(addr: string)
    ensures var core := TrimSpace(addr);
      Normalize(addr).Some? <==>
        |core| == 42 && core[0] == '0' && core[1] in "xX" && forall i :: 2 <= i < 42 ==> HexOfEitherCase(core[i])
  {
    var core, key := TrimSpace(addr), OwnerKey(addr);
    hide TrimSpace;
    assert |key| == |core| && forall i :: 0 <= i < |core| ==> key[i] == LowerChar(core[i]);
    if |core| == 42 {
      assert key[..2] == [key[0], key[1]];
      assert forall i :: 2 <= i < 42 ==> (IsHexDigit(key[i]) <==> HexOfEitherCase(core[i]));
    }
  }

  predicate SameButCase(c: char, d: char) {
    c == d || ('A' <= c <= 'Z' && d == c + 32 as char) || ('A' <= d <= 'Z' && c == d + 32 as char)
  }

  /** Budgets are grouped without regard to letter case: owners whose trimmed addresses differ in
      nothing else have one key, and no others do. */
  lemma OwnersAreGroupedByCase(a: string, b: string)
    ensures var s, t := TrimSpace(a), TrimSpace(b);
      OwnerKey(a) == OwnerKey(b) <==> |s| == |t| && forall i :: 0 <= i < |s| ==> SameButCase(s[i], t[i])
  {
    var s, t := TrimSpace(a), TrimSpace(b);
    hide TrimSpace;
    assert |OwnerKey(a)| == |s| && |OwnerKey(b)| == |t|;
    if |s| == |t| {
      forall i | 0 <= i < |s| ensures OwnerKey(a)[i] == OwnerKey(b)[i] <==> SameButCase(s[i], t[i]) {
        assert OwnerKey(a)[i] == LowerChar(s[i]) && OwnerKey(b)[i] == LowerChar(t[i]);
      }
    }
  }
}
