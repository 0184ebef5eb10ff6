/** What an L1 action signature commits to: the hash preimage, the phantom-agent digest over it,
    and the ledger's own intent digest. Hashes are arbitrary functions with 32-byte results; no
    theorem takes them to be injective, each names the pair of preimages that would collide. */
module L1Hash {
  import opened Numbers
  import opened Wrappers
  import opened LongArrays
  import opened Msgpack
  import Actions

  type Hash = seq<byte> -> seq<byte>

  ghost predicate Is32(h: Hash) { forall x :: |h(x)| == 32 }

  /** Two different inputs with one hash. */
  predicate Collide(h: Hash, x: seq<byte>, y: seq<byte>) { x != y && h(x) == h(y) }

  function VaultPart(vault: Option<seq<byte>>): seq<byte> { if vault.Some? then [1] + vault.value else [0] }

  function ExpiryPart(expires: Option<uint64>): seq<byte> { if expires.Some? then [0] + BE(8, expires.value) else [] }

  /** action, nonce, vault marker and bytes, and expiry with its own marker if there is one. */
  function Preimage(action: Value, nonce: uint64, vault: Option<seq<byte>>, expires: Option<uint64>): seq<byte> {
    Enc(action) + BE(8, nonce) + VaultPart(vault) + ExpiryPart(expires)
  }

  /** Builds the preimage by successive appends and hashes it. */
  method L1ActionHash(keccak: Hash, action: Value, nonce: uint64, vault: Option<seq<byte>>, expires: Option<uint64>)
    returns (hash: Option<seq<byte>>)
    ensures hash == if Supported(action) then Some(keccak(Preimage(action, nonce, vault, expires))) else None
  {
    hide Enc, BE;
    var ok, actionBytes := Encode(action);
    if !ok { return None; }
    var buf := new Buffer();
    buf.Append(actionBytes);
    assert buf.bytes == actionBytes;
    buf.Append(BE(8, nonce));
    ghost var head := buf.bytes;
    assert head == Enc(action) + BE(8, nonce);
    if vault.Some? {
      buf.Append([1]);
      buf.Append(vault.value);
      Joined(head, [1], vault.value);
    } else {
      buf.Append([0]);
    }
    assert buf.bytes == head + VaultPart(vault);
    ghost var body := buf.bytes;
    if expires.Some? {
      buf.Append([0]);
      buf.Append(BE(8, expires.value));
      Joined(body, [0], BE(8, expires.value));
    } else {
      assert body + [] == body;
    }
    assert buf.bytes == body + ExpiryPart(expires);
    return Some(keccak(buf.bytes));
  }

  lemma Joined(a: seq<byte>, b: seq<byte>, c: seq<byte>)
    ensures a + b + c == a + (b + c)
  {
  }

  /** A vault address is 20 bytes or absent. */
  predicate VaultOk(vault: Option<seq<byte>>) { vault.Some? ==> |vault.value| == 20 }

  lemma SameNumber(k: nat, m: nat, n: nat)
    requires m < Pow256(k) && n < Pow256(k) && BE(k, m) == BE(k, n)
    ensures m == n
  {
    ReadBackBE(k, m);
    ReadBackBE(k, n);
  }

  /** The bytes after the encoded action. */
  function Tail(nonce: uint64, vault: Option<seq<byte>>, expires: Option<uint64>): seq<byte> {
    BE(8, nonce) + (VaultPart(vault) + ExpiryPart(expires))
  }

  lemma ExpiryUnambiguous(d: Option<uint64>, e: Option<uint64>)
    requires ExpiryPart(d) == ExpiryPart(e)
    ensures d == e
  {
    Pow256Values();
    hide BE, Pow256;
    if d.Some? && e.Some? {
      assert ExpiryPart(d)[1..] == BE(8, d.value) && ExpiryPart(e)[1..] == BE(8, e.value);
      SameNumber(8, d.value, e.value);
    }
  }

  lemma VaultUnambiguous(u: Option<seq<byte>>, v: Option<seq<byte>>, x: seq<byte>, y: seq<byte>)
    requires VaultOk(u) && VaultOk(v) && VaultPart(u) + x == VaultPart(v) + y
    ensures u == v && x == y
  {
    var s, t := VaultPart(u) + x, VaultPart(v) + y;
    assert s[0] == (if u.Some? then 1 else 0) && t[0] == if v.Some? then 1 else 0;
    var n := |VaultPart(u)|;
    assert s[..n] == VaultPart(u) && t[..n] == VaultPart(v) && s[n..] == x && t[n..] == y;
    assert VaultPart(u)[1..] == if u.Some? then u.value else [];
    assert VaultPart(v)[1..] == if v.Some? then v.value else [];
  }

  lemma TailUnambiguous(m: uint64, n: uint64, u: Option<seq<byte>>, v: Option<seq<byte>>, d: Option<uint64>, e: Option<uint64>)
    requires VaultOk(u) && VaultOk(v) && Tail(m, u, d) == Tail(n, v, e)
    ensures m == n && u == v && d == e
  {
    Pow256Values();
    hide BE, Pow256, VaultPart, ExpiryPart;
    var s, t := Tail(m, u, d), Tail(n, v, e);
    assert s[..8] == BE(8, m) && t[..8] == BE(8, n);
    SameNumber(8, m, n);
    assert s[8..] == VaultPart(u) + ExpiryPart(d) && t[8..] == VaultPart(v) + ExpiryPart(e);
    VaultUnambiguous(u, v, ExpiryPart(d), ExpiryPart(e));
    ExpiryUnambiguous(d, e);
  }

  lemma EndsInTail(a: Value, nonce: uint64, vault: Option<seq<byte>>, expires: Option<uint64>)
    ensures Preimage(a, nonce, vault, expires) == Enc(a) + Tail(nonce, vault, expires)
  {
    hide Enc, BE;
  }

  lemma TailIsShort(nonce: uint64, vault: Option<seq<byte>>, expires: Option<uint64>)
    requires VaultOk(vault)
    ensures |Tail(nonce, vault, expires)| < 0x1_0000
  {
    hide BE;
  }

  /** The concatenation determines the action (in canonical form), nonce, vault and expiry. */
  lemma PreimageUnambiguous(a: Value, b: Value, m: uint64, n: uint64, u: Option<seq<byte>>, v: Option<seq<byte>>,
                            d: Option<uint64>, e: Option<uint64>)
    requires SelfDelimiting(a) && SelfDelimiting(b) && VaultOk(u) && VaultOk(v)
    requires Preimage(a, m, u, d) == Preimage(b, n, v, e)
    ensures Canon(a) == Canon(b) && m == n && u == v && d == e
  {
    hide Preimage, Tail, Enc, SelfDelimiting, Canon;
    EndsInTail(a, m, u, d);
    EndsInTail(b, n, v, e);
    TailIsShort(m, u, d);
    TailIsShort(n, v, e);
    Unambiguous(a, b, Tail(m, u, d), Tail(n, v, e));
    TailUnambiguous(m, n, u, v, d, e);
  }

  /** For the actions the endpoint builds it determines what is asked for, with lists of any length. */
  lemma ActionPreimageUnambiguous(a: Actions.Action, b: Actions.Action, m: uint64, n: uint64,
                                  u: Option<seq<byte>>, v: Option<seq<byte>>, d: Option<uint64>, e: Option<uint64>)
    requires Actions.StringsAnnounced(a) && Actions.StringsAnnounced(b) && VaultOk(u) && VaultOk(v)
    requires Preimage(Actions.Build(a), m, u, d) == Preimage(Actions.Build(b), n, v, e)
    ensures Actions.Meaning(a) == Actions.Meaning(b) && m == n && u == v && d == e
  {
    hide Preimage, Canon, SelfDelimiting, Actions.Build, Actions.Meaning;
    Actions.BuildIsSelfDelimiting(a);
    Actions.BuildIsSelfDelimiting(b);
    PreimageUnambiguous(Actions.Build(a), Actions.Build(b), m, n, u, v, d, e);
    Actions.SameBuildSameMeaning(a, b);
  }

  /** Where everything stands: the action, eight bytes of nonce, a marker and the vault's twenty bytes if
      there is one, and a zero and eight bytes of expiry if there is one. */
  lemma PreimageReadsBack(action: Value, nonce: uint64, vault: Option<seq<byte>>, expires: Option<uint64>)
    requires VaultOk(vault)
    ensures var p, n := Preimage(action, nonce, vault, expires), |Enc(action)|;
      var end := if vault.Some? then n + 29 else n + 9;
      && |p| == end + (if expires.Some? then 9 else 0)
      && p[..n] == Enc(action) && FromBE(p[n..n + 8]) == nonce
      && p[n + 8] == (if vault.Some? then 1 else 0)
      && (vault.Some? ==> p[n + 9..end] == vault.value)
      && (expires.Some? ==> p[end] == 0 && FromBE(p[end + 1..]) == expires.value)
  {
    hide Enc, BE, FromBE, Pow256;
    Pow256Values();
    ReadBackBE(8, nonce);
    if expires.Some? { ReadBackBE(8, expires.value); }
    Parts(Enc(action), BE(8, nonce), VaultPart(vault), ExpiryPart(expires));
    Marked(vault, expires);
    var n, end := |Enc(action)|, |Enc(action)| + 8 + |VaultPart(vault)|;
    hide VaultPart, ExpiryPart;
    Nested(Preimage(action, nonce, vault, expires), n + 8, end);
  }

  lemma Marked(vault: Option<seq<byte>>, expires: Option<uint64>)
    requires VaultOk(vault)
    ensures |VaultPart(vault)| == (if vault.Some? then 21 else 1) && VaultPart(vault)[0] == if vault.Some? then 1 else 0
    ensures vault.Some? ==> VaultPart(vault)[1..] == vault.value
    ensures |ExpiryPart(expires)| == if expires.Some? then 9 else 0
    ensures expires.Some? ==> ExpiryPart(expires)[0] == 0 && ExpiryPart(expires)[1..] == BE(8, expires.value)
  {
    hide BE;
  }

  lemma Parts(a: seq<byte>, b: seq<byte>, c: seq<byte>, d: seq<byte>)
    ensures var p, n := a + b + c + d, |a|;
      && |p| == n + |b| + |c| + |d| && p[..n] == a && p[n..n + |b|] == b
      && p[n + |b|..n + |b| + |c|] == c && p[n + |b| + |c|..] == d
  {
  }

  lemma Nested(p: seq<byte>, i: nat, j: nat)
    requires i <= j <= |p|
    ensures i < j ==> p[i] == p[i..j][0] && p[i + 1..j] == p[i..j][1..]
    ensures j < |p| ==> p[j] == p[j..][0] && p[j + 1..] == p[j..][1..]
  {
  }

  /** The vault's length matters: with other lengths an expiry can pass for the end of a vault. */
  lemma OddVaultIsAmbiguous(a: Value, nonce: uint64, vault: seq<byte>, expires: uint64)
    ensures Preimage(a, nonce, Some(vault), Some(expires)) == Preimage(a, nonce, Some(vault + [0] + BE(8, expires)), None)
  {
  }

  // ---- the phantom agent ----

  /** The phantom-agent digest: domain separator and agent struct, both hashed. The domain's
      preimage does not depend on the action. */
  function AgentStruct(keccak: Hash, connection: seq<byte>, testnet: bool): seq<byte> {
    keccak(Actions.Text("Agent(string source,bytes32 connectionId)")) + keccak(Source(testnet)) + connection
  }

  function Source(testnet: bool): seq<byte> { Actions.Text(if testnet then "b" else "a") }

  function AgentDomain(keccak: Hash): seq<byte> {
    keccak(Actions.Text("EIP712Domain(string name,string version,uint256 chainId,address verifyingContract)"))
    + keccak(Actions.Text("Exchange")) + keccak(Actions.Text("1")) + BE(32, 1337) + BE(32, 0)
  }

  function AgentPreimage(keccak: Hash, connection: seq<byte>, testnet: bool): seq<byte> {
    [0x19, 0x01] + keccak(AgentDomain(keccak)) + keccak(AgentStruct(keccak, connection, testnet))
  }

  /** Mainnet signs over the letter "a" and testnet over "b", each followed by the action's hash. */
  lemma MainnetSignsOverA(keccak: Hash, connection: seq<byte>, testnet: bool)
    requires Is32(keccak)
    ensures var s := AgentStruct(keccak, connection, testnet);
      && s[..32] == keccak(Actions.Text("Agent(string source,bytes32 connectionId)"))
      && s[32..64] == keccak([if testnet then 98 else 97])
      && s[64..] == connection
  {
    hide Actions.Text;
    LetterText();
    var s := AgentStruct(keccak, connection, testnet);
    assert |keccak(Source(testnet))| == 32;
    assert s[32..64] == keccak(Source(testnet));
  }

  lemma LetterText()
    ensures Actions.Text("a") == [97] && Actions.Text("b") == [98]
  {
  }

  /** The digest is over 0x1901, the hashed domain and the hashed struct; the domain names the exchange
      in version 1, chain 1337 and the zero address. */
  lemma DomainReadsBack(keccak: Hash, connection: seq<byte>, testnet: bool)
    requires Is32(keccak)
    ensures var p, d := AgentPreimage(keccak, connection, testnet), AgentDomain(keccak);
      && p[..2] == [0x19, 0x01] && p[2..34] == keccak(d) && p[34..] == keccak(AgentStruct(keccak, connection, testnet))
      && |d| == 160 && d[32..64] == keccak(Actions.Text("Exchange")) && d[64..96] == keccak(Actions.Text("1"))
      && FromBE(d[96..128]) == 1337 && FromBE(d[128..160]) == 0
      && d[..32] == keccak(Actions.Text("EIP712Domain(string name,string version,uint256 chainId,address verifyingContract)"))
  {
    hide Actions.Text, BE, FromBE, AgentStruct, Pow256;
    SmallWord(1337);
    SmallWord(0);
    var p, d := AgentPreimage(keccak, connection, testnet), AgentDomain(keccak);
    assert |keccak(d)| == 32;
    assert p[2..34] == keccak(d);
    assert d[96..128] == BE(32, 1337) && d[128..160] == BE(32, 0);
  }

  lemma SmallWord(n: nat)
    requires n < TWO64
    ensures FromBE(BE(32, n)) == n
  {
    Pow256Values();
    Growing(8, 32);
    ReadBackBE(32, n);
  }

  lemma {:induction false} Growing(j: nat, k: nat)
    requires j <= k
    ensures Pow256(j) <= Pow256(k)
  {
    if j < k { Growing(j, k - 1); }
  }

  function SignedPreimage(action: Value, nonce: uint64): seq<byte> { Preimage(action, nonce, None, None) }

  /** The digest that is signed for an L1 action. */
  function SignedDigest(keccak: Hash, action: Value, nonce: uint64, testnet: bool): seq<byte> {
    keccak(AgentPreimage(keccak, keccak(SignedPreimage(action, nonce)), testnet))
  }

  /** One signature, one intent: equal signed digests mean the same action, nonce and network, or
      one of four named pairs of preimages collides. */
  lemma SignedDigestBindsIntent(keccak: Hash, a: Value, b: Value, m: uint64, n: uint64, p: bool, q: bool)
    requires Is32(keccak) && SelfDelimiting(a) && SelfDelimiting(b)
    requires SignedDigest(keccak, a, m, p) == SignedDigest(keccak, b, n, q)
    ensures var x, y := keccak(SignedPreimage(a, m)), keccak(SignedPreimage(b, n));
      || (Canon(a) == Canon(b) && m == n && p == q)
      || Collide(keccak, AgentPreimage(keccak, x, p), AgentPreimage(keccak, y, q))
      || Collide(keccak, AgentStruct(keccak, x, p), AgentStruct(keccak, y, q))
      || Collide(keccak, Source(p), Source(q))
      || Collide(keccak, SignedPreimage(a, m), SignedPreimage(b, n))
  {
    hide SignedPreimage, SelfDelimiting, Canon;
    var x, y := keccak(SignedPreimage(a, m)), keccak(SignedPreimage(b, n));
    if AgentPreimage(keccak, x, p) == AgentPreimage(keccak, y, q) {
      assert AgentPreimage(keccak, x, p)[34..] == keccak(AgentStruct(keccak, x, p));
      assert AgentPreimage(keccak, y, q)[34..] == keccak(AgentStruct(keccak, y, q));
      if AgentStruct(keccak, x, p) == AgentStruct(keccak, y, q) {
        assert AgentStruct(keccak, x, p)[64..] == x && AgentStruct(keccak, y, q)[64..] == y;
        assert AgentStruct(keccak, x, p)[32..64] == keccak(Source(p));
        assert AgentStruct(keccak, y, q)[32..64] == keccak(Source(q));
        if p != q {
          assert Source(p)[0] != Source(q)[0];
        } else if SignedPreimage(a, m) == SignedPreimage(b, n) {
          SignedPreimageUnambiguous(a, b, m, n);
        }
      }
    }
  }

  lemma SignedPreimageUnambiguous(a: Value, b: Value, m: uint64, n: uint64)
    requires SelfDelimiting(a) && SelfDelimiting(b) && SignedPreimage(a, m) == SignedPreimage(b, n)
    ensures Canon(a) == Canon(b) && m == n
  {
    hide Preimage, SelfDelimiting, Canon;
    PreimageUnambiguous(a, b, m, n, None, None, None, None);
  }

  // ---- the ledger's intent digest ----

  /** What the signing endpoint hashes to recognise a retry: the action and the network. */
  function IntentPreimage(action: Value, testnet: bool): seq<byte> { Enc(action) + [if testnet then 1 else 0] }

  lemma IntentPreimageUnambiguous(a: Value, b: Value, p: bool, q: bool)
    requires IntentPreimage(a, p) == IntentPreimage(b, q)
    ensures Enc(a) == Enc(b) && p == q
    ensures SelfDelimiting(a) && SelfDelimiting(b) ==> Canon(a) == Canon(b)
  {
    var s, t := IntentPreimage(a, p), IntentPreimage(b, q);
    assert s[|s| - 1] == (if p then 1 else 0) && t[|t| - 1] == if q then 1 else 0;
    assert s[..|s| - 1] == Enc(a) && t[..|t| - 1] == Enc(b);
    if SelfDelimiting(a) && SelfDelimiting(b) {
      Unambiguous(a, b, [], []);
    }
  }
}
