/** Signing policy: the reject-first gate over one request, and the store that keeps, per key and
    per owner, whether keys sharing an owner disagree about their shared budgets. */
module Policy {
  import opened Numbers
  import opened Wrappers
  import Address

  datatype Intent = Intent(kind: string, coin: string, notional: Float)

  datatype Config = Config(
    allowedKinds: map<string, bool>, killSwitch: bool, maxNotional: Float, perCoinMax: map<string, Float>,
    dailyMax: Float, ratePerSec: Float, rateBurst: Float,
    ownerAddress: string, ipRate: Float, ipBurst: Float, addressDailyMax: Float)

  const ZERO := Fin(0.0)

  /** What a key without a policy gets; it allows nothing. */
  const UNSET := Config(map[], false, ZERO, map[], ZERO, ZERO, ZERO, "", ZERO, ZERO, ZERO)

  datatype Decision = Allowed | Denied(reason: string)

  /** Kill switch, then kind, then notional; the first complaint is the answer. */
  function Evaluate(intent: Intent, cfg: Config): Decision {
    if cfg.killSwitch then Denied("kill-switch active")
    else if !(intent.kind in cfg.allowedKinds && cfg.allowedKinds[intent.kind]) then Denied("kind not allowed")
    else if intent.notional.IsZero() then Allowed
    else if intent.notional == NaN || intent.notional.Negative() then Denied("invalid notional")
    else
      var limit := if intent.coin in cfg.perCoinMax then cfg.perCoinMax[intent.coin] else cfg.maxNotional;
      if limit.Lt(intent.notional) then Denied("over notional cap") else Allowed
  }

  function LimitFor(intent: Intent, cfg: Config): Float {
    if intent.coin in cfg.perCoinMax then cfg.perCoinMax[intent.coin] else cfg.maxNotional
  }

  /** Exactly what is allowed; nothing is by default, and a NaN limit limits nothing. */
  lemma AllowedMeans(intent: Intent, cfg: Config)
    ensures Evaluate(intent, cfg).Allowed? <==>
      && !cfg.killSwitch && intent.kind in cfg.allowedKinds && cfg.allowedKinds[intent.kind]
      && (|| intent.notional.IsZero()
          || (intent.notional != NaN && !intent.notional.Negative()
              && (intent.notional.Le(LimitFor(intent, cfg)) || LimitFor(intent, cfg) == NaN)))
    ensures Evaluate(intent, UNSET).Denied?
  {
  }

  // ---- comparing budgets ----

  /** Zero means no limit, so it is the laxest. */
  predicate LimitAtMost(cur: Float, other: Float) {
    if cur.Eq(other) then true
    else if cur.IsZero() then false
    else if other.IsZero() then true
    else cur.Le(other)
  }

  /** On numbers it is a total order with zero on top; NaN is at most zero, and nothing is at most NaN. */
  lemma LimitsAreOrdered(a: Float, b: Float, c: Float)
    ensures LimitAtMost(a, a) <==> a != NaN
    ensures LimitAtMost(a, b) && LimitAtMost(b, a) ==> a == b
    ensures LimitAtMost(a, b) && LimitAtMost(b, c) ==> LimitAtMost(a, c)
    ensures a != NaN && b != NaN ==> LimitAtMost(a, b) || LimitAtMost(b, a)
    ensures LimitAtMost(a, ZERO) && !LimitAtMost(a, NaN)
  {
  }

  /** What a limit lets through: anything if it is zero, else amounts up to it. */
  predicate Admits(limit: Float, n: real) {
    limit == Fin(0.0) || limit == PosInf || (limit.Fin? && n <= limit.r)
  }

  /** There is an amount that `lax` lets through and `tight` turns away. */
  ghost predicate Tighter(tight: Float, lax: Float) { exists n: real :: 0.0 <= n && Admits(lax, n) && !Admits(tight, n) }

  predicate NonNegative(x: Float) { x == PosInf || (x.Fin? && x.r >= 0.0) }

  /** What the comparison is for: a limit is at most another exactly when it lets nothing through that
      the other turns away. Only "none" and infinity, which let everything through, are told apart. */
  lemma LimitAtMostMeans(a: Float, b: Float)
    requires NonNegative(a) && NonNegative(b)
    ensures LimitAtMost(a, b) <==> !Tighter(b, a) && !(a == Fin(0.0) && b == PosInf)
  {
    if b.Fin? && b.r > 0.0 && (a == PosInf || a.r == 0.0 || a.r > b.r) {
      var n := if a.Fin? && a.r > 0.0 then a.r else b.r + 1.0;
      assert Admits(a, n) && !Admits(b, n);
    }
  }

  /** The two budgets shared by an owner's keys. */
  datatype Shared = IPRate | AddressCap

  /** Go's `!=` on the budgets of two configurations. */
  predicate Differ(s: Shared, a: Config, b: Config) {
    match s
    case IPRate => !a.ipRate.Eq(b.ipRate) || !a.ipBurst.Eq(b.ipBurst)
    case AddressCap => !a.addressDailyMax.Eq(b.addressDailyMax)
  }

  predicate AtMost(s: Shared, a: Config, b: Config) {
    match s
    case IPRate => LimitAtMost(a.ipRate, b.ipRate) && LimitAtMost(a.ipBurst, b.ipBurst)
    case AddressCap => LimitAtMost(a.addressDailyMax, b.addressDailyMax)
  }

  predicate IsNaN(s: Shared, a: Config) {
    match s
    case IPRate => a.ipRate == NaN || a.ipBurst == NaN
    case AddressCap => a.addressDailyMax == NaN
  }

  lemma DifferMeansNotBothAtMost(s: Shared, a: Config, b: Config)
    ensures Differ(s, a, b) <==> !(AtMost(s, a, b) && AtMost(s, b, a))
    ensures Differ(s, a, b) <==> Differ(s, b, a)
    ensures Differ(s, a, a) <==> IsNaN(s, a)
    ensures IsNaN(s, a) ==> Differ(s, a, b)
  {
  }

  // ---- what the flags should be ----

  type Table = map<string, Config>

  predicate Owned(t: Table, owner: string, k: string) { k in t && Address.OwnerKey(t[k].ownerAddress) == owner }

  /** Two keys of the owner have different budgets. */
  ghost predicate OwnerConflict(t: Table, s: Shared, owner: string) {
    owner != "" && exists j, k :: j != k && Owned(t, owner, j) && Owned(t, owner, k) && Differ(s, t[j], t[k])
  }

  /** Some key of the same owner is strictly tighter than this one, or incomparable with it. */
  ghost predicate KeyConflict(t: Table, s: Shared, k: string) {
    && k in t && Address.OwnerKey(t[k].ownerAddress) != ""
    && exists j :: Owned(t, Address.OwnerKey(t[k].ownerAddress), j) && !AtMost(s, t[k], t[j])
  }

  datatype Flags = Flags(owners: set<string>, keys: set<string>)

  ghost predicate Agree(t: Table, s: Shared, f: Flags) {
    && (forall o :: o in f.owners <==> OwnerConflict(t, s, o))
    && (forall k :: k in f.keys <==> KeyConflict(t, s, k))
  }

  /** The flags are a function of the configurations alone: the order in which maps are walked and
      the history of changes leave no trace. */
  lemma FlagsDependOnTableOnly(t: Table, s: Shared, f: Flags, g: Flags)
    requires Agree(t, s, f) && Agree(t, s, g)
    ensures f == g
  {
    assert f.owners == g.owners && f.keys == g.keys;
  }

  ghost predicate SomeKeyFlagged(t: Table, s: Shared, owner: string) {
    exists k :: Owned(t, owner, k) && KeyConflict(t, s, k)
  }

  /** The owner has one key, and its budget is NaN. */
  ghost predicate LoneNaN(t: Table, s: Shared, owner: string) {
    exists k :: Owned(t, owner, k) && IsNaN(s, t[k]) && forall j :: Owned(t, owner, j) ==> j == k
  }

  /** An owner flag holds exactly when some key of that owner is flagged, except exactly for an
      owner whose only key has a NaN budget: then the key is flagged and the owner is not. */
  lemma OwnerFlagIffKeyFlag(t: Table, s: Shared, owner: string)
    requires owner != ""
    ensures (OwnerConflict(t, s, owner) <==> SomeKeyFlagged(t, s, owner)) <==> !LoneNaN(t, s, owner)
  {
    hide AtMost, Differ, IsNaN;
    if OwnerConflict(t, s, owner) {
      var j, k :| j != k && Owned(t, owner, j) && Owned(t, owner, k) && Differ(s, t[j], t[k]);
      DifferMeansNotBothAtMost(s, t[j], t[k]);
      assert KeyConflict(t, s, j) || KeyConflict(t, s, k);
    }
    if SomeKeyFlagged(t, s, owner) && !LoneNaN(t, s, owner) {
      var k :| Owned(t, owner, k) && KeyConflict(t, s, k);
      FlaggedKeyHasDifferingSibling(t, s, owner, k);
    }
    if LoneNaN(t, s, owner) {
      var k :| Owned(t, owner, k) && IsNaN(s, t[k]) && forall j :: Owned(t, owner, j) ==> j == k;
      DifferMeansNotBothAtMost(s, t[k], t[k]);
      assert KeyConflict(t, s, k);
    }
  }

  lemma FlaggedKeyHasDifferingSibling(t: Table, s: Shared, owner: string, k: string)
    requires owner != "" && Owned(t, owner, k) && KeyConflict(t, s, k) && !LoneNaN(t, s, owner)
    ensures OwnerConflict(t, s, owner)
  {
    hide AtMost, Differ, IsNaN;
    var j :| Owned(t, owner, j) && !AtMost(s, t[k], t[j]);
    DifferMeansNotBothAtMost(s, t[k], t[j]);
    DifferMeansNotBothAtMost(s, t[k], t[k]);
    if j == k {
      var i :| Owned(t, owner, i) && i != k;
      DifferMeansNotBothAtMost(s, t[k], t[i]);
    }
  }

  /** Every part of the shared budget is a non-negative number. */
  predicate Numeric(s: Shared, a: Config) {
    match s
    case IPRate => a.ipRate.Fin? && a.ipRate.r >= 0.0 && a.ipBurst.Fin? && a.ipBurst.r >= 0.0
    case AddressCap => a.addressDailyMax.Fin? && a.addressDailyMax.r >= 0.0
  }

  /** Some part of `tight`'s budget turns away what the same part of `lax`'s lets through. */
  ghost predicate StricterThan(s: Shared, tight: Config, lax: Config) {
    match s
    case IPRate => Tighter(tight.ipRate, lax.ipRate) || Tighter(tight.ipBurst, lax.ipBurst)
    case AddressCap => Tighter(tight.addressDailyMax, lax.addressDailyMax)
  }

  lemma AtMostMeans(s: Shared, a: Config, b: Config)
    requires Numeric(s, a) && Numeric(s, b)
    ensures AtMost(s, a, b) <==> !StricterThan(s, b, a)
    ensures Differ(s, a, b) <==> StricterThan(s, a, b) || StricterThan(s, b, a)
  {
    DifferMeansNotBothAtMost(s, a, b);
    match s
    case IPRate =>
      LimitAtMostMeans(a.ipRate, b.ipRate);
      LimitAtMostMeans(a.ipBurst, b.ipBurst);
      LimitAtMostMeans(b.ipRate, a.ipRate);
      LimitAtMostMeans(b.ipBurst, a.ipBurst);
    case AddressCap =>
      LimitAtMostMeans(a.addressDailyMax, b.addressDailyMax);
      LimitAtMostMeans(b.addressDailyMax, a.addressDailyMax);
  }

  /** Which keys are flagged, in terms of what gets through: a key of an owner whose budgets are
      numbers is flagged exactly when some sibling's budget turns away what its own would let
      through. The tightest keys stay unflagged. */
  lemma FlaggedExactlyWhen(t: Table, s: Shared, owner: string, k: string)
    requires owner != "" && Owned(t, owner, k) && forall j :: Owned(t, owner, j) ==> Numeric(s, t[j])
    ensures KeyConflict(t, s, k) <==> exists j :: Owned(t, owner, j) && StricterThan(s, t[j], t[k])
  {
    hide AtMost, StricterThan, Numeric;
    forall j | Owned(t, owner, j) ensures AtMost(s, t[k], t[j]) <==> !StricterThan(s, t[j], t[k]) {
      AtMostMeans(s, t[k], t[j]);
    }
  }

  /** Rates 1 and 5 under equal bursts: the key with rate 5 is flagged, the one with rate 1 is not. */
  lemma TheLaxKeyIsFlagged(tight: Config, lax: Config)
    requires Address.OwnerKey(tight.ownerAddress) == Address.OwnerKey(lax.ownerAddress) != ""
    requires tight.ipRate == Fin(1.0) && lax.ipRate == Fin(5.0) && tight.ipBurst == lax.ipBurst == Fin(5.0)
    ensures var t := map["tight" := tight, "lax" := lax];
      KeyConflict(t, IPRate, "lax") && !KeyConflict(t, IPRate, "tight")
  {
    hide Address.OwnerKey;
    var t := map["tight" := tight, "lax" := lax];
    assert "tight" != "lax" by { assert |"tight"| == 5 && |"lax"| == 3; }
    assert t["tight"] == tight && t["lax"] == lax;
    var owner := Address.OwnerKey(tight.ownerAddress);
    assert Owned(t, owner, "tight") && Owned(t, owner, "lax");
    assert AtMost(IPRate, tight, tight) && AtMost(IPRate, tight, lax) && !AtMost(IPRate, lax, tight);
    hide AtMost;
  }

  ghost predicate Least(t: Table, ks: set<string>, k: string) {
    k in ks && k in t && forall j :: j in ks && j in t ==> AtMost(AddressCap, t[k], t[j])
  }

  /** A set of keys with numeric caps has a tightest one. */
  lemma {:induction false} Tightest(t: Table, ks: set<string>) returns (k: string)
    requires ks != {} && ks <= t.Keys && forall j :: j in ks ==> !IsNaN(AddressCap, t[j])
    ensures Least(t, ks, k)
    decreases |ks|
  {
    var x :| x in ks;
    var rest := ks - {x};
    LimitsAreOrdered(t[x].addressDailyMax, ZERO, ZERO);
    k := x;
    if rest != {} {
      var m := Tightest(t, rest);
      k := TighterOfTwo(t, rest, x, m);
    }
    assert ks == rest + {x};
  }

  lemma TighterOfTwo(t: Table, rest: set<string>, x: string, m: string) returns (k: string)
    requires Least(t, rest, m) && x in t && !IsNaN(AddressCap, t[x]) && !IsNaN(AddressCap, t[m])
    ensures Least(t, rest + {x}, k)
  {
    var a, b := t[x].addressDailyMax, t[m].addressDailyMax;
    LimitsAreOrdered(a, b, ZERO);
    LimitsAreOrdered(b, a, ZERO);
    k := if LimitAtMost(a, b) then x else m;
    forall j | j in rest && j in t ensures AtMost(AddressCap, t[k], t[j]) {
      assert AtMost(AddressCap, t[m], t[j]);
      LimitsAreOrdered(a, b, t[j].addressDailyMax);
    }
  }

  ghost predicate AllNumeric(t: Table, owner: string) { forall k :: Owned(t, owner, k) ==> !IsNaN(AddressCap, t[k]) }

  ghost predicate SomeUnflagged(t: Table, owner: string) {
    exists k :: Owned(t, owner, k) && !KeyConflict(t, AddressCap, k)
  }

  /** For the address cap, an owner with keys always has one that is never flagged, exactly as long
      as none of its caps is NaN; with one NaN all are. */
  lemma SomeKeyUnflagged(t: Table, owner: string, some: string)
    requires owner != "" && Owned(t, owner, some)
    ensures SomeUnflagged(t, owner) <==> AllNumeric(t, owner)
  {
    if AllNumeric(t, owner) {
      var k := NumericLeavesOne(t, owner, some);
    } else {
      NaNFlagsAll(t, owner);
    }
    hide Owned, KeyConflict, AllNumeric;
  }

  lemma NumericLeavesOne(t: Table, owner: string, some: string) returns (k: string)
    requires Owned(t, owner, some) && AllNumeric(t, owner)
    ensures Owned(t, owner, k) && !KeyConflict(t, AddressCap, k)
  {
    var ks := set k | k in t && Owned(t, owner, k);
    assert some in ks;
    hide IsNaN;
    k := Tightest(t, ks);
    LeastIsUnflagged(t, owner, ks, k);
    hide *;
  }

  lemma NaNFlagsAll(t: Table, owner: string)
    requires owner != "" && !AllNumeric(t, owner)
    ensures forall k :: Owned(t, owner, k) ==> KeyConflict(t, AddressCap, k)
  {
    var nan :| Owned(t, owner, nan) && IsNaN(AddressCap, t[nan]);
    forall k | Owned(t, owner, k) ensures KeyConflict(t, AddressCap, k) {
      LimitsAreOrdered(t[k].addressDailyMax, ZERO, ZERO);
      assert !AtMost(AddressCap, t[k], t[nan]);
      hide AtMost;
    }
  }

  lemma LeastIsUnflagged(t: Table, owner: string, ks: set<string>, k: string)
    requires Least(t, ks, k) && forall j :: j in ks <==> Owned(t, owner, j)
    ensures Owned(t, owner, k) && !KeyConflict(t, AddressCap, k)
  {
    hide AtMost;
  }

  /** The two-part IP budget has no such key: two keys, each tighter in one part, are both flagged. */
  lemma AllKeysCanBeFlagged(a: Config, b: Config)
    requires Address.OwnerKey(a.ownerAddress) == Address.OwnerKey(b.ownerAddress) != ""
    requires a.ipRate == b.ipBurst == Fin(1.0) && a.ipBurst == b.ipRate == Fin(2.0)
    ensures var t := map["a" := a, "b" := b]; KeyConflict(t, IPRate, "a") && KeyConflict(t, IPRate, "b")
  {
    var t := map["a" := a, "b" := b];
    var owner := Address.OwnerKey(a.ownerAddress);
    assert Owned(t, owner, "a") && Owned(t, owner, "b");
  }

  // ---- changing one key ----

  /** The flags of other owners and their keys do not depend on this key. */
  lemma OthersUnaffected(t: Table, u: Table, k: string, s: Shared, owner: string)
    requires forall j :: j != k ==> (j in t <==> j in u) && (j in t ==> t[j] == u[j])
    requires !Owned(t, owner, k) && !Owned(u, owner, k)
    ensures OwnerConflict(t, s, owner) <==> OwnerConflict(u, s, owner)
    ensures forall j :: Owned(t, owner, j) ==> (KeyConflict(t, s, j) <==> KeyConflict(u, s, j))
  {
    hide AtMost, Differ;
    assert forall j :: Owned(t, owner, j) <==> Owned(u, owner, j);
    forall j | Owned(t, owner, j) ensures KeyConflict(t, s, j) <==> KeyConflict(u, s, j) {
      SameSiblings(t, u, s, owner, j);
      hide KeyConflict;
    }
  }

  lemma SameSiblings(t: Table, u: Table, s: Shared, owner: string, k: string)
    requires forall j :: Owned(t, owner, j) <==> Owned(u, owner, j)
    requires forall j :: Owned(t, owner, j) ==> j in u && t[j] == u[j]
    requires Owned(t, owner, k)
    ensures KeyConflict(t, s, k) <==> KeyConflict(u, s, k)
  {
    hide AtMost;
  }

  datatype Entry = Entry(keyID: string, cfg: Config)

  /** The owner's keys outside `rest`, each once. */
  ghost predicate Lists(t: Table, owner: string, rest: set<string>, entries: seq<Entry>) {
    && (forall i :: 0 <= i < |entries| ==>
          Owned(t, owner, entries[i].keyID) && entries[i].keyID !in rest && entries[i].cfg == t[entries[i].keyID])
    && (forall i, j :: 0 <= i < j < |entries| ==> entries[i].keyID != entries[j].keyID)
    && (forall k :: Owned(t, owner, k) && k !in rest ==> exists i :: 0 <= i < |entries| && entries[i].keyID == k)
  }

  ghost predicate LaterDiffers(s: Shared, entries: seq<Entry>) {
    exists i :: 0 < i < |entries| && Differ(s, entries[i].cfg, entries[0].cfg)
  }

  lemma ListGrows(t: Table, owner: string, rest: set<string>, entries: seq<Entry>, k: string)
    requires Lists(t, owner, rest, entries) && k in rest && k in t
    ensures Lists(t, owner, rest - {k}, if Owned(t, owner, k) then entries + [Entry(k, t[k])] else entries)
  {
    hide Owned;
    var more := entries + [Entry(k, t[k])];
    assert more[|entries|].keyID == k && forall i :: 0 <= i < |entries| ==> more[i] == entries[i];
  }

  lemma FewEntries(entries: seq<Entry>)
    requires |entries| <= 1
    ensures !LaterDiffers(IPRate, entries) && !LaterDiffers(AddressCap, entries)
  {
  }

  lemma LaterGrows(s: Shared, entries: seq<Entry>, e: Entry)
    requires entries != []
    ensures LaterDiffers(s, entries + [e]) <==> LaterDiffers(s, entries) || Differ(s, e.cfg, entries[0].cfg)
  {
    hide Differ;
    var more := entries + [e];
    assert more[|entries|] == e && forall i :: 0 <= i < |entries| ==> more[i] == entries[i];
  }

  /** Comparing every key with whichever came first finds a conflict exactly when there is one. */
  lemma FirstComparisonSuffices(t: Table, owner: string, s: Shared, entries: seq<Entry>)
    requires owner != "" && Lists(t, owner, {}, entries)
    ensures LaterDiffers(s, entries) <==> OwnerConflict(t, s, owner)
  {
    hide Differ, AtMost;
    if OwnerConflict(t, s, owner) {
      var j, k :| j != k && Owned(t, owner, j) && Owned(t, owner, k) && Differ(s, t[j], t[k]);
      var x :| 0 <= x < |entries| && entries[x].keyID == j;
      var y :| 0 <= y < |entries| && entries[y].keyID == k;
      DifferTransfers(s, entries[x].cfg, entries[y].cfg, entries[0].cfg);
      assert x != 0 || y != 0;
    }
  }

  lemma DifferTransfers(s: Shared, a: Config, b: Config, first: Config)
    requires Differ(s, a, b)
    ensures Differ(s, a, first) || Differ(s, b, first)
    ensures Differ(s, b, a)
  {
  }

  /** Some entry is not above this one. */
  ghost predicate SomeTighter(s: Shared, cfg: Config, entries: seq<Entry>) {
    exists i :: 0 <= i < |entries| && !AtMost(s, cfg, entries[i].cfg)
  }

  lemma TighterMeansConflict(t: Table, owner: string, s: Shared, entries: seq<Entry>, i: nat)
    requires owner != "" && Lists(t, owner, {}, entries) && i < |entries|
    ensures SomeTighter(s, entries[i].cfg, entries) <==> KeyConflict(t, s, entries[i].keyID)
  {
    hide AtMost;
    var k := entries[i].keyID;
    if KeyConflict(t, s, k) {
      var j :| Owned(t, owner, j) && !AtMost(s, t[k], t[j]);
      var x :| 0 <= x < |entries| && entries[x].keyID == j;
      assert entries[x].cfg == t[j];
    }
  }

  /** The flags of these owners and their keys are up to date; all others are as before. */
  ghost predicate Refreshed(t: Table, s: Shared, owners: set<string>, f: Flags, f': Flags) {
    && (forall o :: o in f'.owners <==> if o in owners then OwnerConflict(t, s, o) else o in f.owners)
    && (forall k :: k in f'.keys <==>
          if k in t && Address.OwnerKey(t[k].ownerAddress) in owners then KeyConflict(t, s, k) else k in f.keys)
  }

  lemma RefreshTwice(t: Table, s: Shared, a: set<string>, b: set<string>, f: Flags, f1: Flags, f2: Flags)
    requires Refreshed(t, s, a, f, f1) && Refreshed(t, s, b, f1, f2)
    ensures Refreshed(t, s, a + b, f, f2)
  {
    hide OwnerConflict, KeyConflict;
  }

  function OwnerOf(t: Table, k: string): string { if k in t then Address.OwnerKey(t[k].ownerAddress) else "" }

  /** Changing one key, dropping its own flags and refreshing its owners before and after makes
      everything agree again. */
  lemma ChangeAgrees(t: Table, u: Table, k: string, s: Shared, f: Flags, f': Flags)
    requires Agree(t, s, f)
    requires forall j :: j != k ==> (j in t <==> j in u) && (j in t ==> t[j] == u[j])
    requires Refreshed(u, s, {OwnerOf(t, k), OwnerOf(u, k)} - {""}, Flags(f.owners, f.keys - {k}), f')
    ensures Agree(u, s, f')
  {
    var owners := {OwnerOf(t, k), OwnerOf(u, k)} - {""};
    forall o ensures o in f'.owners <==> OwnerConflict(u, s, o) {
      if o !in owners && o != "" {
        assert !Owned(t, o, k) && !Owned(u, o, k);
        OthersUnaffected(t, u, k, s, o);
      }
      hide Owned;
    }
    forall j ensures j in f'.keys <==> KeyConflict(u, s, j) {
      ChangeAgreesAt(t, u, k, s, f, f', j);
      hide *;
    }
  }

  lemma ChangeAgreesAt(t: Table, u: Table, k: string, s: Shared, f: Flags, f': Flags, j: string)
    requires Agree(t, s, f)
    requires forall j :: j != k ==> (j in t <==> j in u) && (j in t ==> t[j] == u[j])
    requires Refreshed(u, s, {OwnerOf(t, k), OwnerOf(u, k)} - {""}, Flags(f.owners, f.keys - {k}), f')
    ensures j in f'.keys <==> KeyConflict(u, s, j)
  {
    var o := OwnerOf(u, j);
    if j in u && j != k && o != "" && o != OwnerOf(t, k) && o != OwnerOf(u, k) {
      assert !Owned(t, o, k) && !Owned(u, o, k) && Owned(t, o, j);
      OthersUnaffected(t, u, k, s, o);
    }
    hide Owned, AtMost;
  }

  /** The registry: configurations, and the conflict flags kept beside them. */
  class Store {
    var byKey: map<string, Config>
    var ownerIPConflict: set<string>
    var ownerAddressConflict: set<string>
    var keyOwnerIPConflict: set<string>
    var keyOwnerAddrConflict: set<string>

    constructor ()
      ensures byKey == map[] && Valid()
    {
      byKey, ownerIPConflict, ownerAddressConflict := map[], {}, {};
      keyOwnerIPConflict, keyOwnerAddrConflict := {}, {};
    }

    function FlagsFor(s: Shared): Flags
      reads this
    {
      match s
      case IPRate => Flags(ownerIPConflict, keyOwnerIPConflict)
      case AddressCap => Flags(ownerAddressConflict, keyOwnerAddrConflict)
    }

    /** Both sets of flags say what the configurations say. */
    ghost predicate Valid()
      reads this
    {
      forall s :: Agree(byKey, s, FlagsFor(s))
    }

    /** Walks the configurations in whatever order they come, and compares each key of the owner
        with the first. */
    method Collect(owner: string) returns (entries: seq<Entry>, ip: bool, addr: bool)
      ensures Lists(byKey, owner, {}, entries)
      ensures (ip <==> LaterDiffers(IPRate, entries)) && (addr <==> LaterDiffers(AddressCap, entries))
    {
      entries, ip, addr := [], false, false;
      var rest := byKey.Keys;
      assert Lists(byKey, owner, rest, entries);
      hide Lists, LaterDiffers, Differ;
      while rest != {}
        invariant rest <= byKey.Keys
        invariant Lists(byKey, owner, rest, entries)
        invariant entries == [] ==> !ip && !addr
        invariant entries != [] ==> (ip <==> LaterDiffers(IPRate, entries)) && (addr <==> LaterDiffers(AddressCap, entries))
        decreases rest
      {
        var keyID :| keyID in rest;
        var cfg := byKey[keyID];
        ListGrows(byKey, owner, rest, entries, keyID);
        rest := rest - {keyID};
        if Address.OwnerKey(cfg.ownerAddress) != owner { continue; }
        var e := Entry(keyID, cfg);
        if entries == [] {
          FewEntries([e]);
          entries := [e];
          assert [] + [e] == [e];
          continue;
        }
        LaterGrows(IPRate, entries, e);
        LaterGrows(AddressCap, entries, e);
        if Differ(IPRate, cfg, entries[0].cfg) { ip := true; }
        if Differ(AddressCap, cfg, entries[0].cfg) { addr := true; }
        entries := entries + [e];
      }
      if entries == [] { FewEntries(entries); }
    }

    /** Compares one entry with all, stopping once both answers are known. */
    method Compare(cfg: Config, entries: seq<Entry>) returns (ip: bool, addr: bool)
      ensures ip <==> SomeTighter(IPRate, cfg, entries)
      ensures addr <==> SomeTighter(AddressCap, cfg, entries)
    {
      ip, addr := false, false;
      for i := 0 to |entries|
        invariant ip <==> exists j :: 0 <= j < i && !AtMost(IPRate, cfg, entries[j].cfg)
        invariant addr <==> exists j :: 0 <= j < i && !AtMost(AddressCap, cfg, entries[j].cfg)
      {
        if !AtMost(IPRate, cfg, entries[i].cfg) { ip := true; }
        if !AtMost(AddressCap, cfg, entries[i].cfg) { addr := true; }
        if ip && addr { break; }
      }
    }

    /** Brings the key flags of the owner's keys up to date, one key at a time. */
    method RefreshKeys(ghost owner: string, entries: seq<Entry>)
      requires owner != "" && Lists(byKey, owner, {}, entries)
      modifies this`keyOwnerIPConflict, this`keyOwnerAddrConflict
      ensures Partly(byKey, IPRate, entries, old(keyOwnerIPConflict), keyOwnerIPConflict)
      ensures Partly(byKey, AddressCap, entries, old(keyOwnerAddrConflict), keyOwnerAddrConflict)
    {
      assert forall i, j :: 0 <= i < j < |entries| ==> entries[i].keyID != entries[j].keyID;
      for i := 0 to |entries|
        invariant Partly(byKey, IPRate, entries[..i], old(keyOwnerIPConflict), keyOwnerIPConflict)
        invariant Partly(byKey, AddressCap, entries[..i], old(keyOwnerAddrConflict), keyOwnerAddrConflict)
      {
        hide *;
        var k := entries[i].keyID;
        TighterMeansConflict(byKey, owner, IPRate, entries, i);
        TighterMeansConflict(byKey, owner, AddressCap, entries, i);
        var keyIP, keyAddr := Compare(entries[i].cfg, entries);
        PartlyGrows(byKey, IPRate, entries, i, old(keyOwnerIPConflict), keyOwnerIPConflict);
        PartlyGrows(byKey, AddressCap, entries, i, old(keyOwnerAddrConflict), keyOwnerAddrConflict);
        keyOwnerIPConflict := if keyIP then keyOwnerIPConflict + {k} else keyOwnerIPConflict - {k};
        keyOwnerAddrConflict := if keyAddr then keyOwnerAddrConflict + {k} else keyOwnerAddrConflict - {k};
      }
      assert entries[..|entries|] == entries;
    }

    method RecomputeOwnerConflicts(owner: string)
      modifies this
      ensures byKey == old(byKey)
      ensures forall s :: Refreshed(byKey, s, {owner} - {""}, old(FlagsFor(s)), FlagsFor(s))
    {
      if owner == "" { return; }
      var entries, ip, addr := Collect(owner);
      hide Lists, LaterDiffers, OwnerConflict, Refreshed, Partly;
      FirstComparisonSuffices(byKey, owner, IPRate, entries);
      FirstComparisonSuffices(byKey, owner, AddressCap, entries);
      ownerIPConflict := if ip then ownerIPConflict + {owner} else ownerIPConflict - {owner};
      ownerAddressConflict := if addr then ownerAddressConflict + {owner} else ownerAddressConflict - {owner};
      RefreshKeys(owner, entries);
      PartlyIsRefreshed(byKey, owner, IPRate, entries, old(FlagsFor(IPRate)), FlagsFor(IPRate));
      PartlyIsRefreshed(byKey, owner, AddressCap, entries, old(FlagsFor(AddressCap)), FlagsFor(AddressCap));
      forall s ensures Refreshed(byKey, s, {owner} - {""}, old(FlagsFor(s)), FlagsFor(s)) {
        match s
        case IPRate =>
        case AddressCap =>
      }
    }

    /** Binds or replaces a key's configuration; the flags follow. */
    method Set(keyID: string, cfg: Config)
      requires Valid()
      modifies this
      ensures Valid()
      ensures byKey == old(byKey)[keyID := cfg]
    {
      hide Refreshed, Agree, Address.OwnerKey;
      var oldOwner := if keyID in byKey then Address.OwnerKey(byKey[keyID].ownerAddress) else "";
      byKey := byKey[keyID := cfg];
      var newOwner := Address.OwnerKey(cfg.ownerAddress);
      keyOwnerIPConflict := keyOwnerIPConflict - {keyID};
      keyOwnerAddrConflict := keyOwnerAddrConflict - {keyID};
      label Dropped:
      RecomputeOwnerConflicts(oldOwner);
      if newOwner != oldOwner {
        label Half:
        RecomputeOwnerConflicts(newOwner);
        forall s ensures Refreshed(byKey, s, ({oldOwner} - {""}) + ({newOwner} - {""}), old@Dropped(FlagsFor(s)), FlagsFor(s)) {
          RefreshTwice(byKey, s, {oldOwner} - {""}, {newOwner} - {""}, old@Dropped(FlagsFor(s)), old@Half(FlagsFor(s)), FlagsFor(s));
        }
      }
      assert ({oldOwner} - {""}) + ({newOwner} - {""}) == {oldOwner, newOwner} - {""};
      if newOwner == oldOwner { assert {oldOwner} - {""} == {oldOwner, newOwner} - {""}; }
      forall s ensures Agree(byKey, s, FlagsFor(s)) {
        ChangeAgrees(old(byKey), byKey, keyID, s, old(FlagsFor(s)), FlagsFor(s));
      }
    }

    /** Removes a key's configuration; the flags follow. */
    method Delete(keyID: string)
      requires Valid()
      modifies this
      ensures Valid()
      ensures byKey == old(byKey) - {keyID}
    {
      hide Refreshed, Agree, Address.OwnerKey;
      var owner := if keyID in byKey then Address.OwnerKey(byKey[keyID].ownerAddress) else "";
      byKey := byKey - {keyID};
      keyOwnerIPConflict := keyOwnerIPConflict - {keyID};
      keyOwnerAddrConflict := keyOwnerAddrConflict - {keyID};
      RecomputeOwnerConflicts(owner);
      assert {owner} - {""} == {owner, ""} - {""};
      forall s ensures Agree(byKey, s, FlagsFor(s)) {
        ChangeAgrees(old(byKey), byKey, keyID, s, old(FlagsFor(s)), FlagsFor(s));
      }
    }

    method Get(keyID: string) returns (cfg: Config)
      ensures cfg == ConfigOf(byKey, keyID)
    {
      return if keyID in byKey then byKey[keyID] else UNSET;
    }

    method OwnerConflicts(owner: string) returns (ip: bool, addr: bool)
      requires Valid()
      ensures ip <==> OwnerConflict(byKey, IPRate, Address.OwnerKey(owner))
      ensures addr <==> OwnerConflict(byKey, AddressCap, Address.OwnerKey(owner))
    {
      hide OwnerConflict;
      assert Agree(byKey, IPRate, FlagsFor(IPRate)) && Agree(byKey, AddressCap, FlagsFor(AddressCap));
      return Address.OwnerKey(owner) in ownerIPConflict, Address.OwnerKey(owner) in ownerAddressConflict;
    }

    method KeyConflicts(keyID: string) returns (ip: bool, addr: bool)
      requires Valid()
      ensures (ip <==> KeyConflict(byKey, IPRate, keyID)) && (addr <==> KeyConflict(byKey, AddressCap, keyID))
    {
      hide KeyConflict;
      assert Agree(byKey, IPRate, FlagsFor(IPRate)) && Agree(byKey, AddressCap, FlagsFor(AddressCap));
      return keyID in keyOwnerIPConflict, keyID in keyOwnerAddrConflict;
    }
  }

  function ConfigOf(t: Table, keyID: string): Config { if keyID in t then t[keyID] else UNSET }

  /** The keys of these entries have up-to-date flags; all others are as before. */
  ghost predicate Partly(t: Table, s: Shared, done: seq<Entry>, before: set<string>, after: set<string>) {
    && (forall i :: 0 <= i < |done| ==> (done[i].keyID in after <==> KeyConflict(t, s, done[i].keyID)))
    && (forall k :: (forall i :: 0 <= i < |done| ==> done[i].keyID != k) ==> (k in after <==> k in before))
  }

  lemma PartlyGrows(t: Table, s: Shared, entries: seq<Entry>, i: nat, before: set<string>, after: set<string>)
    requires i < |entries| && Partly(t, s, entries[..i], before, after)
    requires forall i, j :: 0 <= i < j < |entries| ==> entries[i].keyID != entries[j].keyID
    ensures var k := entries[i].keyID;
      Partly(t, s, entries[..i + 1], before, if KeyConflict(t, s, k) then after + {k} else after - {k})
  {
    hide KeyConflict;
    var less, more := entries[..i], entries[..i + 1];
    assert more[i] == entries[i] && forall j :: 0 <= j < i ==> more[j] == less[j];
  }

  lemma PartlyIsRefreshed(t: Table, owner: string, s: Shared, entries: seq<Entry>, f: Flags, f': Flags)
    requires owner != "" && Lists(t, owner, {}, entries) && Partly(t, s, entries, f.keys, f'.keys)
    requires f'.owners == if OwnerConflict(t, s, owner) then f.owners + {owner} else f.owners - {owner}
    ensures Refreshed(t, s, {owner} - {""}, f, f')
  {
    hide OwnerConflict, KeyConflict;
    forall k ensures k in f'.keys <==> if Owned(t, owner, k) then KeyConflict(t, s, k) else k in f.keys {
      if Owned(t, owner, k) {
        var i :| 0 <= i < |entries| && entries[i].keyID == k;
      } else {
        assert forall i :: 0 <= i < |entries| ==> entries[i].keyID != k;
      }
    }
  }
}
