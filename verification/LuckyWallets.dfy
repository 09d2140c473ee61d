/** Suites in which no hash spoils a key: there every wallet can spend, and such suites exist. */
module LuckyWallets {
  import opened Prelude
  import opened Chain
  import opened Crypto
  import opened Bip32
  import opened Bip44
  import opened Taproot
  import opened Consensus
  import opened Wallet
  import opened CoinSelection
  import opened CoinOutcome
  import opened Signing
  import opened SigningTheorems
  import opened EndToEnd
  import opened Acceptance
  import CoinTheorems
  import KeySearch
  import TaprootTheorems
  import Text
  import WalletTheorems

  /** Every child can be derived, no tweak ends in zero, and every tweak is canonical. */
  ghost predicate Lucky(c: Suite) {
    && Lawful(c)
    && c.n > 0
    && (forall k: ExtKey, i: uint32 | ValidPrivate(c, k) && k.depth < 0xFF :: Derive(c, k, i).Some?)
    && (forall d: nat, root: Bytes | IsScalar(c, d) :: TweakPrivate(c, d, root) > 0)
    && (forall b: Bytes :: c.tapTweak(b) < c.n)
  }

  /** A private key near enough to the root for five more levels. */
  ghost predicate Master(c: Suite, k: ExtKey) {
    ValidPrivate(c, k) && k.depth < 250
  }

  lemma LuckyChild(c: Suite, k: ExtKey, i: uint32)
    requires Lucky(c) && ValidPrivate(c, k) && k.depth < 0xFF
    ensures Derive(c, k, i).Some? && ValidPrivate(c, Derive(c, k, i).value)
    ensures Derive(c, k, i).value.depth == k.depth + 1
  {
    DerivePrivate(c, k, i);
    hide Lawful, ChildKey, ChildData;
  }

  lemma LuckyKey(c: Suite, master: ExtKey, s: uint32)
    requires Lucky(c) && Master(c, master)
    ensures GetBip44Key(c, master, s).Some?
    ensures var b := GetBip44Key(c, master, s).value;
      WalletTheorems.PrivateLeaf(c, b) && b.changeKey.depth < 0xFF
  {
    LuckyChild(c, master, PathHardened(44));
    var k1 := Derive(c, master, PathHardened(44)).value;
    LuckyChild(c, k1, PathHardened(0));
    var k2 := Derive(c, k1, PathHardened(0)).value;
    LuckyChild(c, k2, PathHardened(0));
    var k3 := Derive(c, k2, PathHardened(0)).value;
    LuckyChild(c, k3, Path(0));
    LuckyChild(c, Derive(c, k3, Path(0)).value, Path(s));
    assert c.n > 0;
    LawfulParts(c);
    hide Lucky, Lawful, GroupLaws, Derive, ValidPrivate, Fingerprint, Text.HexEncode, WalletTheorems.PrivateLeaf;
    WalletTheorems.KeyIsPrivate(c, master, s);
  }

  lemma LuckyWalk(c: Suite, b: Bip44Key, n: nat)
    requires Lucky(c) && WalletTheorems.PrivateLeaf(c, b) && b.changeKey.depth < 0xFF
    ensures Walk(c, b, n).Some? && WalletTheorems.PrivateLeaf(c, Walk(c, b, n).value)
  {
    WalkLandsAt(c, b, n);
    LawfulParts(c);
    WalletTheorems.WalkNeuter(c, b, n);
    hide Lawful, Derive, Walk, IndexAfter;
  }

  /** The address of two scalars exists, reads back as a point, and opens. */
  lemma LuckyAddress(c: Suite, timelock: uint32, k: nat, firstKey: nat)
    requires Lucky(c) && IsScalar(c, k) && IsScalar(c, firstKey)
    ensures CreateFromTweaked(c, timelock, c.mul(k), firstKey).Some?
    ensures var w := CreateFromTweaked(c, timelock, c.mul(k), firstKey).value;
      && c.decodeAddress(w.address).Some? && |c.decodeAddress(w.address).value| == 32
      && LiftX(c, c.decodeAddress(w.address).value).Some? && CanonicalTweak(c, w.tapscript)
      && SignerKey(c, k, WithScript(w.MerkleRoot())) > 0
  {
    LawfulParts(c);
    TaprootTheorems.TweaksAgree(c, firstKey, []);
    ProgramReadsBack(c, TweakPrivate(c, firstKey, []));
    TaprootTheorems.LeafOps(c, timelock, c.mul(firstKey));
    var leaf := CreateTapscriptTimelockFromKey(c, timelock, c.mul(firstKey)).value;
    TaprootTheorems.TweaksAgree(c, k, RootOf(c, leaf));
    ScalarBelow(c, k);
    ProgramReadsBack(c, k);
    hide Lawful, GroupLaws, CreateTapscriptTimelockFromKey, TweakPublic, TweakPrivate, LiftX, XOnly, IsScalar, LeafHash;
    TaprootTheorems.CreatedFrom(c, timelock, k, firstKey);
    var w := CreateFromTweaked(c, timelock, c.mul(k), firstKey).value;
    ProgramReadsBack(c, TaprootTheorems.OutputScalar(c, k, w.MerkleRoot()));
  }

  lemma LuckyTweak(c: Suite, d: nat, root: Bytes)
    requires Lucky(c) && IsScalar(c, d)
    ensures 0 < TweakPrivate(c, d, root) < c.n && IsScalar(c, TweakPrivate(c, d, root))
    ensures TweakPublic(c, c.mul(d), root) == Some(c.mul(TweakPrivate(c, d, root)))
  {
    LawfulParts(c);
    TaprootTheorems.TweaksAgree(c, d, root);
    hide Lawful, GroupLaws, TweakPublic, TweakPrivate;
  }

  /** What both ways to an address make of two private keys. */
  lemma LuckyKeys(c: Suite, timelock: uint32, d1: nat, d2: nat)
    requires Lucky(c) && IsScalar(c, d1) && IsScalar(c, d2)
    ensures
      var created := CreateTweakedAddress(c, timelock, d2, d1);
      created.Some? && SignerKey(c, created.value.1, WithScript(created.value.0.MerkleRoot())) > 0
    ensures
      var created := CreateTweakedAddressFromPublicKey(c, timelock, c.mul(d2), d1);
      && created.Some? && c.decodeAddress(created.value.address).Some?
      && |c.decodeAddress(created.value.address).value| == 32
      && LiftX(c, c.decodeAddress(created.value.address).value).Some?
      && CanonicalTweak(c, created.value.tapscript)
  {
    assert c.n > 0;
    hide Lucky, IsScalar, CreateFromTweaked, TweakPublic, TweakPrivate, SignerKey, LiftX, CanonicalTweak;
    var hash := FirstKeyHash(c, d1);
    LuckyTweak(c, d2, hash);
    LuckyAddress(c, timelock, TweakPrivate(c, d2, hash), d1);
  }

  lemma LeafScalars(c: Suite, b: Bip44Key)
    requires WalletTheorems.PrivateLeaf(c, b)
    ensures b.indexKey.key.Private? && IsScalar(c, b.indexKey.key.d)
  {
  }

  lemma PrivateEntryIs(c: Suite, timelock: uint32, f: Bip44Key, s: Bip44Key)
    requires c.n > 0 && f.indexKey.key.Private? && s.indexKey.key.Private?
    ensures
      var created := CreateTweakedAddress(c, timelock, s.indexKey.key.d, f.indexKey.key.d);
      && PrivateEntry(c, timelock, f, s).Some? == created.Some?
      && (created.Some? ==>
            FinalKey(c, PrivateEntry(c, timelock, f, s).value.1)
            == SignerKey(c, created.value.1, WithScript(created.value.0.MerkleRoot())))
  {
    hide CreateTweakedAddress, SignerKey, Tweaked.MerkleRoot;
  }

  lemma PublicEntryIs(c: Suite, timelock: uint32, f: Bip44Key, s: Bip44Key)
    requires c.n > 0 && f.indexKey.key.Private? && s.indexKey.key.Private?
    ensures
      var created := CreateTweakedAddressFromPublicKey(c, timelock, c.mul(s.indexKey.key.d), f.indexKey.key.d);
      PublicEntry(c, timelock, f, WalletTheorems.NeuterKey(c, s))
      == if created.None? then None
         else Some((created.value.address, LeafSigner(f.indexKey.key.d, created.value.tapscript)))
  {
    hide CreateTweakedAddressFromPublicKey;
  }

  lemma LeafFinalKey(c: Suite, d: nat, leaf: SigningData)
    requires c.n > 0
    ensures FinalKey(c, LeafSigner(d, leaf)) == TweakPrivate(c, d, [])
  {
    hide TweakPrivate;
  }

  /** What both routes make of two private keys. */
  lemma LuckyEntries(c: Suite, timelock: uint32, f: Bip44Key, s: Bip44Key)
    requires Lucky(c) && WalletTheorems.PrivateLeaf(c, f) && WalletTheorems.PrivateLeaf(c, s)
    ensures PrivateEntry(c, timelock, f, s).Some? && FinalKey(c, PrivateEntry(c, timelock, f, s).value.1) != 0
    ensures var public := PublicEntry(c, timelock, f, WalletTheorems.NeuterKey(c, s));
      && public.Some? && FinalKey(c, public.value.1) != 0 && public.value.1.LeafSigner?
      && c.decodeAddress(public.value.0).Some? && |c.decodeAddress(public.value.0).value| == 32
      && LiftX(c, c.decodeAddress(public.value.0).value).Some?
      && CanonicalTweak(c, public.value.1.tapscript)
  {
    assert c.n > 0;
    hide *;
    LeafScalars(c, f);
    LeafScalars(c, s);
    var d1, d2 := f.indexKey.key.d, s.indexKey.key.d;
    LuckyTweak(c, d1, []);
    LuckyKeys(c, timelock, d1, d2);
    PrivateEntryIs(c, timelock, f, s);
    PublicEntryIs(c, timelock, f, s);
    LeafFinalKey(c, d1, CreateTweakedAddressFromPublicKey(c, timelock, c.mul(d2), d1).value.tapscript);
  }

  lemma LuckyEntry(c: Suite, timelock: uint32, first: Bip44Key, second: Bip44Key, i: nat)
    requires Lucky(c) && WalletTheorems.PrivateLeaf(c, first) && WalletTheorems.PrivateLeaf(c, second)
    requires first.changeKey.depth < 0xFF && second.changeKey.depth < 0xFF
    ensures var public := WalletTheorems.NeuterKey(c, second);
      && EntryAt(c, KeyPath(timelock), first, second, i).Some?
      && EntryAt(c, ScriptPath(timelock), first, public, i).Some?
      && SignsAt(c, KeyPath(timelock), first, second, i)
      && SignsAt(c, ScriptPath(timelock), first, public, i)
      && OpensAt(c, ScriptPath(timelock), first, public, i)
  {
    LuckyWalk(c, first, i);
    LuckyWalk(c, second, i);
    LawfulParts(c);
    WalletTheorems.WalkNeuter(c, second, i);
    LuckyEntries(c, timelock, Walk(c, first, i).value, Walk(c, second, i).value);
    hide Lucky, GroupLaws, Walk, PrivateEntry, PublicEntry, WalletTheorems.PrivateLeaf, WalletTheorems.NeuterKey,
         FinalKey, LiftX, CanonicalTweak;
  }

  /** All keys of a lucky wallet can sign, and all its outputs open. */
  lemma LuckyUsable(c: Suite, timelock: uint32, first: Bip44Key, second: Bip44Key)
    requires Lucky(c) && WalletTheorems.PrivateLeaf(c, first) && WalletTheorems.PrivateLeaf(c, second)
    requires first.changeKey.depth < 0xFF && second.changeKey.depth < 0xFF
    ensures var public := WalletTheorems.NeuterKey(c, second);
      && Usable(c, KeyPath(timelock), first, second)
      && Usable(c, ScriptPath(timelock), first, public) && Opens(c, ScriptPath(timelock), first, public)
  {
    LuckyWalk(c, first, 700);
    LuckyWalk(c, second, 700);
    LawfulParts(c);
    WalletTheorems.WalkNeuter(c, second, 700);
    assert c.n > 0;
    var public := WalletTheorems.NeuterKey(c, second);
    forall i: nat
      ensures EntryAt(c, KeyPath(timelock), first, second, i).Some?
           && EntryAt(c, ScriptPath(timelock), first, public, i).Some?
           && SignsAt(c, KeyPath(timelock), first, second, i)
           && SignsAt(c, ScriptPath(timelock), first, public, i)
           && OpensAt(c, ScriptPath(timelock), first, public, i)
    {
      LuckyEntry(c, timelock, first, second, i);
    }
    hide Lucky, GroupLaws, Walk, EntryAt, SignsAt, OpensAt, WalletTheorems.PrivateLeaf, WalletTheorems.NeuterKey;
  }

  // ----- spending -----

  /** Every coin is at one of the first 700 addresses of the two seeds. */
  ghost predicate OwnedBy(c: Suite, timelock: uint32, first: ExtKey, second: ExtKey, coins: seq<Utxo>)
    requires c.n > 0
  {
    var keys := KeySearch.SearchKeys(c, first, second);
    keys.Some? && Owned(c, KeyPath(timelock), keys.value.0, keys.value.1, coins)
  }

  /** A lucky wallet signs for its own coins exactly when it has the funds, and satisfies their scripts. */
  lemma LuckyWalletSpends(c: Suite, timelock: uint32, first: ExtKey, second: ExtKey, q: Request, coins: seq<Utxo>,
                          ledger: map<OutPoint, TxOut>)
    requires Lucky(c) && Master(c, first) && Master(c, second)
    requires q.feeRate > 0.0 && Honest(c, ledger, coins) && OwnedBy(c, timelock, first, second, coins)
    ensures q.Run(coins).Ok? <==> Funded(q, coins)
    ensures q.Run(coins).Ok? ==>
      && (exists signed :: SignedByBoth(c, timelock, first, second, q.Run(coins).value, signed))
      && (forall signed :: SignedByBoth(c, timelock, first, second, q.Run(coins).value, signed)
            ==> SpendsAll(c, ledger, signed))
  {
    LuckyKey(c, first, 0);
    LuckyKey(c, second, 0);
    var keys := KeySearch.SearchKeys(c, first, second).value;
    LuckyUsable(c, timelock, keys.0, keys.1);
    assert Lawful(c) && c.n > 0;
    hide Lucky, Lawful, GetBip44Key, Usable, Opens, Owned, Honest, Request.Run, Funded, SignedByBoth, SpendsAll;
    WalletSpends(c, timelock, first, second, q, coins, ledger);
  }

  /** And it signs for the same coins with the first seed and the descriptor. */
  lemma LuckyWalletRecovers(c: Suite, timelock: uint32, first: ExtKey, second: ExtKey, q: Request, coins: seq<Utxo>,
                            ledger: map<OutPoint, TxOut>)
    requires Lucky(c) && Master(c, first) && Master(c, second) && timelock != 0
    requires q.feeRate > 0.0 && Honest(c, ledger, coins) && OwnedBy(c, timelock, first, second, coins)
    ensures GetDescriptor(c, second).Some?
    ensures var w := Recovery(first, GetDescriptor(c, second).value);
      && (q.Run(coins).Ok? <==> Funded(q, coins))
      && (q.Run(coins).Ok? ==>
            && (exists signed :: SignedForRecovery(c, timelock, w, q.Run(coins).value, signed))
            && (forall signed :: SignedForRecovery(c, timelock, w, q.Run(coins).value, signed)
                  ==> SpendsAll(c, ledger, signed)))
  {
    LuckyKey(c, first, 0);
    LuckyKey(c, second, 0);
    assert Lawful(c) && c.n > 0 && WalletTheorems.ValidWallet(c, first, second);
    LawfulParts(c);
    var b1, b2 := GetBip44Key(c, first, 0).value, GetBip44Key(c, second, 0).value;
    assert KeySearch.SearchKeys(c, first, second) == Some((b1, b2));
    LuckyUsable(c, timelock, b1, b2);
    hide *;
    WalletTheorems.OwnDescriptor(c, second, 0);
    var w := Recovery(first, GetDescriptor(c, second).value);
    OwnedStart(c, timelock, first, second, coins);
    RecoveryStartIs(c, first, second);
    OwnedEitherWay(c, timelock, b1, b2, coins);
    RecoverySpends(c, timelock, first, second, w, q, coins, ledger);
  }

  lemma OwnedStart(c: Suite, timelock: uint32, first: ExtKey, second: ExtKey, coins: seq<Utxo>)
    requires c.n > 0 && KeySearch.SearchKeys(c, first, second).Some? && OwnedBy(c, timelock, first, second, coins)
    ensures var keys := KeySearch.SearchKeys(c, first, second).value; Owned(c, KeyPath(timelock), keys.0, keys.1, coins)
  {
    hide KeySearch.SearchKeys, Owned;
  }

  lemma RecoveryStartIs(c: Suite, first: ExtKey, second: ExtKey)
    requires Lawful(c) && c.n > 0 && WalletTheorems.ValidWallet(c, first, second)
    requires GetBip44Key(c, first, 0).Some? && GetDescriptor(c, second).Some?
    ensures GetBip44Key(c, second, 0).Some?
    ensures StartKeys(c, Recovery(first, GetDescriptor(c, second).value), 0)
         == Some((GetBip44Key(c, first, 0).value, WalletTheorems.NeuterKey(c, GetBip44Key(c, second, 0).value)))
  {
    assert GetBip44Key(c, second, 0).Some?;
    hide *;
    WalletTheorems.FullStart(c, first, second, 0);
    WalletTheorems.SameStart(c, first, second, 0);
  }

  // ----- there are such wallets -----

  /** The address of the first index, where both routes agree. */
  lemma FirstAddress(c: Suite, timelock: uint32, first: ExtKey, second: ExtKey) returns (address: string)
    requires Lucky(c) && Master(c, first) && Master(c, second)
    ensures KeySearch.SearchKeys(c, first, second).Some?
    ensures var keys := KeySearch.SearchKeys(c, first, second).value;
      KeySearch.NamedAt(c, KeyPath(timelock), keys.0, keys.1, 0, address)
    ensures c.decodeAddress(address).Some? && |c.decodeAddress(address).value| == 32
  {
    LuckyKey(c, first, 0);
    LuckyKey(c, second, 0);
    var b1, b2 := GetBip44Key(c, first, 0).value, GetBip44Key(c, second, 0).value;
    assert KeySearch.SearchKeys(c, first, second) == Some((b1, b2));
    LawfulParts(c);
    hide Lucky, Lawful, GroupLaws, KeySearch.SearchKeys, GetBip44Key, WalletTheorems.NeuterKey, FinalKey, LiftX,
         CanonicalTweak, WalletTheorems.PrivateLeaf, Master;
    LuckyEntries(c, timelock, b1, b2);
    WalletTheorems.EntriesAgree(c, timelock, b1, b2);
    assert EntryAt(c, KeyPath(timelock), b1, b2, 0) == PrivateEntry(c, timelock, b1, b2);
    hide PrivateEntry, PublicEntry, EntryAt;
    address := PrivateEntry(c, timelock, b1, b2).value.0;
  }

  function CoinAt(c: Suite, address: string): Utxo
    requires c.decodeAddress(address).Some?
  {
    Utxo(address, OutPoint(Zeros(32), 0), 1000, Text.HexEncode(WitnessProgram(c.decodeAddress(address).value)))
  }

  function LedgerAt(c: Suite, address: string): map<OutPoint, TxOut>
    requires c.decodeAddress(address).Some?
  {
    map[OutPoint(Zeros(32), 0) := TxOut(1000, WitnessProgram(c.decodeAddress(address).value))]
  }

  lemma CoinIsHonest(c: Suite, address: string)
    requires c.decodeAddress(address).Some? && |c.decodeAddress(address).value| == 32
    ensures Honest(c, LedgerAt(c, address), [CoinAt(c, address)])
  {
    hide Text.HexEncode, Text.HexDecode, WitnessProgram;
    Text.HexRoundTrip(WitnessProgram(c.decodeAddress(address).value));
    assert HonestCoin(c, LedgerAt(c, address), CoinAt(c, address));
  }

  lemma CoinIsOwned(c: Suite, timelock: uint32, first: ExtKey, second: ExtKey, coin: Utxo)
    requires c.n > 0 && KeySearch.SearchKeys(c, first, second).Some?
    requires var keys := KeySearch.SearchKeys(c, first, second).value;
      KeySearch.NamedAt(c, KeyPath(timelock), keys.0, keys.1, 0, coin.fromAddress)
    ensures OwnedBy(c, timelock, first, second, [coin])
  {
    hide KeySearch.SearchKeys, KeySearch.NamedAt;
  }

  /** Sending one coin away is an acceptable request. */
  lemma OneCoinAcceptable(q: Request, coin: Utxo)
    requires q.amount == 0 && q.feeRate == 1.0 && |q.destScript| == 34 && coin.amount == 1000
    ensures Acceptable(q, [coin]) && NonNegative([coin]) && DistinctOutpoints([coin])
  {
    assert [coin][..0] == [];
    assert Total([coin]) == 1000;
    assert CoinOutcome.PricedWeight(1, 34) == 444 && VSize(444) == 111;
    hide Total, VSize, CoinOutcome.PricedWeight;
  }

  /** Sending one coin away leaves one input. */
  lemma OneInput(q: Request, coin: Utxo)
    requires q.feeRate > 0.0 && q.amount == 0 && coin.amount == 1000
    ensures Funded(q, [coin])
    ensures q.Run([coin]).Ok? ==> |q.Run([coin]).value.msgTx.txIn| == 1
  {
    assert [coin][..1] == [coin] && [coin][..0] == [];
    assert Total([coin]) == 1000;
    if q.Run([coin]).Ok? {
      hide Request.Run;
      CoinTheorems.PlanOfRun(q, [coin]);
      RunInputs(q, [coin]);
    }
  }

  /** A coin at the wallet's first address, its ledger, and a request that spends it. */
  lemma CoinToSpend(c: Suite, timelock: uint32, first: ExtKey, second: ExtKey)
    returns (coin: Utxo, ledger: map<OutPoint, TxOut>, q: Request)
    requires Lucky(c) && Master(c, first) && Master(c, second)
    ensures c.n > 0
    ensures q.feeRate > 0.0 && Honest(c, ledger, [coin]) && OwnedBy(c, timelock, first, second, [coin])
    ensures Funded(q, [coin]) && (q.Run([coin]).Ok? ==> |q.Run([coin]).value.msgTx.txIn| == 1)
    ensures Acceptable(q, [coin]) && NonNegative([coin]) && DistinctOutpoints([coin])
  {
    assert c.n > 0;
    var address := FirstAddress(c, timelock, first, second);
    var script := WitnessProgram(Zeros(32));
    assert |script| == 34;
    coin, ledger, q := CoinAt(c, address), LedgerAt(c, address), Request(script, script, 0, 1.0);
    assert coin.fromAddress == address && coin.amount == 1000;
    hide *;
    CoinIsHonest(c, address);
    CoinIsOwned(c, timelock, first, second, coin);
    OneInput(q, coin);
    OneCoinAcceptable(q, coin);
  }
}
