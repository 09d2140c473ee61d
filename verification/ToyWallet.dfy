/** The wallets of `Crypto.ToySuite`: they meet every assumption, spend, and list address after address. */
module ToyWallet {
  import opened Prelude
  import opened Chain
  import opened Crypto
  import opened Bip32
  import opened Bip44
  import opened Taproot
  import opened Wallet
  import opened CoinSelection
  import opened CoinOutcome
  import opened Signing
  import opened EndToEnd
  import opened Acceptance
  import opened LuckyWallets
  import TaprootTheorems
  import Text
  import WalletTheorems

  // ----- the toy suite is lucky -----

  /** The points of the toy group, by the parity of the index they are derived at. */
  predicate ToyParity(d: nat, i: uint32) {
    if i % 2 == 0 then d == 1 || d == 4 else d == 2 || d == 3
  }

  lemma ToyTweaked(d: nat, last: byte)
    requires 0 < d < 5
    ensures 0 < ToyTweak(d, last) < 5 && (ToyTweak(d, last) + d) % 5 > 0
    ensures ToyParity((ToyTweak(d, last) + d) % 5, last as int)
  {
  }

  /** The last bytes of what is hashed for a child, and the bytes of the scalar in front of them. */
  lemma ToyData(k: ExtKey, i: uint32)
    requires ValidPrivate(ToySuite(), k)
    ensures k.key.Private? && 0 < k.key.d < 5
    ensures var data := ChildData(ToySuite(), k, i);
      && |data| == 37 && data[36] % 2 == i % 2
      && (if data[0] == 3 then (5 - data[32] as int) % 5 else data[32]) == k.key.d
  {
    hide *;
    ToyIsLawful();
    ToyScalar(k);
    var c, d := ToySuite(), k.key.d;
    ChildDataReads(c, k, i);
    var data := ChildData(c, k, i);
    ToySpoken(k, i, data);
    if i >= 0x8000_0000 {
      BytesLast(data[1..33]);
    } else {
      ToyCompressed(d, data);
    }
  }

  lemma BytesLast(b: Bytes)
    requires |b| == 32 && FromBE(b) < 5
    ensures b[31] == FromBE(b)
  {
    assert FromBE(b) == FromBE(b[..31]) * 0x100 + b[31];
    hide FromBE;
  }

  lemma ToyScalar(k: ExtKey)
    requires ValidPrivate(ToySuite(), k)
    ensures k.key.Private? && 0 < k.key.d < 5 && ValidKey(ToySuite(), k)
    ensures PublicPoint(ToySuite(), k) == ToyMul(k.key.d)
  {
    hide ToyMul, ToyAdd, ToyX, ToyText, ToyBytes, ToyHmac;
  }

  lemma ToySpoken(k: ExtKey, i: uint32, m: Bytes)
    requires k.key.Private? && SpeaksOf(ToySuite(), k, i, m)
    ensures |m| == 37 && m[36] % 2 == i % 2
    ensures if i >= 0x8000_0000 then m[0] == 0 && FromBE(m[1..33]) == k.key.d
            else PublicPoint(ToySuite(), k) == Affine(m[1..33], m[0] == 3) && (m[0] == 2 || m[0] == 3)
  {
    hide ToySuite, PublicPoint, FromBE;
  }

  lemma ToyCompressed(d: nat, m: Bytes)
    requires |m| == 37 && 0 < d < 5
    requires ToyMul(d) == Affine(m[1..33], m[0] == 3)
    ensures (if m[0] == 3 then (5 - m[32] as int) % 5 else m[32]) == d
  {
    assert m[1..33][31] == m[32];
    hide ToyX;
  }

  lemma ToyHash(k: ExtKey, i: uint32) returns (last: byte)
    requires ValidPrivate(ToySuite(), k)
    ensures ToySuite().n == 5 && last % 2 == i % 2 && k.key.Private? && 0 < k.key.d < 5
    ensures ToySuite().hmac(k.chainCode, ChildData(ToySuite(), k, i)) == (ToyTweak(k.key.d, last), Zeros(32))
  {
    ToyData(k, i);
    hide ChildData, ToyTweak, ToyMul, ToyAdd, ToyX, ToyText, ToyBytes, Zeros, ValidPrivate;
    var data := ChildData(ToySuite(), k, i);
    assert ToyHmac(k.chainCode, data) == (ToyTweak(k.key.d, data[36]), Zeros(32));
    last := data[36];
  }

  lemma HashGivesChild(c: Suite, k: ExtKey, i: uint32, tweak: nat)
    requires 0 < tweak < c.n && k.key.Private? && k.depth < 0xFF && (tweak + k.key.d) % c.n != 0
    requires c.hmac(k.chainCode, ChildData(c, k, i)).0 == tweak
    ensures Derive(c, k, i).Some? && Derive(c, k, i).value.key == Private((tweak + k.key.d) % c.n)
  {
    hide ChildData, Fingerprint;
  }

  /** Every toy key has every child, and children at even and at odd indexes have different points. */
  lemma ToyChild(k: ExtKey, i: uint32)
    requires ValidPrivate(ToySuite(), k) && k.depth < 0xFF
    ensures ToySuite().n == 5 && Derive(ToySuite(), k, i).Some?
    ensures var key := Derive(ToySuite(), k, i).value.key; key.Private? && ToyParity(key.d, i)
  {
    hide *;
    var last := ToyHash(k, i);
    ToyTweaked(k.key.d, last);
    HashGivesChild(ToySuite(), k, i, ToyTweak(k.key.d, last));
    SameParity((ToyTweak(k.key.d, last) + k.key.d) % 5, last as int, i);
  }

  lemma SameParity(d: nat, i: uint32, j: uint32)
    requires i % 2 == j % 2
    ensures ToyParity(d, i) == ToyParity(d, j)
  {
  }

  lemma ToyTweakPrivate(d: nat, root: Bytes)
    requires IsScalar(ToySuite(), d)
    ensures ToySuite().n == 5
    ensures TweakPrivate(ToySuite(), d, root) == if d == 1 || d == 4 then 1 else 2
  {
    hide ToyX, ToyText, ToyBytes, ToyAdd, ToyHmac;
  }

  /** The toy suite is lucky, and so no theorem about lucky wallets is empty. */
  lemma ToyIsLucky()
    ensures Lucky(ToySuite())
  {
    ToyIsLawful();
    var c := ToySuite();
    assert c.n == 5;
    forall k: ExtKey, i: uint32 | ValidPrivate(c, k) && k.depth < 0xFF
      ensures Derive(c, k, i).Some?
    {
      ToyChild(k, i);
    }
    forall d: nat, root: Bytes | IsScalar(c, d)
      ensures TweakPrivate(c, d, root) > 0
    {
      ToyTweakPrivate(d, root);
    }
    assert forall b: Bytes :: c.tapTweak(b) == 0;
    hide Lawful, Derive, TweakPrivate, ValidPrivate, IsScalar, ToySuite;
  }

  // ----- different indexes, different addresses -----

  function ToyAddress(i: uint32): string {
    ToyText(ToyX(if i % 2 == 0 then 1 else 2))
  }

  lemma ToyAddressesDiffer(i: uint32, j: uint32)
    requires i % 2 != j % 2
    ensures ToyAddress(i) != ToyAddress(j)
  {
    var s, t := ToyAddress(i), ToyAddress(j);
    assert s[31] != t[31];
    hide ToyX, ToyText;
  }

  lemma ToyLeafKey(master: ExtKey, s: uint32)
    requires Master(ToySuite(), master)
    ensures ToySuite().n == 5 && GetBip44Key(ToySuite(), master, s).Some?
    ensures var b := GetBip44Key(ToySuite(), master, s).value;
      && WalletTheorems.PrivateLeaf(ToySuite(), b) && b.changeKey.depth < 0xFF
      && b.indexKey.key.Private? && ToyParity(b.indexKey.key.d, s)
  {
    hide *;
    var c := ToySuite();
    ToyIsLucky();
    ToyOrder();
    LuckyKey(c, master, s);
    var b := GetBip44Key(c, master, s).value;
    WalletKeyIff(c, master, s, b);
    var k1, k2, k3 :| OnPath(c, master, k1, k2, k3, b);
    LastStep(c, master, k1, k2, k3, b);
    LeafChange(c, b);
    ToyChild(b.changeKey, b.index);
    SameParity(b.indexKey.key.d, b.index, s);
  }

  lemma LastStep(c: Suite, master: ExtKey, k1: ExtKey, k2: ExtKey, k3: ExtKey, b: Bip44Key)
    requires c.n > 0 && OnPath(c, master, k1, k2, k3, b)
    ensures Derive(c, b.changeKey, b.index) == Some(b.indexKey)
  {
    hide Derive, Text.HexEncode;
  }

  lemma LeafChange(c: Suite, b: Bip44Key)
    requires WalletTheorems.PrivateLeaf(c, b)
    ensures ValidPrivate(c, b.changeKey)
  {
    hide ValidPrivate;
  }

  lemma AddressOf(c: Suite, timelock: uint32, f: Bip44Key, s: Bip44Key)
    requires c.n > 0 && f.indexKey.key.Private? && s.indexKey.key.Private? && PrivateEntry(c, timelock, f, s).Some?
    ensures
      var d1, d2 := f.indexKey.key.d, s.indexKey.key.d;
      var created := CreateFromTweaked(c, timelock, c.mul(TweakPrivate(c, d2, FirstKeyHash(c, d1))), d1);
      created.Some? && PrivateEntry(c, timelock, f, s).value.0 == created.value.address
  {
    hide CreateFromTweaked, TweakPrivate;
  }

  lemma ToyOutput(k: nat)
    requires k == 1 || k == 2
    ensures ToySuite().encodeAddress(XOnly(ToySuite().mul(k))) == ToyText(ToyX(k))
  {
    hide ToyX, ToyText, ToyBytes, ToyAdd, ToyHmac;
  }

  lemma OutputIsTweak(c: Suite, k: nat, root: Bytes)
    requires c.n > 0
    ensures TaprootTheorems.OutputScalar(c, k, root) == TweakPrivate(c, k, root)
  {
    hide TweakPrivate;
  }

  lemma ToyEntry(timelock: uint32, f: Bip44Key, s: Bip44Key, i: uint32)
    requires ToySuite().n == 5
    requires f.indexKey.key.Private? && s.indexKey.key.Private? && ToyParity(s.indexKey.key.d, i)
    requires PrivateEntry(ToySuite(), timelock, f, s).Some?
    ensures PrivateEntry(ToySuite(), timelock, f, s).value.0 == ToyAddress(i)
  {
    hide *;
    var c, d1, d2 := ToySuite(), f.indexKey.key.d, s.indexKey.key.d;
    ToyIsLawful();
    LawfulParts(c);
    AddressOf(c, timelock, f, s);
    ToyScalars(d2, i);
    ToyTweakPrivate(d2, FirstKeyHash(c, d1));
    var k := TweakPrivate(c, d2, FirstKeyHash(c, d1));
    ToyScalars(k, i);
    TaprootTheorems.CreatedFrom(c, timelock, k, d1);
    var root := CreateFromTweaked(c, timelock, c.mul(k), d1).value.MerkleRoot();
    ToyTweakPrivate(k, root);
    OutputIsTweak(c, k, root);
    ToyOutput(k);
    ToyNames(k, i);
  }

  lemma ToyScalars(d: nat, i: uint32)
    ensures ToyParity(d, i) ==> IsScalar(ToySuite(), d)
    ensures ToyParity(d, i) ==> (if d == 1 || d == 4 then i % 2 == 0 else i % 2 == 1)
    ensures i % 2 == 0 ==> ToyParity(1, i)
    ensures i % 2 == 1 ==> ToyParity(2, i)
  {
    hide ToyX, ToyText, ToyBytes, ToyAdd, ToyHmac;
  }

  lemma ToyNames(k: nat, i: uint32)
    requires k == if i % 2 == 0 then 1 else 2
    ensures ToyText(ToyX(k)) == ToyAddress(i)
  {
    hide ToyX, ToyText;
  }

  lemma OneListed(c: Suite, timelock: uint32, f: Bip44Key, s: Bip44Key)
    requires c.n > 0 && Reaches(c, KeyPath(timelock), f, s, 1)
    ensures PrivateEntry(c, timelock, f, s).Some?
    ensures Listed(c, KeyPath(timelock), f, s, 1) == [PrivateEntry(c, timelock, f, s).value.0]
  {
    hide PrivateEntry, DeriveNextSibling;
    assert EntryAt(c, KeyPath(timelock), f, s, 0) == PrivateEntry(c, timelock, f, s);
  }

  lemma ToyListsOne(timelock: uint32, first: ExtKey, second: ExtKey, s: uint32)
    requires Master(ToySuite(), first) && Master(ToySuite(), second)
    ensures ToySuite().n == 5
    ensures AddressList(ToySuite(), timelock, Full(first, second), s, 1) == Some([ToyAddress(s)])
  {
    hide *;
    var c := ToySuite();
    ToyIsLucky();
    LuckyIsLawful(c);
    ToyLeafKey(second, 0);
    ToyLeafKey(first, s);
    ToyLeafKey(second, s);
    MastersValid(c, first, second);
    var f, t := GetBip44Key(c, first, s).value, GetBip44Key(c, second, s).value;
    LuckyUsable(c, timelock, f, t);
    UsableReaches(c, timelock, f, t);
    ReachesFewer(c, KeyPath(timelock), f, t, 1, 700);
    OneListed(c, timelock, f, t);
    ToyEntry(timelock, f, t, s);
    WalletTheorems.ListingMatchesSearch(c, timelock, first, second, s, 1);
  }

  lemma LuckyIsLawful(c: Suite)
    requires Lucky(c)
    ensures Lawful(c)
  {
    hide Lawful;
  }

  lemma MastersValid(c: Suite, first: ExtKey, second: ExtKey)
    requires c.n > 0 && Master(c, first) && Master(c, second) && GetBip44Key(c, second, 0).Some?
    ensures WalletTheorems.ValidWallet(c, first, second)
  {
    hide GetBip44Key, ValidPrivate;
  }

  lemma UsableReaches(c: Suite, timelock: uint32, first: Bip44Key, second: Bip44Key)
    requires c.n > 0 && Usable(c, KeyPath(timelock), first, second)
    ensures Reaches(c, KeyPath(timelock), first, second, 700)
  {
    hide Reaches, SignsAt;
  }

  /**
   In the toy suite every wallet lists two different addresses at any two consecutive indexes: the index
   reaches the address.
   */
  lemma ToyListsApart(timelock: uint32, first: ExtKey, second: ExtKey, s: uint32)
    requires Master(ToySuite(), first) && Master(ToySuite(), second)
    ensures ToySuite().n == 5
    ensures
      var list := AddressList(ToySuite(), timelock, Full(first, second), s, 2);
      list.Some? && |list.value| == 2 && list.value[0] != list.value[1]
  {
    hide *;
    var t := Add32(s, 1);
    ToyListsOne(timelock, first, second, s);
    ToyListsOne(timelock, first, second, t);
    WalletTheorems.PagesConcatenate(ToySuite(), timelock, Full(first, second), s, 1, 1);
    TwoListed(ToyAddress(s), ToyAddress(t));
    NextParity(s);
    ToyAddressesDiffer(s, t);
  }

  lemma TwoListed(a: string, b: string)
    ensures WalletTheorems.Concat(Some([a]), Some([b])) == Some([a, b])
  {
    assert [a] + [b] == [a, b];
  }

  lemma NextParity(s: uint32)
    ensures s % 2 != Add32(s, 1) % 2
  {
  }

  // ----- one coin, spent both ways -----

  lemma SignedLength(c: Suite, timelock: uint32, first: ExtKey, second: ExtKey, info: TransactionInfo, signed: MsgTx)
    requires c.n > 0 && SignedByBoth(c, timelock, first, second, info, signed)
    ensures |signed.txIn| == |info.msgTx.txIn|
  {
    hide PrivateSearch, Signable, WitnessFor;
  }

  lemma RecoveredLength(c: Suite, timelock: uint32, w: Wallet, info: TransactionInfo, signed: MsgTx)
    requires c.n > 0 && SignedForRecovery(c, timelock, w, info, signed)
    ensures |signed.txIn| == |info.msgTx.txIn|
  {
    hide RecoverySearch, Signable, WitnessFor;
  }

  /** One wallet and one coin that meet every assumption above, spent both ways, and accepted. */
  lemma ToyWalletSpends(timelock: uint32)
    requires timelock != 0
    ensures
      var c := ToySuite();
      exists first, second, coin, ledger, q: Request, signed: MsgTx, recovered: MsgTx :: c.n > 0
        && q.Run([coin]).Ok? && |signed.txIn| == |recovered.txIn| == 1
        && SignedByBoth(c, timelock, first, second, q.Run([coin]).value, signed) && Accepted(c, ledger, signed)
        && GetDescriptor(c, second).Some?
        && SignedForRecovery(c, timelock, Recovery(first, GetDescriptor(c, second).value),
                             q.Run([coin]).value, recovered)
        && Accepted(c, ledger, recovered)
  {
    var c := ToySuite();
    assert c.n == 5;
    var first := ExtKey(Zeros(4), Private(1), Zeros(32), 0, Zeros(4), 0);
    var second := first.(key := Private(2));
    ToyIsLucky();
    assert Master(c, first) && Master(c, second);
    hide *;
    var coin, ledger, q := CoinToSpend(c, timelock, first, second);
    LuckyWalletSpends(c, timelock, first, second, q, [coin], ledger);
    LuckyWalletRecovers(c, timelock, first, second, q, [coin], ledger);
    var signed :| SignedByBoth(c, timelock, first, second, q.Run([coin]).value, signed);
    var recovered :| SignedForRecovery(c, timelock, Recovery(first, GetDescriptor(c, second).value),
                                       q.Run([coin]).value, recovered);
    assert SpendsAll(c, ledger, signed) && SpendsAll(c, ledger, recovered);
    SignedLength(c, timelock, first, second, q.Run([coin]).value, signed);
    RecoveredLength(c, timelock, Recovery(first, GetDescriptor(c, second).value), q.Run([coin]).value, recovered);
    BothShape(c, timelock, first, second, q.Run([coin]).value, signed);
    RecoveryShape(c, timelock, Recovery(first, GetDescriptor(c, second).value), q.Run([coin]).value, recovered);
    AcceptedIff(c, ledger, q, [coin], signed);
    AcceptedIff(c, ledger, q, [coin], recovered);
  }
}
