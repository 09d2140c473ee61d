/** Full and recovery wallets list the same addresses, page by page, and find the same keys. */
module WalletTheorems {
  import opened Prelude
  import opened Crypto
  import opened Bip32
  import opened Bip44
  import opened Taproot
  import opened Wallet
  import Descriptor
  import Text
  import TaprootTheorems

  // ----- starting keys -----

  /** A start index only changes the last derivation. */
  lemma StartAt(c: Suite, master: ExtKey, i: uint32, j: uint32)
    requires c.n > 0 && GetBip44Key(c, master, i).Some?
    ensures GetBip44Key(c, master, i).value.HasLevels()
    ensures GetBip44Key(c, master, i).value.index == Path(i)
    ensures GetBip44Key(c, master, j) == At(c, GetBip44Key(c, master, i).value, Path(j))
  {
    hide Derive;
  }

  lemma ImportAt(c: Suite, descriptor: string, i: uint32, j: uint32)
    requires c.n > 0 && Descriptor.Import(c, descriptor, i).Some?
    ensures Descriptor.Import(c, descriptor, i).value.index == i
    ensures Descriptor.Import(c, descriptor, j) == At(c, Descriptor.Import(c, descriptor, i).value, j)
  {
    hide Derive, Descriptor.IndexOf, Descriptor.Split, ParseKey, ParsePath;
  }

  // ----- walks -----

  lemma {:induction false} WalkAdd(c: Suite, b: Bip44Key, m: nat, n: nat)
    requires c.n > 0 && Walk(c, b, m).Some?
    ensures Walk(c, b, m + n) == Walk(c, Walk(c, b, m).value, n)
  {
    hide DeriveNextSibling;
    if n > 0 {
      WalkAdd(c, b, m, n - 1);
    }
  }

  /** Walking `m` siblings is starting `m` indexes later, 32-bit wrap-around included. */
  lemma WalkIsLaterStart(c: Suite, b: Bip44Key, s: uint32, m: nat)
    requires c.n > 0 && b.index == Path(s) && m > 0 && Walk(c, b, m).Some?
    ensures Walk(c, b, m) == At(c, b, Path(Add32(s, m)))
  {
    WalkShorter(c, b, 1, m);
    WalkOne(c, b);
    WalkLandsAt(c, b, m);
    LaterPath(s, m);
    hide Walk, At;
  }

  lemma WalkOne(c: Suite, b: Bip44Key)
    requires c.n > 0 && Walk(c, b, 1).Some?
    ensures b.HasLevels()
  {
    hide Derive;
    assert Walk(c, b, 0) == Some(b);
  }

  lemma LaterPath(s: uint32, m: nat)
    ensures IndexAfter(Path(s), m) == Path(Add32(s, m))
  {
    var a, b := Path(s), Add32(s, m);
    assert s % 0x8000_0000 == a;
    Mod31(s + m);
    AddMod(s, m);
  }

  lemma Mod31(v: nat)
    ensures (v % 0x1_0000_0000) % 0x8000_0000 == v % 0x8000_0000
  {
    var q, r := v / 0x1_0000_0000, v % 0x1_0000_0000;
    var a, b := r / 0x8000_0000, r % 0x8000_0000;
    Rest31(v, 2 * q + a, b);
  }

  lemma Rest31(v: nat, k: nat, b: nat)
    requires v == 0x8000_0000 * k + b && b < 0x8000_0000
    ensures v % 0x8000_0000 == b
  {
  }

  // ----- pages -----

  lemma EntryShift(c: Suite, route: Route, first: Bip44Key, second: Bip44Key, m: nat, f: Bip44Key, s: Bip44Key, i: nat)
    requires c.n > 0 && Walk(c, first, m) == Some(f) && Walk(c, second, m) == Some(s)
    ensures Walk(c, first, m + i) == Walk(c, f, i) && Walk(c, second, m + i) == Walk(c, s, i)
    ensures EntryAt(c, route, first, second, m + i) == EntryAt(c, route, f, s, i)
  {
    hide Walk, Make;
    WalkAdd(c, first, m, i);
    WalkAdd(c, second, m, i);
  }

  lemma ReachesSplit(c: Suite, route: Route, first: Bip44Key, second: Bip44Key, m: nat, n: nat,
                     f: Bip44Key, s: Bip44Key)
    requires c.n > 0 && Reaches(c, route, first, second, m)
    requires Walk(c, first, m) == Some(f) && Walk(c, second, m) == Some(s)
    ensures Reaches(c, route, first, second, m + n) == Reaches(c, route, f, s, n)
    ensures forall i :: 0 <= i < n ==> EntryAt(c, route, first, second, m + i) == EntryAt(c, route, f, s, i)
  {
    hide Walk, EntryAt;
    EntryShift(c, route, first, second, m, f, s, n);
    forall i | 0 <= i < n
      ensures EntryAt(c, route, first, second, m + i) == EntryAt(c, route, f, s, i)
    {
      EntryShift(c, route, first, second, m, f, s, i);
    }
    if Reaches(c, route, f, s, n) {
      forall i | m <= i < m + n
        ensures EntryAt(c, route, first, second, i).Some?
      {
        assert EntryAt(c, route, first, second, m + (i - m)) == EntryAt(c, route, f, s, i - m);
      }
    }
  }

  function Concat(a: Option<seq<string>>, b: Option<seq<string>>): Option<seq<string>> {
    if a.None? || b.None? then None else Some(a.value + b.value)
  }

  lemma AddressesSplit(c: Suite, timelock: uint32, first: Bip44Key, second: Bip44Key, m: nat, n: nat,
                       f: Bip44Key, s: Bip44Key)
    requires c.n > 0 && Reaches(c, ScriptPath(timelock), first, second, m)
    requires Walk(c, first, m) == Some(f) && Walk(c, second, m) == Some(s)
    ensures AddressesFrom(c, timelock, first, second, m + n)
         == Concat(AddressesFrom(c, timelock, first, second, m), AddressesFrom(c, timelock, f, s, n))
  {
    hide Walk, EntryAt, Reaches;
    var route := ScriptPath(timelock);
    ReachesSplit(c, route, first, second, m, n, f, s);
    if Reaches(c, route, f, s, n) {
      assert Listed(c, route, first, second, m + n) == Listed(c, route, first, second, m) + Listed(c, route, f, s, n);
    }
  }

  lemma AddressesFewer(c: Suite, timelock: uint32, first: Bip44Key, second: Bip44Key, m: nat, n: nat)
    requires c.n > 0 && m <= n && AddressesFrom(c, timelock, first, second, m).None?
    ensures AddressesFrom(c, timelock, first, second, n).None?
  {
    ReachesFewer(c, ScriptPath(timelock), first, second, m, n);
    hide Reaches;
  }

  /**
   A page of `m + n` addresses is the page of `m` followed by the page of `n` that starts
   `m` later, for every start, failures included.
   */
  lemma PagesConcatenate(c: Suite, timelock: uint32, w: Wallet, s: uint32, m: byte, n: byte)
    requires c.n > 0 && m > 0 && n > 0 && m as int + n as int < 0x100
    ensures AddressList(c, timelock, w, s, m + n)
         == Concat(AddressList(c, timelock, w, s, m), AddressList(c, timelock, w, Add32(s, m), n))
  {
    hide StartKeys, AddressesFrom, Walk, Reaches, Add32;
    if StartKeys(c, w, s).Some? {
      var keys := StartKeys(c, w, s).value;
      if AddressesFrom(c, timelock, keys.0, keys.1, m).Some? {
        AddressesReach(c, timelock, keys.0, keys.1, m);
        LaterStart(c, timelock, w, s, m);
        AddressesSplit(c, timelock, keys.0, keys.1, m, n, Walk(c, keys.0, m).value, Walk(c, keys.1, m).value);
      } else {
        AddressesFewer(c, timelock, keys.0, keys.1, m, m + n);
      }
    }
  }

  lemma AddressesReach(c: Suite, timelock: uint32, first: Bip44Key, second: Bip44Key, n: nat)
    requires c.n > 0
    ensures AddressesFrom(c, timelock, first, second, n).Some? == Reaches(c, ScriptPath(timelock), first, second, n)
  {
    hide Reaches;
  }

  lemma LaterStart(c: Suite, timelock: uint32, w: Wallet, s: uint32, m: nat)
    requires c.n > 0 && m > 0 && StartKeys(c, w, s).Some?
    requires var keys := StartKeys(c, w, s).value; Reaches(c, ScriptPath(timelock), keys.0, keys.1, m)
    ensures var keys := StartKeys(c, w, s).value;
      && Walk(c, keys.0, m).Some? && Walk(c, keys.1, m).Some?
      && StartKeys(c, w, Add32(s, m)) == Some((Walk(c, keys.0, m).value, Walk(c, keys.1, m).value))
  {
    var keys := StartKeys(c, w, s).value;
    assert Walk(c, keys.0, m).Some? && Walk(c, keys.1, m).Some?;
    hide Walk, Reaches, GetBip44Key, Descriptor.Import, SecondDescriptor, At, Path, Add32;
    StartAt(c, w.first, s, Add32(s, m));
    ImportAt(c, SecondDescriptor(c, w).value, Path(s), Path(Add32(s, m)));
    WalkIsLaterStart(c, keys.0, s, m);
    WalkIsLaterStart(c, keys.1, s, m);
  }

  // ----- the public and the private second key -----

  /** The same key without its private part. */
  function NeuterKey(c: Suite, b: Bip44Key): Bip44Key {
    b.(changeKey := Neuter(c, b.changeKey), indexKey := Neuter(c, b.indexKey))
  }

  /** A private key at a non-hardened index. */
  predicate PrivateLeaf(c: Suite, b: Bip44Key) {
    ValidPrivate(c, b.changeKey) && ValidPrivate(c, b.indexKey) && !IsHardened(b.index) && b.HasLevels()
  }

  lemma NeuterAt(c: Suite, b: Bip44Key, i: uint32)
    requires GroupLaws(c) && ValidPrivate(c, b.changeKey) && !IsHardened(i)
    ensures At(c, NeuterKey(c, b), i)
         == match At(c, b, i) case None => None case Some(r) => Some(NeuterKey(c, r))
    ensures At(c, b, i).Some? && b.HasLevels() ==> PrivateLeaf(c, At(c, b, i).value)
  {
    DeriveNeuter(c, b.changeKey, i);
    hide Derive, GroupLaws;
    assert Neuter(c, Neuter(c, b.changeKey)) == Neuter(c, b.changeKey);
  }

  lemma SiblingIsAt(c: Suite, b: Bip44Key)
    requires c.n > 0 && b.HasLevels()
    ensures DeriveNextSibling(c, b) == At(c, b, NextIndex(b.index))
  {
    hide Derive, NextIndex;
  }

  lemma NextStaysPlain(index: uint32)
    requires !IsHardened(index)
    ensures !IsHardened(NextIndex(index))
  {
  }

  lemma SiblingNeuter(c: Suite, b: Bip44Key)
    requires GroupLaws(c) && PrivateLeaf(c, b)
    ensures c.n > 0
    ensures DeriveNextSibling(c, NeuterKey(c, b))
         == match DeriveNextSibling(c, b) case None => None case Some(r) => Some(NeuterKey(c, r))
    ensures DeriveNextSibling(c, b).Some? ==> PrivateLeaf(c, DeriveNextSibling(c, b).value)
  {
    GroupOrder(c);
    hide GroupLaws, DeriveNextSibling, At, NextIndex, Neuter, ValidPrivate;
    SiblingIsAt(c, b);
    SiblingIsAt(c, NeuterKey(c, b));
    NextStaysPlain(b.index);
    NeuterAt(c, b, NextIndex(b.index));
  }

  /** Walking the public key is walking the private key and then dropping the private part. */
  lemma {:induction false} WalkNeuter(c: Suite, b: Bip44Key, n: nat)
    requires GroupLaws(c) && PrivateLeaf(c, b)
    ensures Walk(c, NeuterKey(c, b), n)
         == match Walk(c, b, n) case None => None case Some(r) => Some(NeuterKey(c, r))
    ensures Walk(c, b, n).Some? ==> PrivateLeaf(c, Walk(c, b, n).value)
  {
    GroupOrder(c);
    hide DeriveNextSibling, NeuterKey, PrivateLeaf, GroupLaws;
    if n > 0 {
      WalkNeuter(c, b, n - 1);
      if Walk(c, b, n - 1).Some? {
        SiblingNeuter(c, Walk(c, b, n - 1).value);
      }
    }
  }

  /** The signers behind one address agree on the tweaked key and the leaf. */
  ghost predicate SameAddress(c: Suite, timelock: uint32, secret: Option<(string, Signer)>,
                              public: Option<(string, Signer)>,
                              secondKey: nat, firstKey: nat)
    requires c.n > 0
  {
    && secret.Some? == public.Some?
    && (secret.Some? ==>
          && secret.value.0 == public.value.0
          && public.value.1.LeafSigner? && public.value.1.privateKey == firstKey
          && secret.value.1 == KeySigner(TweakPrivate(c, secondKey, FirstKeyHash(c, firstKey)),
                                         public.value.1.tapscript.merkleRoot))
  }

  lemma EntriesAgree(c: Suite, timelock: uint32, first: Bip44Key, second: Bip44Key)
    requires GroupLaws(c) && PrivateLeaf(c, first) && PrivateLeaf(c, second)
    ensures SameAddress(c, timelock, PrivateEntry(c, timelock, first, second),
                        PublicEntry(c, timelock, first, NeuterKey(c, second)),
                        second.indexKey.key.d, first.indexKey.key.d)
  {
    TaprootTheorems.RoutesAgree(c, timelock, second.indexKey.key.d, first.indexKey.key.d);
    assert c.n > 0;
    hide GroupLaws, CreateTweakedAddress, CreateTweakedAddressFromPublicKey, TweakPrivate;
  }

  /**
   Private and public derivation name the same address at every index: what the search
   with both seeds stores at `i` is what the listing without the second seed shows there.
   */
  lemma RoutesNameSameAddress(c: Suite, timelock: uint32, first: Bip44Key, second: Bip44Key, i: nat)
    requires GroupLaws(c) && PrivateLeaf(c, first) && PrivateLeaf(c, second)
    ensures
      var secret := EntryAt(c, KeyPath(timelock), first, second, i);
      var public := EntryAt(c, ScriptPath(timelock), first, NeuterKey(c, second), i);
      && secret.Some? == public.Some?
      && (secret.Some? ==>
            var f, s := Walk(c, first, i).value, Walk(c, second, i).value;
            && PrivateLeaf(c, f) && PrivateLeaf(c, s)
            && SameAddress(c, timelock, secret, public, s.indexKey.key.d, f.indexKey.key.d))
  {
    WalkNeuter(c, first, i);
    WalkNeuter(c, second, i);
    assert c.n > 0;
    if Walk(c, first, i).Some? && Walk(c, second, i).Some? {
      EntriesAgree(c, timelock, Walk(c, first, i).value, Walk(c, second, i).value);
    }
    hide GroupLaws, PrivateEntry, PublicEntry, Walk, SameAddress, PrivateLeaf, NeuterKey;
  }

  // ----- a wallet and its descriptor -----

  /** Both masters are valid private keys, and the first index of the second can be derived. */
  predicate ValidWallet(c: Suite, first: ExtKey, second: ExtKey)
    requires c.n > 0
  {
    ValidPrivate(c, first) && ValidPrivate(c, second) && GetBip44Key(c, second, 0).Some?
  }

  lemma KeyIsPrivate(c: Suite, master: ExtKey, s: uint32)
    requires GroupLaws(c) && ValidPrivate(c, master) && GetBip44Key(c, master, s).Some?
    ensures PrivateLeaf(c, GetBip44Key(c, master, s).value)
  {
    var k1 := Derive(c, master, PathHardened(44)).value;
    var k2 := Derive(c, k1, PathHardened(0)).value;
    var k3 := Derive(c, k2, PathHardened(0)).value;
    var k4 := Derive(c, k3, Path(0)).value;
    DerivePrivate(c, master, PathHardened(44));
    DerivePrivate(c, k1, PathHardened(0));
    DerivePrivate(c, k2, PathHardened(0));
    DerivePrivate(c, k3, Path(0));
    DerivePrivate(c, k4, Path(s));
    hide Derive, GroupLaws;
  }

  lemma DerivedWritable(c: Suite, parent: ExtKey, i: uint32)
    requires Lawful(c) && ValidPrivate(c, parent) && Derive(c, parent, i).Some?
    ensures Writable(c, Neuter(c, Derive(c, parent, i).value))
  {
    DerivePrivate(c, parent, i);
    ScalarPoint(c, Derive(c, parent, i).value.key.d);
    hide ChildKey, ChildData, GroupLaws;
    assert |c.hash160(SerP(PublicPoint(c, parent)))| == 20;
    assert |c.hmac(parent.chainCode, ChildData(c, parent, i)).1| == 32;
  }

  lemma ChangeKeyWritable(c: Suite, master: ExtKey, s: uint32)
    requires Lawful(c) && ValidPrivate(c, master) && GetBip44Key(c, master, s).Some?
    ensures var b := GetBip44Key(c, master, s).value;
      Writable(c, Neuter(c, b.changeKey)) && |b.fingerprint| == 8 && ']' !in b.fingerprint
  {
    var k1 := Derive(c, master, PathHardened(44)).value;
    var k2 := Derive(c, k1, PathHardened(0)).value;
    var k3 := Derive(c, k2, PathHardened(0)).value;
    DerivePrivate(c, master, PathHardened(44));
    DerivePrivate(c, k1, PathHardened(0));
    DerivePrivate(c, k2, PathHardened(0));
    DerivedWritable(c, k3, Path(0));
    assert |Fingerprint(c, master)| == 4;
    FingerprintText(Fingerprint(c, master));
    hide Derive, GroupLaws, Writable, Neuter, Fingerprint;
  }

  lemma FingerprintText(fingerprint: Bytes)
    requires |fingerprint| == 4
    ensures |Text.HexEncode(fingerprint)| == 8 && ']' !in Text.HexEncode(fingerprint)
  {
    var s := Text.HexEncode(fingerprint);
    forall i | 0 <= i < |s|
      ensures s[i] != ']'
    {
      assert Text.IsLowerHexChar(s[i]);
    }
  }

  /** Importing a wallet's own second descriptor gives its second key without the private part. */
  lemma OwnDescriptor(c: Suite, second: ExtKey, s: uint32)
    requires Lawful(c) && ValidPrivate(c, second) && GetBip44Key(c, second, 0).Some?
    ensures GetDescriptor(c, second).Some?
    ensures Descriptor.Import(c, GetDescriptor(c, second).value, Path(s))
         == match GetBip44Key(c, second, s) case None => None case Some(b) => Some(NeuterKey(c, b))
  {
    var b := GetBip44Key(c, second, 0).value;
    StartAt(c, second, 0, s);
    KeyIsPrivate(c, second, 0);
    ChangeKeyWritable(c, second, 0);
    Descriptor.DescriptorRoundTrip(c, b, Path(s));
    NeuterAt(c, b, Path(s));
    ImportedIsNeuterAt(c, b, Path(s));
    assert c.n > 0;
    hide Lawful, GetBip44Key, Descriptor.Import, Descriptor.ParentDescriptor, At, NeuterKey, Derive,
         Descriptor.Imported;
  }

  lemma ImportedIsNeuterAt(c: Suite, b: Bip44Key, i: uint32)
    requires c.n > 0
    ensures Descriptor.Imported(c, b, i) == At(c, NeuterKey(c, b), i)
  {
    hide Derive;
  }

  /** The wallet's own descriptor names the master, the levels and the public change key. */
  lemma OwnDescriptorText(c: Suite, master: ExtKey)
    requires c.n > 0
    ensures GetDescriptor(c, master).Some? <==> GetBip44Key(c, master, 0).Some?
    ensures GetBip44Key(c, master, 0).Some? ==>
      var b := GetBip44Key(c, master, 0).value;
      GetDescriptor(c, master)
      == Some("tr([" + b.fingerprint + "/" + "44'/0'/0'/0" + "]" + KeyString(c, Neuter(c, b.changeKey)) + ")")
  {
    hide GetBip44Key, Descriptor.ParentDescriptor, Descriptor.ParentDerivation, KeyString, Neuter;
    if GetBip44Key(c, master, 0).Some? {
      Descriptor.WalletLevels(c, master, 0);
      Descriptor.PrintedPlainly(c, GetBip44Key(c, master, 0).value);
    }
  }

  /** A wallet and the recovery wallet made from its descriptor list the same addresses. */
  lemma RecoveryListsSame(c: Suite, timelock: uint32, first: ExtKey, second: ExtKey, s: uint32, num: byte)
    requires Lawful(c) && ValidWallet(c, first, second)
    ensures SecondDescriptor(c, Full(first, second)).Some?
    ensures AddressList(c, timelock, Full(first, second), s, num)
         == AddressList(c, timelock, Recovery(first, SecondDescriptor(c, Full(first, second)).value), s, num)
  {
    assert c.n > 0;
    OwnDescriptor(c, second, 0);
    SameStart(c, first, second, s);
    hide *;
    SecondIsOwn(c, first, second);
    SameStartSameList(c, timelock, Full(first, second),
                      Recovery(first, SecondDescriptor(c, Full(first, second)).value), s, num);
  }

  lemma SecondIsOwn(c: Suite, first: ExtKey, second: ExtKey)
    requires c.n > 0
    ensures SecondDescriptor(c, Full(first, second)) == GetDescriptor(c, second)
  {
  }

  lemma SameStart(c: Suite, first: ExtKey, second: ExtKey, s: uint32)
    requires c.n > 0 && GetDescriptor(c, second).Some?
    ensures StartKeys(c, Full(first, second), s) == StartKeys(c, Recovery(first, GetDescriptor(c, second).value), s)
  {
    hide GetDescriptor, Descriptor.Import, GetBip44Key;
  }

  lemma SameStartSameList(c: Suite, timelock: uint32, v: Wallet, w: Wallet, s: uint32, num: byte)
    requires c.n > 0 && StartKeys(c, v, s) == StartKeys(c, w, s)
    ensures AddressList(c, timelock, v, s, num) == AddressList(c, timelock, w, s, num)
  {
    hide StartKeys, AddressesFrom;
  }

  /**
   Entry `i` of a listing is the address that the private search, started at the same
   index, stores there; the listing exists exactly when the private entries do.
   */
  lemma ListingMatchesSearch(c: Suite, timelock: uint32, first: ExtKey, second: ExtKey, s: uint32, num: byte)
    requires Lawful(c) && ValidWallet(c, first, second) && num > 0
    ensures
      var f, t := GetBip44Key(c, first, s), GetBip44Key(c, second, s);
      var list := AddressList(c, timelock, Full(first, second), s, num);
      && (list.Some? <==> f.Some? && t.Some? && Reaches(c, KeyPath(timelock), f.value, t.value, num))
      && (list.Some? ==> list.value == Listed(c, KeyPath(timelock), f.value, t.value, num))
  {
    hide *;
    LawfulParts(c);
    Masters(c, first, second);
    FullStart(c, first, second, s);
    if GetBip44Key(c, first, s).Some? && GetBip44Key(c, second, s).Some? {
      var f, t := GetBip44Key(c, first, s).value, GetBip44Key(c, second, s).value;
      KeyIsPrivate(c, first, s);
      KeyIsPrivate(c, second, s);
      SameReach(c, timelock, f, t, num);
      ListIsFrom(c, timelock, Full(first, second), s, num, f, NeuterKey(c, t));
    } else {
      NoStartNoList(c, timelock, Full(first, second), s, num);
    }
  }

  lemma Masters(c: Suite, first: ExtKey, second: ExtKey)
    requires c.n > 0 && ValidWallet(c, first, second)
    ensures ValidPrivate(c, first) && ValidPrivate(c, second)
  {
    hide ValidPrivate, GetBip44Key;
  }

  lemma ListIsFrom(c: Suite, timelock: uint32, w: Wallet, s: uint32, num: byte, first: Bip44Key, second: Bip44Key)
    requires c.n > 0 && num > 0 && StartKeys(c, w, s) == Some((first, second))
    ensures AddressList(c, timelock, w, s, num).Some? <==> Reaches(c, ScriptPath(timelock), first, second, num)
    ensures Reaches(c, ScriptPath(timelock), first, second, num) ==>
      AddressList(c, timelock, w, s, num) == Some(Listed(c, ScriptPath(timelock), first, second, num))
  {
    hide StartKeys, Reaches, Listed;
  }

  lemma NoStartNoList(c: Suite, timelock: uint32, w: Wallet, s: uint32, num: byte)
    requires c.n > 0 && StartKeys(c, w, s).None?
    ensures AddressList(c, timelock, w, s, num).None?
  {
    hide StartKeys, AddressesFrom;
  }

  /** Starting at index `s` is walking there from index 0. */
  lemma StartIsWalk(c: Suite, master: ExtKey, s: uint32)
    requires c.n > 0 && GetBip44Key(c, master, 0).Some? && Walk(c, GetBip44Key(c, master, 0).value, s).Some?
    ensures GetBip44Key(c, master, s) == Walk(c, GetBip44Key(c, master, 0).value, s)
  {
    if s > 0 {
      StartAt(c, master, 0, s);
      hide GetBip44Key, Walk, At, Path;
      FromZero(s);
      WalkIsLaterStart(c, GetBip44Key(c, master, 0).value, 0, s);
    }
  }

  lemma FromZero(s: uint32)
    ensures Add32(0, s) == s && Path(0) == 0
  {
  }

  /**
   The key search starts at index 0 and nowhere else. Where it gets as far as `s`, a listing
   from `s` exists exactly when it gets `num` further, and its entry `i` is the address the
   search stores at index `s + i`.
   */
  lemma ListingIsSearched(c: Suite, timelock: uint32, first: ExtKey, second: ExtKey, s: uint32, num: byte)
    requires Lawful(c) && ValidWallet(c, first, second) && num > 0 && GetBip44Key(c, first, 0).Some?
    requires
      var f, t := GetBip44Key(c, first, 0).value, GetBip44Key(c, second, 0).value;
      Reaches(c, KeyPath(timelock), f, t, s)
    ensures
      var f, t := GetBip44Key(c, first, 0).value, GetBip44Key(c, second, 0).value;
      var list := AddressList(c, timelock, Full(first, second), s, num);
      && (list.Some? <==> Reaches(c, KeyPath(timelock), f, t, s + num))
      && (list.Some? ==>
            && |list.value| == num
            && forall i :: 0 <= i < num ==>
                 var entry := EntryAt(c, KeyPath(timelock), f, t, s + i); entry.Some? && list.value[i] == entry.value.0)
  {
    assert c.n > 0;
    var f, t := GetBip44Key(c, first, 0).value, GetBip44Key(c, second, 0).value;
    assert Walk(c, f, s).Some? && Walk(c, t, s).Some?;
    var route, list := KeyPath(timelock), AddressList(c, timelock, Full(first, second), s, num);
    hide Lawful, ValidWallet, GetBip44Key, Reaches, AddressList, EntryAt, Walk;
    StartIsWalk(c, first, s);
    StartIsWalk(c, second, s);
    var f1, t1 := Walk(c, f, s).value, Walk(c, t, s).value;
    ListingMatchesSearch(c, timelock, first, second, s, num);
    ReachesSplit(c, route, f, t, s, num, f1, t1);
    if list.Some? {
      EntriesExist(c, route, f1, t1, num);
    }
  }

  lemma EntriesExist(c: Suite, route: Route, first: Bip44Key, second: Bip44Key, n: nat)
    requires c.n > 0 && Reaches(c, route, first, second, n)
    ensures forall i :: 0 <= i < n ==> EntryAt(c, route, first, second, i).Some?
  {
    hide EntryAt, Walk;
  }

  lemma FullStart(c: Suite, first: ExtKey, second: ExtKey, s: uint32)
    requires Lawful(c) && ValidWallet(c, first, second)
    ensures StartKeys(c, Full(first, second), s)
         == if GetBip44Key(c, first, s).None? || GetBip44Key(c, second, s).None? then None
            else Some((GetBip44Key(c, first, s).value, NeuterKey(c, GetBip44Key(c, second, s).value)))
  {
    assert c.n > 0;
    hide Lawful, GetBip44Key, Descriptor.Import, GetDescriptor, NeuterKey;
    OwnDescriptor(c, second, s);
  }

  lemma SameReach(c: Suite, timelock: uint32, first: Bip44Key, second: Bip44Key, n: nat)
    requires GroupLaws(c) && PrivateLeaf(c, first) && PrivateLeaf(c, second)
    ensures Reaches(c, KeyPath(timelock), first, second, n)
       <==> Reaches(c, ScriptPath(timelock), first, NeuterKey(c, second), n)
    ensures Reaches(c, KeyPath(timelock), first, second, n) ==>
      Listed(c, KeyPath(timelock), first, second, n)
      == Listed(c, ScriptPath(timelock), first, NeuterKey(c, second), n)
  {
    assert c.n > 0;
    WalkNeuter(c, second, n);
    forall i: nat
      ensures EntryAt(c, KeyPath(timelock), first, second, i).Some?
           == EntryAt(c, ScriptPath(timelock), first, NeuterKey(c, second), i).Some?
      ensures EntryAt(c, KeyPath(timelock), first, second, i).Some? ==>
                EntryAt(c, KeyPath(timelock), first, second, i).value.0
                == EntryAt(c, ScriptPath(timelock), first, NeuterKey(c, second), i).value.0
    {
      hide EntryAt, Walk, NeuterKey, PrivateLeaf;
      RoutesNameSameAddress(c, timelock, first, second, i);
    }
    hide EntryAt, Walk, NeuterKey, PrivateLeaf, GroupLaws;
  }
}
