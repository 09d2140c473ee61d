/** The wallet's key paths, their siblings and their descriptors (bip_44.go). */
module Bip44 {
  import opened Prelude
  import opened Crypto
  import opened Bip32
  import Text

  // ----- path items -----

  predicate IsHardened(path: uint32) {
    path >= HARDENED_KEY_START
  }

  function GetPath(path: uint32): uint32 {
    if IsHardened(path) then path - HARDENED_KEY_START else path
  }

  function Path(path: uint32): uint32 {
    if IsHardened(path) then path - HARDENED_KEY_START else path
  }

  function PathHardened(path: uint32): uint32 {
    if IsHardened(path) then path else path + HARDENED_KEY_START
  }

  /** `getDerivationValue`: decimal, with a mark when hardened. */
  function DerivationValue(path: uint32): string {
    Text.PrintNat(GetPath(path)) + if IsHardened(path) then "'" else ""
  }

  /** `parsePath`; numbers with the hardened bit set lose it or keep it as the mark says. */
  function ParsePath(s: string): Option<uint32> {
    if s != "" && s[|s| - 1] == '\'' then
      var v :- Text.ParseUint32(s[..|s| - 1]);
      Some(PathHardened(v))
    else
      var v :- Text.ParseUint32(s);
      Some(Path(v))
  }

  lemma PathItemRoundTrip(path: uint32)
    ensures ParsePath(DerivationValue(path)) == Some(path)
    ensures '/' !in DerivationValue(path) && ']' !in DerivationValue(path)
  {
    var s, n := DerivationValue(path), Text.PrintNat(GetPath(path));
    Text.DecimalRoundTrip(GetPath(path));
    assert forall i :: 0 <= i < |n| ==> Text.IsDigit(n[i]);
    if IsHardened(path) {
      assert s[..|s| - 1] == n;
    } else {
      assert s == n && Text.IsDigit(s[|s| - 1]);
    }
  }

  /** The text of a path item: a number whose low 31 bits are the item's, perhaps behind noughts, and its mark. */
  predicate Spells(s: string, path: uint32, v: uint32, k: nat) {
    && path % 0x8000_0000 == v % 0x8000_0000
    && s == Text.Noughts(k) + Text.PrintNat(v) + if path >= 0x8000_0000 then "'" else ""
  }

  lemma LowBits(path: uint32, v: uint32)
    ensures path == PathHardened(v) <==> path % 0x8000_0000 == v % 0x8000_0000 && path >= 0x8000_0000
    ensures path == Path(v) <==> path % 0x8000_0000 == v % 0x8000_0000 && path < 0x8000_0000
  {
  }

  lemma Unmarked(k: nat, v: uint32)
    ensures var n := Text.Noughts(k) + Text.PrintNat(v); n != "" && n[|n| - 1] != '\''
  {
    var p := Text.PrintNat(v);
    assert Text.IsDigit(p[|p| - 1]);
    assert (Text.Noughts(k) + p)[k + |p| - 1] == p[|p| - 1];
    hide Text.Noughts, Text.PrintNat;
  }

  lemma SpelledIsRead(s: string, path: uint32, v: uint32, k: nat)
    requires Spells(s, path, v, k)
    ensures ParsePath(s) == Some(path)
  {
    var n := Text.Noughts(k) + Text.PrintNat(v);
    Unmarked(k, v);
    Text.PrintedIsRead(k, v);
    LowBits(path, v);
    hide Text.ParseUint32, Text.PrintNat, Text.Noughts, Path, PathHardened;
    if path >= 0x8000_0000 {
      assert s[..|s| - 1] == n;
    } else {
      assert s == n;
    }
  }

  /** A path item without its mark. */
  function Unmark(s: string): string {
    if s != "" && s[|s| - 1] == '\'' then s[..|s| - 1] else s
  }

  lemma ReadParts(s: string)
    requires ParsePath(s).Some?
    ensures Text.ParseUint32(Unmark(s)).Some?
    ensures var v := Text.ParseUint32(Unmark(s)).value;
      ParsePath(s) == Some(if s == Unmark(s) then Path(v) else PathHardened(v))
    ensures s == Unmark(s) + if s == Unmark(s) then "" else "'"
  {
    hide Text.ParseUint32, Path, PathHardened;
  }

  lemma ReadIsSpelled(s: string)
    requires ParsePath(s).Some?
    ensures exists v, k :: Spells(s, ParsePath(s).value, v, k)
  {
    hide *;
    ReadParts(s);
    Text.ReadIsPrinted(Unmark(s));
    var path, v := ParsePath(s).value, Text.ParseUint32(Unmark(s)).value;
    LowBits(path, v);
    var k :| Unmark(s) == Text.Noughts(k) + Text.PrintNat(v);
    SpellsOut(s, path, v, k);
  }

  lemma SpellsOut(s: string, path: uint32, v: uint32, k: nat)
    requires path % 0x8000_0000 == v % 0x8000_0000
    requires s == Text.Noughts(k) + Text.PrintNat(v) + if path >= 0x8000_0000 then "'" else ""
    ensures Spells(s, path, v, k)
  {
    hide Text.Noughts, Text.PrintNat;
  }

  /**
   A level is read exactly when it is a 32-bit number, with or without a mark: the mark sets the hardened
   bit and its absence clears it, whatever the number says.
   */
  lemma ParsePathIff(s: string, path: uint32)
    ensures ParsePath(s) == Some(path) <==> exists v, k :: Spells(s, path, v, k)
  {
    hide *;
    if ParsePath(s).Some? {
      ReadIsSpelled(s);
    }
    forall v, k | Spells(s, path, v, k)
      ensures ParsePath(s) == Some(path)
    {
      SpelledIsRead(s, path, v, k);
    }
  }

  // ----- keys -----

  /** Levels are absent when an imported descriptor held no number there. */
  datatype Bip44Key = Bip44Key(
    changeKey: ExtKey,
    indexKey: ExtKey,
    fingerprint: string,
    purpose: Option<uint32>,
    coin: Option<uint32>,
    account: Option<uint32>,
    change: Option<uint32>,
    index: uint32)
  {
    predicate HasLevels() {
      purpose.Some? && coin.Some? && account.Some? && change.Some?
    }
  }

  function CreateBip44Key(c: Suite, master: ExtKey, purpose: uint32, coin: uint32, account: uint32,
                          change: uint32, index: uint32): Option<Bip44Key>
    requires c.n > 0
  {
    var purposeKey :- Derive(c, master, purpose);
    var coinKey :- Derive(c, purposeKey, coin);
    var accountKey :- Derive(c, coinKey, account);
    var changeKey :- Derive(c, accountKey, change);
    var indexKey :- Derive(c, changeKey, index);
    Some(Bip44Key(changeKey, indexKey, Text.HexEncode(Fingerprint(c, master)),
                  Some(purpose), Some(coin), Some(account), Some(change), index))
  }

  /** leafy.go's `getBip44Key`, from the master key of a seed: 44'/0'/0'/0/startIndex. */
  function GetBip44Key(c: Suite, master: ExtKey, startIndex: uint32): Option<Bip44Key>
    requires c.n > 0
  {
    CreateBip44Key(c, master, PathHardened(44), PathHardened(0), PathHardened(0), Path(0), Path(startIndex))
  }

  /** The keys on the way from a master key to an address, and the names of their levels. */
  ghost predicate Led(c: Suite, master: ExtKey, purpose: uint32, coin: uint32, account: uint32, change: uint32,
                      k1: ExtKey, k2: ExtKey, k3: ExtKey, b: Bip44Key)
    requires c.n > 0
  {
    && Derive(c, master, purpose) == Some(k1) && b.purpose == Some(purpose)
    && Derive(c, k1, coin) == Some(k2) && b.coin == Some(coin)
    && Derive(c, k2, account) == Some(k3) && b.account == Some(account)
    && Derive(c, k3, change) == Some(b.changeKey) && b.change == Some(change)
    && Derive(c, b.changeKey, b.index) == Some(b.indexKey)
    && b.fingerprint == Text.HexEncode(k1.parentFingerprint)
  }

  /** A created key is the one at its five levels, named as they were derived, and nothing else. */
  lemma CreatedKeyIff(c: Suite, master: ExtKey, purpose: uint32, coin: uint32, account: uint32, change: uint32,
                      index: uint32, b: Bip44Key)
    requires c.n > 0
    ensures CreateBip44Key(c, master, purpose, coin, account, change, index) == Some(b)
       <==> b.index == index && exists k1, k2, k3 :: Led(c, master, purpose, coin, account, change, k1, k2, k3, b)
  {
    FirstChild(c, master, purpose);
    hide Derive, Text.HexEncode, Fingerprint;
    if CreateBip44Key(c, master, purpose, coin, account, change, index) == Some(b) {
      var k1 := Derive(c, master, purpose).value;
      var k2 := Derive(c, k1, coin).value;
      assert Led(c, master, purpose, coin, account, change, k1, k2, Derive(c, k2, account).value, b);
    }
  }

  ghost predicate OnPath(c: Suite, master: ExtKey, k1: ExtKey, k2: ExtKey, k3: ExtKey, b: Bip44Key)
    requires c.n > 0
  {
    Led(c, master, 0x8000_002C, 0x8000_0000, 0x8000_0000, 0, k1, k2, k3, b)
  }

  /** A wallet's key is the one at 44'/0'/0'/0 and the start index, without its hardened bit, and nothing else. */
  lemma WalletKeyIff(c: Suite, master: ExtKey, startIndex: uint32, b: Bip44Key)
    requires c.n > 0
    ensures GetBip44Key(c, master, startIndex) == Some(b)
       <==> b.index as int == startIndex % 0x8000_0000 && exists k1, k2, k3 :: OnPath(c, master, k1, k2, k3, b)
  {
    Levels(startIndex);
    hide CreateBip44Key, Led, Path, PathHardened;
    CreatedKeyIff(c, master, 0x8000_002C, 0x8000_0000, 0x8000_0000, 0, Path(startIndex), b);
    if k1, k2, k3 :| Led(c, master, 0x8000_002C, 0x8000_0000, 0x8000_0000, 0, k1, k2, k3, b) {
      assert OnPath(c, master, k1, k2, k3, b);
    }
  }

  lemma FirstChild(c: Suite, master: ExtKey, i: uint32)
    requires c.n > 0
    ensures Derive(c, master, i).Some? ==> Derive(c, master, i).value.parentFingerprint == Fingerprint(c, master)
  {
    hide Fingerprint, ChildData, ChildKey;
  }

  lemma Levels(startIndex: uint32)
    ensures PathHardened(44) == 0x8000_002C && PathHardened(0) == 0x8000_0000 && Path(0) == 0
    ensures Path(startIndex) as int == startIndex % 0x8000_0000
  {
  }

  // ----- siblings -----

  /** The machine addition of the source: 32-bit wrap-around. */
  function Add32(a: uint32, b: nat): uint32 {
    (a + b) % 0x1_0000_0000
  }

  function NextIndex(index: uint32): uint32 {
    if IsHardened(index) then PathHardened(Add32(index, 1)) else Path(Add32(index, 1))
  }

  /** Absent levels cannot be copied; the source dereferences them. */
  function DeriveNextSibling(c: Suite, b: Bip44Key): Option<Bip44Key>
    requires c.n > 0
  {
    if !b.HasLevels() then None
    else
      var sibling :- Derive(c, b.changeKey, NextIndex(b.index));
      Some(b.(indexKey := sibling, index := NextIndex(b.index)))
  }

  /** `n` siblings further. */
  function Walk(c: Suite, b: Bip44Key, n: nat): Option<Bip44Key>
    requires c.n > 0
  {
    if n == 0 then Some(b)
    else
      var previous :- Walk(c, b, n - 1);
      DeriveNextSibling(c, previous)
  }

  /** The index reached: hardenedness kept, the rest added modulo 2^31. */
  function IndexAfter(index: uint32, n: nat): uint32 {
    (if IsHardened(index) then HARDENED_KEY_START else 0) + (GetPath(index) + n) % 0x8000_0000
  }

  lemma IndexStep(index: uint32, n: nat)
    ensures NextIndex(IndexAfter(index, n)) == IndexAfter(index, n + 1)
  {
    var a := GetPath(index) + n;
    assert (a + 1) % 0x8000_0000 == if a % 0x8000_0000 == 0x7FFF_FFFF then 0 else a % 0x8000_0000 + 1;
  }

  lemma IndexAfterNone(index: uint32)
    ensures IndexAfter(index, 0) == index
  {
  }

  /** The key with its index replaced, derived straight from the change key. */
  function At(c: Suite, b: Bip44Key, index: uint32): Option<Bip44Key>
    requires c.n > 0
  {
    var key :- Derive(c, b.changeKey, index);
    Some(b.(indexKey := key, index := index))
  }

  /** All indexes from the one after the start up to `n` further can be derived. */
  ghost predicate Derivable(c: Suite, b: Bip44Key, n: nat)
    requires c.n > 0
  {
    forall m :: 1 <= m <= n ==> Derive(c, b.changeKey, IndexAfter(b.index, m)).Some?
  }

  /**
   Walking `n` siblings succeeds exactly when every index on the way can be derived, and
   then lands on the key at the index `n` further, modulo 2^31, hardenedness kept.
   */
  lemma {:induction false} WalkLandsAt(c: Suite, b: Bip44Key, n: nat)
    requires c.n > 0 && b.HasLevels()
    ensures Walk(c, b, n).Some? <==> Derivable(c, b, n)
    ensures Walk(c, b, n).Some? ==>
      Walk(c, b, n) == if n == 0 then Some(b) else At(c, b, IndexAfter(b.index, n))
  {
    hide Derive;
    if n > 0 {
      WalkLandsAt(c, b, n - 1);
      IndexAfterNone(b.index);
      IndexStep(b.index, n - 1);
      hide IndexAfter, NextIndex;
      if Derivable(c, b, n) {
        assert Derivable(c, b, n - 1);
      }
    }
  }

  /** The index after `n` steps of the source's 32-bit addition. */
  function NextTimes(index: uint32, n: nat): uint32 {
    if n == 0 then index else NextIndex(NextTimes(index, n - 1))
  }

  lemma {:induction false} NextTimesIs(index: uint32, n: nat)
    ensures NextTimes(index, n) == IndexAfter(index, n)
  {
    if n == 0 {
      IndexAfterNone(index);
    } else {
      NextTimesIs(index, n - 1);
      hide NextIndex, IndexAfter;
      IndexStep(index, n - 1);
    }
  }

  /** Any number of steps keep hardenedness and add up modulo 2^31, 32-bit wrap-around included. */
  lemma IndexAfterFacts(index: uint32, m: nat, n: nat)
    ensures NextTimes(index, n) == IndexAfter(index, n)
    ensures IsHardened(NextTimes(index, n)) == IsHardened(index)
    ensures GetPath(NextTimes(index, n)) == (GetPath(index) + n) % 0x8000_0000
    ensures NextTimes(NextTimes(index, m), n) == NextTimes(index, m + n)
  {
    hide *;
    NextTimesIs(index, n);
    NextTimesIs(index, m);
    NextTimesIs(index, m + n);
    NextTimesIs(IndexAfter(index, m), n);
    ClosedForm(index, m, n);
  }

  lemma ClosedForm(index: uint32, m: nat, n: nat)
    ensures IsHardened(IndexAfter(index, n)) == IsHardened(index)
    ensures GetPath(IndexAfter(index, n)) == (GetPath(index) + n) % 0x8000_0000
    ensures IndexAfter(IndexAfter(index, m), n) == IndexAfter(index, m + n)
  {
    AddMod(GetPath(index) + m, n);
  }

  lemma AddMod(a: nat, n: nat)
    ensures (a % 0x8000_0000 + n) % 0x8000_0000 == (a + n) % 0x8000_0000
  {
  }
}
