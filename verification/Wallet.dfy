/** Wallets and the addresses they list (wallet.go, leafy.go `GetAddresses`). */
module Wallet {
  import opened Prelude
  import opened Crypto
  import opened Bip32
  import opened Bip44
  import opened Taproot
  import Descriptor

  /** Master keys stand for the mnemonics they come from. */
  datatype Wallet =
    | Full(first: ExtKey, second: ExtKey)
    | Recovery(first: ExtKey, secondDescriptor: string)

  /** leafy.go's `GetDescriptor` */
  function GetDescriptor(c: Suite, master: ExtKey): Option<string>
    requires c.n > 0
  {
    var key :- GetBip44Key(c, master, 0);
    Descriptor.ParentDescriptor(c, key, "")
  }

  function SecondDescriptor(c: Suite, w: Wallet): Option<string>
    requires c.n > 0
  {
    match w
    case Full(_, second) => GetDescriptor(c, second)
    case Recovery(_, descriptor) => Some(descriptor)
  }

  // ----- one index -----

  /** How to sign for an address: by its doubly tweaked key, or by the first key and the timelocked leaf. */
  datatype Signer =
    | KeySigner(tweakedPrivateKey: nat, merkleRoot: Bytes)
    | LeafSigner(privateKey: nat, tapscript: SigningData)

  /** Which of the two searches is meant, and the timelock of the leaf. */
  datatype Route = KeyPath(timelock: uint32) | ScriptPath(timelock: uint32)

  /** The address of a pair of keys and its key-path signer; both keys must be private. */
  function PrivateEntry(c: Suite, timelock: uint32, first: Bip44Key, second: Bip44Key): Option<(string, Signer)>
    requires c.n > 0
  {
    if first.indexKey.key.Public? || second.indexKey.key.Public? then None
    else
      var created :- CreateTweakedAddress(c, timelock, second.indexKey.key.d, first.indexKey.key.d);
      Some((created.0.address, KeySigner(created.1, created.0.MerkleRoot())))
  }

  /** The address of a pair of keys and its script-path signer; the second key may be public. */
  function PublicEntry(c: Suite, timelock: uint32, first: Bip44Key, second: Bip44Key): Option<(string, Signer)>
    requires c.n > 0
  {
    if first.indexKey.key.Public? then None
    else
      var d := first.indexKey.key.d;
      var created :- CreateTweakedAddressFromPublicKey(c, timelock, PublicPoint(c, second.indexKey), d);
      Some((created.address, LeafSigner(d, created.tapscript)))
  }

  function Make(c: Suite, route: Route, first: Bip44Key, second: Bip44Key): Option<(string, Signer)>
    requires c.n > 0
  {
    match route
    case KeyPath(timelock) => PrivateEntry(c, timelock, first, second)
    case ScriptPath(timelock) => PublicEntry(c, timelock, first, second)
  }

  // ----- walking two keys together -----

  /** The entry `i` siblings after the given keys. */
  function EntryAt(c: Suite, route: Route, first: Bip44Key, second: Bip44Key, i: nat): Option<(string, Signer)>
    requires c.n > 0
  {
    var f :- Walk(c, first, i);
    var s :- Walk(c, second, i);
    Make(c, route, f, s)
  }

  /** The first `n` entries exist, and so do the keys after the last of them. */
  ghost predicate Reaches(c: Suite, route: Route, first: Bip44Key, second: Bip44Key, n: nat)
    requires c.n > 0
  {
    && Walk(c, first, n).Some? && Walk(c, second, n).Some?
    && forall i :: 0 <= i < n ==> EntryAt(c, route, first, second, i).Some?
  }

  lemma {:induction false} WalkShorter(c: Suite, b: Bip44Key, m: nat, n: nat)
    requires c.n > 0 && m <= n && Walk(c, b, n).Some?
    ensures Walk(c, b, m).Some?
    decreases n
  {
    hide DeriveNextSibling;
    if m < n {
      WalkShorter(c, b, m, n - 1);
    }
  }

  /** One step of a walk over entries. */
  lemma Step(c: Suite, route: Route, first: Bip44Key, second: Bip44Key, n: nat, f: Bip44Key, s: Bip44Key)
    requires c.n > 0 && Reaches(c, route, first, second, n)
    requires Walk(c, first, n) == Some(f) && Walk(c, second, n) == Some(s)
    ensures EntryAt(c, route, first, second, n) == Make(c, route, f, s)
    ensures Walk(c, first, n + 1) == DeriveNextSibling(c, f) && Walk(c, second, n + 1) == DeriveNextSibling(c, s)
    ensures Reaches(c, route, first, second, n + 1)
      == (Make(c, route, f, s).Some? && DeriveNextSibling(c, f).Some? && DeriveNextSibling(c, s).Some?)
  {
    hide DeriveNextSibling, Make;
  }

  lemma ReachesFewer(c: Suite, route: Route, first: Bip44Key, second: Bip44Key, m: nat, n: nat)
    requires c.n > 0 && m <= n
    ensures Reaches(c, route, first, second, n) ==> Reaches(c, route, first, second, m)
  {
    if Reaches(c, route, first, second, n) {
      WalkShorter(c, first, m, n);
      WalkShorter(c, second, m, n);
    }
  }

  /** The names of the first `n` entries. */
  ghost function Listed(c: Suite, route: Route, first: Bip44Key, second: Bip44Key, n: nat): (r: seq<string>)
    requires c.n > 0 && Reaches(c, route, first, second, n)
    ensures |r| == n && forall i :: 0 <= i < n ==> r[i] == EntryAt(c, route, first, second, i).value.0
  {
    seq(n, i requires 0 <= i < n => EntryAt(c, route, first, second, i).value.0)
  }

  lemma ListedNext(c: Suite, route: Route, first: Bip44Key, second: Bip44Key, n: nat)
    requires c.n > 0 && Reaches(c, route, first, second, n) && Reaches(c, route, first, second, n + 1)
    ensures Listed(c, route, first, second, n + 1)
         == Listed(c, route, first, second, n) + [EntryAt(c, route, first, second, n).value.0]
  {
    hide EntryAt, Walk;
  }

  // ----- GetAddresses -----

  /** The keys a listing starts from. */
  function StartKeys(c: Suite, w: Wallet, startIndex: uint32): Option<(Bip44Key, Bip44Key)>
    requires c.n > 0
  {
    var firstKey :- GetBip44Key(c, w.first, startIndex);
    var descriptor :- SecondDescriptor(c, w);
    var secondKey :- Descriptor.Import(c, descriptor, Path(startIndex));
    Some((firstKey, secondKey))
  }

  ghost function AddressesFrom(c: Suite, timelock: uint32, first: Bip44Key, second: Bip44Key, num: nat)
    : Option<seq<string>>
    requires c.n > 0
  {
    var route := ScriptPath(timelock);
    if Reaches(c, route, first, second, num)
    then Some(Listed(c, route, first, second, num))
    else None
  }

  /** The listing of `num` addresses: all of them, or nothing. */
  ghost function AddressList(c: Suite, timelock: uint32, w: Wallet, startIndex: uint32, num: byte)
    : (r: Option<seq<string>>)
    requires c.n > 0
    ensures r.Some? ==> num > 0 && |r.value| == num
  {
    if num < 1 then None
    else match StartKeys(c, w, startIndex)
      case None => None
      case Some(keys) => AddressesFrom(c, timelock, keys.0, keys.1, num)
  }

  /** The loop of `GetAddresses`. */
  method ListFrom(c: Suite, timelock: uint32, first: Bip44Key, second: Bip44Key, num: byte)
    returns (r: Option<seq<string>>)
    requires c.n > 0
    ensures r == AddressesFrom(c, timelock, first, second, num)
  {
    ghost var route := ScriptPath(timelock);
    var firstKey, secondKey := first, second;
    var addresses: seq<string> := [];
    var i: byte := 0;
    assert Reaches(c, route, first, second, 0) && Listed(c, route, first, second, 0) == [];
    assert Walk(c, first, 0) == Some(first) && Walk(c, second, 0) == Some(second);
    hide PublicEntry, DeriveNextSibling, Reaches, Walk, EntryAt;
    while i < num
      invariant i <= num
      invariant Reaches(c, route, first, second, i) && addresses == Listed(c, route, first, second, i)
      invariant Walk(c, first, i) == Some(firstKey) && Walk(c, second, i) == Some(secondKey)
    {
      Step(c, route, first, second, i, firstKey, secondKey);
      ReachesFewer(c, route, first, second, i + 1, num);
      var entry := PublicEntry(c, timelock, firstKey, secondKey);
      assert Make(c, route, firstKey, secondKey) == entry;
      if entry.None? {
        return None;
      }
      addresses := addresses + [entry.value.0];
      var nextFirst := DeriveNextSibling(c, firstKey);
      if nextFirst.None? {
        return None;
      }
      var nextSecond := DeriveNextSibling(c, secondKey);
      if nextSecond.None? {
        return None;
      }
      ListedNext(c, route, first, second, i);
      firstKey, secondKey := nextFirst.value, nextSecond.value;
      i := i + 1;
    }
    r := Some(addresses);
  }

  method GetAddresses(c: Suite, timelock: uint32, w: Wallet, startIndex: uint32, num: byte)
    returns (r: Option<seq<string>>)
    requires c.n > 0
    ensures r == AddressList(c, timelock, w, startIndex, num)
  {
    if num < 1 {
      return None;
    }
    var keys := StartKeys(c, w, startIndex);
    if keys.None? {
      return None;
    }
    r := ListFrom(c, timelock, keys.value.0, keys.value.1, num);
  }
}
