/** Finding the keys of the coins to spend (leafy.go, `findSigningKeys` and `findSigningRecoveryKeys`). */
module KeySearch {
  import opened Prelude
  import opened Chain
  import opened Crypto
  import opened Bip32
  import opened Bip44
  import opened Wallet

  // ----- the uint8 batches -----

  const BATCHES: nat := 10

  /** 8-bit wrap-around. */
  function U8(x: nat): byte {
    x % 0x100
  }

  function BatchStart(i: nat): byte {
    U8(i * 100)
  }

  /** The loop bound is added in eight bits too. */
  function BatchEnd(i: nat): byte {
    U8(BatchStart(i) + 100)
  }

  function BatchSize(i: nat): nat {
    if BatchStart(i) < BatchEnd(i) then BatchEnd(i) - BatchStart(i) else 0
  }

  /** How many indexes the first `batches` batches visit. */
  function Covered(batches: nat): nat {
    if batches == 0 then 0 else Covered(batches - 1) + BatchSize(batches - 1)
  }

  lemma CoveredNext(i: nat)
    ensures Covered(i + 1)
         == Covered(i) + if BatchStart(i) < BatchEnd(i) then BatchEnd(i) - BatchStart(i) else 0
  {
  }

  /** Batches 2, 5 and 7 wrap to nothing; ten batches visit 700 indexes, not 1000. */
  lemma BatchesCover()
    ensures BatchSize(2) == BatchSize(5) == BatchSize(7) == 0
    ensures forall i :: 0 <= i < BATCHES && i != 2 && i != 5 && i != 7 ==> BatchSize(i) == 100
    ensures Covered(BATCHES) == 700
  {
    BatchSizes();
    hide BatchSize;
    assert Covered(2) == 200;
    assert Covered(4) == 300;
    assert Covered(6) == 400;
    assert Covered(8) == 500;
  }

  lemma BatchSizes()
    ensures BatchSize(0) == BatchSize(1) == BatchSize(3) == BatchSize(4) == 100
    ensures BatchSize(6) == BatchSize(8) == BatchSize(9) == 100
    ensures BatchSize(2) == BatchSize(5) == BatchSize(7) == 0
  {
  }

  lemma {:induction false} CoveredGrows(a: nat, b: nat)
    requires a <= b
    ensures Covered(a) <= Covered(b)
  {
    if a < b {
      CoveredGrows(a, b - 1);
    }
  }

  // ----- the specification -----

  /** What the search remembers after `n` indexes; a later entry replaces an equal address. */
  ghost function MappingOf(c: Suite, route: Route, first: Bip44Key, second: Bip44Key, n: nat): map<string, Signer>
    requires c.n > 0
  {
    if n == 0 then map[]
    else
      match EntryAt(c, route, first, second, n - 1)
      case None => MappingOf(c, route, first, second, n - 1)
      case Some(entry) => MappingOf(c, route, first, second, n - 1)[entry.0 := entry.1]
  }

  ghost predicate AllIn(needed: map<OutPoint, string>, mapping: map<string, Signer>) {
    forall o :: o in needed ==> needed[o] in mapping
  }

  /** The search from batch `b` on: it stops at the first batch after which nothing is missing. */
  ghost function Search(c: Suite, route: Route, first: Bip44Key, second: Bip44Key,
                           needed: map<OutPoint, string>, b: nat): Option<map<string, Signer>>
    requires c.n > 0 && b <= BATCHES
    decreases BATCHES - b
  {
    if b == BATCHES || !Reaches(c, route, first, second, Covered(b + 1)) then None
    else
      var mapping := MappingOf(c, route, first, second, Covered(b + 1));
      if AllIn(needed, mapping) then Some(mapping) else Search(c, route, first, second, needed, b + 1)
  }

  // ----- the loops -----

  /** The lookup loop, in whatever order the map is iterated. */
  method AllMapped(needed: map<OutPoint, string>, mapping: map<string, Signer>) returns (all: bool)
    ensures all <==> AllIn(needed, mapping)
  {
    var left := needed.Keys;
    while left != {}
      invariant left <= needed.Keys
      invariant forall o :: o in needed && o !in left ==> needed[o] in mapping
      decreases |left|
    {
      var o :| o in left;
      if needed[o] !in mapping {
        return false;
      }
      left := left - {o};
    }
    return true;
  }

  /** The search after `n` indexes: where both keys stand, and what is remembered. */
  ghost predicate Visited(c: Suite, route: Route, first: Bip44Key, second: Bip44Key, n: nat,
                             f: Bip44Key, s: Bip44Key, mapping: map<string, Signer>)
    requires c.n > 0
  {
    && Reaches(c, route, first, second, n)
    && Walk(c, first, n) == Some(f) && Walk(c, second, n) == Some(s)
    && mapping == MappingOf(c, route, first, second, n)
  }

  lemma VisitNone(c: Suite, route: Route, first: Bip44Key, second: Bip44Key)
    requires c.n > 0
    ensures Visited(c, route, first, second, 0, first, second, map[])
  {
  }

  lemma VisitNext(c: Suite, route: Route, first: Bip44Key, second: Bip44Key, n: nat,
                     f: Bip44Key, s: Bip44Key, mapping: map<string, Signer>)
    requires c.n > 0 && Visited(c, route, first, second, n, f, s, mapping)
    ensures Reaches(c, route, first, second, n + 1)
      == (Make(c, route, f, s).Some? && DeriveNextSibling(c, f).Some? && DeriveNextSibling(c, s).Some?)
    ensures Reaches(c, route, first, second, n + 1) ==>
      Visited(c, route, first, second, n + 1, DeriveNextSibling(c, f).value, DeriveNextSibling(c, s).value,
              mapping[Make(c, route, f, s).value.0 := Make(c, route, f, s).value.1])
  {
    Step(c, route, first, second, n, f, s);
    hide Reaches, Walk, EntryAt, DeriveNextSibling, Make;
  }

  /** One batch: the keys move on by one sibling per index. */
  method VisitBatch(c: Suite, route: Route, ghost first: Bip44Key, ghost second: Bip44Key, i: nat,
                       firstKey: Bip44Key, secondKey: Bip44Key, mapping: map<string, Signer>)
    returns (r: Option<(Bip44Key, Bip44Key, map<string, Signer>)>)
    requires c.n > 0 && Visited(c, route, first, second, Covered(i), firstKey, secondKey, mapping)
    ensures r.Some? <==> Reaches(c, route, first, second, Covered(i + 1))
    ensures r.Some? ==>
      Visited(c, route, first, second, Covered(i + 1), r.value.0, r.value.1, r.value.2)
  {
    hide *;
    var f, s, m := firstKey, secondKey, mapping;
    var j, end := BatchStart(i), BatchEnd(i);
    ghost var n := Covered(i);
    ghost var target := Covered(i + 1);
    CoveredNext(i);
    VisitedReaches(c, route, first, second, n, f, s, m);
    while j < end
      invariant n <= target && target == n + if j < end then end - j else 0
      invariant Visited(c, route, first, second, n, f, s, m) && Reaches(c, route, first, second, n)
      decreases target - n
    {
      VisitNext(c, route, first, second, n, f, s, m);
      ReachesFewer(c, route, first, second, n + 1, target);
      var entry := Make(c, route, f, s);
      if entry.None? {
        return None;
      }
      m := m[entry.value.0 := entry.value.1];
      var nextSecond := DeriveNextSibling(c, s);
      if nextSecond.None? {
        return None;
      }
      var nextFirst := DeriveNextSibling(c, f);
      if nextFirst.None? {
        return None;
      }
      f, s := nextFirst.value, nextSecond.value;
      n := n + 1;
      NoWrap(j, end);
      j := U8(j + 1);
    }
    r := Some((f, s, m));
  }

  lemma VisitedReaches(c: Suite, route: Route, first: Bip44Key, second: Bip44Key, n: nat,
                          f: Bip44Key, s: Bip44Key, mapping: map<string, Signer>)
    requires c.n > 0 && Visited(c, route, first, second, n, f, s, mapping)
    ensures Reaches(c, route, first, second, n) && mapping == MappingOf(c, route, first, second, n)
  {
  }

  lemma NoWrap(j: byte, end: byte)
    requires j < end
    ensures U8(j + 1) == j + 1
  {
  }

  lemma SearchStep(c: Suite, route: Route, first: Bip44Key, second: Bip44Key,
                      needed: map<OutPoint, string>, b: nat)
    requires c.n > 0 && b < BATCHES
    ensures Search(c, route, first, second, needed, b)
      == if !Reaches(c, route, first, second, Covered(b + 1)) then None
         else if AllIn(needed, MappingOf(c, route, first, second, Covered(b + 1)))
         then Some(MappingOf(c, route, first, second, Covered(b + 1)))
         else Search(c, route, first, second, needed, b + 1)
  {
  }

  lemma SearchEnds(c: Suite, route: Route, first: Bip44Key, second: Bip44Key, needed: map<OutPoint, string>)
    requires c.n > 0
    ensures Search(c, route, first, second, needed, BATCHES).None? && Covered(0) == 0
  {
  }

  /** The search shared by both key finders. */
  method FindKeys(c: Suite, route: Route, first: Bip44Key, second: Bip44Key, needed: map<OutPoint, string>)
    returns (r: Option<map<string, Signer>>)
    requires c.n > 0
    ensures r == Search(c, route, first, second, needed, 0)
  {
    hide *;
    var firstKey, secondKey := first, second;
    var mapping: map<string, Signer> := map[];
    VisitNone(c, route, first, second);
    SearchEnds(c, route, first, second, needed);
    var i: nat := 0;
    while i < BATCHES
      invariant i <= BATCHES
      invariant Visited(c, route, first, second, Covered(i), firstKey, secondKey, mapping)
      invariant Search(c, route, first, second, needed, 0) == Search(c, route, first, second, needed, i)
    {
      SearchStep(c, route, first, second, needed, i);
      var visited := VisitBatch(c, route, first, second, i, firstKey, secondKey, mapping);
      if visited.None? {
        return None;
      }
      firstKey, secondKey, mapping := visited.value.0, visited.value.1, visited.value.2;
      VisitedReaches(c, route, first, second, Covered(i + 1), firstKey, secondKey, mapping);
      var allMapped := AllMapped(needed, mapping);
      if allMapped {
        return Some(mapping);
      }
      i := i + 1;
    }
    r := None;
  }

  /** The keys `findSigningKeys` starts from: both private. */
  function SearchKeys(c: Suite, first: ExtKey, second: ExtKey): Option<(Bip44Key, Bip44Key)>
    requires c.n > 0
  {
    var firstKey :- GetBip44Key(c, first, 0);
    var secondKey :- GetBip44Key(c, second, 0);
    Some((firstKey, secondKey))
  }

  method FindSigningKeys(c: Suite, timelock: uint32, first: ExtKey, second: ExtKey, needed: map<OutPoint, string>)
    returns (r: Option<map<string, Signer>>)
    requires c.n > 0
    ensures r == match SearchKeys(c, first, second)
                 case None => None
                 case Some(keys) => Search(c, KeyPath(timelock), keys.0, keys.1, needed, 0)
  {
    var keys := SearchKeys(c, first, second);
    if keys.None? {
      return None;
    }
    r := FindKeys(c, KeyPath(timelock), keys.value.0, keys.value.1, needed);
  }

  method FindSigningRecoveryKeys(c: Suite, timelock: uint32, w: Wallet, needed: map<OutPoint, string>)
    returns (r: Option<map<string, Signer>>)
    requires c.n > 0
    ensures r == match StartKeys(c, w, 0)
                 case None => None
                 case Some(keys) => Search(c, ScriptPath(timelock), keys.0, keys.1, needed, 0)
  {
    var keys := StartKeys(c, w, 0);
    if keys.None? {
      return None;
    }
    r := FindKeys(c, ScriptPath(timelock), keys.value.0, keys.value.1, needed);
  }

  // ----- what the search finds -----

  /** Some index below `n` has this address. */
  ghost predicate AddressBelow(c: Suite, route: Route, first: Bip44Key, second: Bip44Key, n: nat, address: string)
    requires c.n > 0
  {
    exists i :: 0 <= i < n && NamedAt(c, route, first, second, i, address)
  }

  ghost predicate NamedAt(c: Suite, route: Route, first: Bip44Key, second: Bip44Key, i: nat, address: string)
    requires c.n > 0
  {
    var entry := EntryAt(c, route, first, second, i);
    entry.Some? && entry.value.0 == address
  }

  /**
   The mapping knows exactly the addresses of the first `n` indexes, without gaps, and
   each key is that of an index with that very address.
   */
  lemma {:induction false} MappingIsPrefix(c: Suite, route: Route, first: Bip44Key, second: Bip44Key,
                                           n: nat, address: string)
    requires c.n > 0 && Reaches(c, route, first, second, n)
    ensures
      var mapping := MappingOf(c, route, first, second, n);
      && (address in mapping <==> AddressBelow(c, route, first, second, n, address))
      && (address in mapping ==>
            exists i :: 0 <= i < n && EntryAt(c, route, first, second, i) == Some((address, mapping[address])))
  {
    hide Walk, DeriveNextSibling, Make;
    if n > 0 {
      ReachesFewer(c, route, first, second, n - 1, n);
      MappingIsPrefix(c, route, first, second, n - 1, address);
      var entry := EntryAt(c, route, first, second, n - 1).value;
      hide Reaches, EntryAt;
      var mapping := MappingOf(c, route, first, second, n);
      if entry.0 == address {
        assert NamedAt(c, route, first, second, n - 1, address);
        assert EntryAt(c, route, first, second, n - 1) == Some((address, mapping[address]));
      } else {
        assert address in mapping <==> address in MappingOf(c, route, first, second, n - 1);
        if AddressBelow(c, route, first, second, n, address) {
          var i :| 0 <= i < n && NamedAt(c, route, first, second, i, address);
          assert i < n - 1;
        }
      }
    }
  }

  ghost predicate AllBelow(c: Suite, route: Route, first: Bip44Key, second: Bip44Key,
                              needed: map<OutPoint, string>, n: nat)
    requires c.n > 0
  {
    forall o :: o in needed ==> AddressBelow(c, route, first, second, n, needed[o])
  }

  lemma AllInIff(c: Suite, route: Route, first: Bip44Key, second: Bip44Key, needed: map<OutPoint, string>, n: nat)
    requires c.n > 0 && Reaches(c, route, first, second, n)
    ensures AllIn(needed, MappingOf(c, route, first, second, n)) <==> AllBelow(c, route, first, second, needed, n)
  {
    hide Reaches, MappingOf, AddressBelow;
    forall o | o in needed
      ensures (needed[o] in MappingOf(c, route, first, second, n))
           == AddressBelow(c, route, first, second, n, needed[o])
    {
      MappingIsPrefix(c, route, first, second, n, needed[o]);
    }
  }

  /** A prefix of indexes the search could stop at. */
  ghost predicate StopsAt(c: Suite, route: Route, first: Bip44Key, second: Bip44Key,
                             needed: map<OutPoint, string>, b: nat)
    requires c.n > 0
  {
    && b < BATCHES
    && Reaches(c, route, first, second, Covered(b + 1))
    && AllBelow(c, route, first, second, needed, Covered(b + 1))
  }

  ghost predicate StopsFrom(c: Suite, route: Route, first: Bip44Key, second: Bip44Key,
                               needed: map<OutPoint, string>, b: nat)
    requires c.n > 0
  {
    exists k :: b <= k && StopsAt(c, route, first, second, needed, k)
  }

  /** Whatever the keys, success means that some batch boundary was reached with every address below it. */
  lemma {:induction false} SearchIff(c: Suite, route: Route, first: Bip44Key, second: Bip44Key,
                                        needed: map<OutPoint, string>, b: nat)
    requires c.n > 0 && b <= BATCHES
    ensures Search(c, route, first, second, needed, b).Some? == StopsFrom(c, route, first, second, needed, b)
    ensures Search(c, route, first, second, needed, b).Some? ==>
      exists k :: b <= k && StopsAt(c, route, first, second, needed, k)
        && Search(c, route, first, second, needed, b) == Some(MappingOf(c, route, first, second, Covered(k + 1)))
    decreases BATCHES - b
  {
    hide Reaches, MappingOf, AllIn, AllBelow, BatchSize, Covered;
    if b < BATCHES {
      if Reaches(c, route, first, second, Covered(b + 1)) {
        AllInIff(c, route, first, second, needed, Covered(b + 1));
        SearchIff(c, route, first, second, needed, b + 1);
        assert StopsAt(c, route, first, second, needed, b)
          == AllIn(needed, MappingOf(c, route, first, second, Covered(b + 1)));
      } else {
        forall k | b <= k
          ensures !StopsAt(c, route, first, second, needed, k)
        {
          CoveredGrows(b + 1, k + 1);
          ReachesFewer(c, route, first, second, Covered(b + 1), Covered(k + 1));
        }
      }
    }
  }

  /**
   When the first 700 keys can be derived, the search succeeds exactly when every needed
   address is among the first 700, although the source means to look at 1000.
   */
  lemma FoundIffBelow700(c: Suite, route: Route, first: Bip44Key, second: Bip44Key, needed: map<OutPoint, string>)
    requires c.n > 0 && Reaches(c, route, first, second, 700)
    ensures Search(c, route, first, second, needed, 0).Some? <==> AllBelow(c, route, first, second, needed, 700)
  {
    hide Reaches, Search, Covered, BatchSize, AllBelow;
    BatchesCover();
    SearchIff(c, route, first, second, needed, 0);
    if AllBelow(c, route, first, second, needed, 700) {
      assert StopsAt(c, route, first, second, needed, BATCHES - 1);
    }
    if StopsFrom(c, route, first, second, needed, 0) {
      var k :| 0 <= k && StopsAt(c, route, first, second, needed, k);
      CoveredGrows(k + 1, BATCHES);
      BelowMore(c, route, first, second, needed, Covered(k + 1), 700);
    }
  }

  /** A needed address that first appears at index 700 or later is not found. */
  lemma LateAddressNotFound(c: Suite, route: Route, first: Bip44Key, second: Bip44Key, needed: map<OutPoint, string>,
                            o: OutPoint, late: nat)
    requires c.n > 0 && Reaches(c, route, first, second, 700) && o in needed && late >= 700
    requires NamedAt(c, route, first, second, late, needed[o])
    requires forall i :: 0 <= i < late ==> !NamedAt(c, route, first, second, i, needed[o])
    ensures Search(c, route, first, second, needed, 0).None?
  {
    hide Reaches, Search, NamedAt;
    FoundIffBelow700(c, route, first, second, needed);
    assert !AddressBelow(c, route, first, second, 700, needed[o]);
  }

  lemma BelowMore(c: Suite, route: Route, first: Bip44Key, second: Bip44Key, needed: map<OutPoint, string>,
                  m: nat, n: nat)
    requires c.n > 0 && m <= n && AllBelow(c, route, first, second, needed, m)
    ensures AllBelow(c, route, first, second, needed, n)
  {
    forall o | o in needed
      ensures AddressBelow(c, route, first, second, n, needed[o])
    {
      var i :| 0 <= i < m && NamedAt(c, route, first, second, i, needed[o]);
    }
  }
}
