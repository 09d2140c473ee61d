/** Fee bumping: choosing the coins of a replacement transaction (transaction.dart, BIP 125). */
module Replacement {
  import opened Prelude
  import opened Chain
  import opened Ledger
  import opened CoinSelection
  import opened CoinOutcome
  import opened CoinTheorems
  import Text

  // ----- coins of transactions (util/transaction.dart) -----

  function Reverse(b: Bytes): (r: Bytes)
    ensures |r| == |b| && forall i :: 0 <= i < |b| ==> r[i] == b[|b| - 1 - i]
  {
    seq(|b|, i requires 0 <= i < |b| => b[|b| - 1 - i])
  }

  /** `Outpoint.fromTxId`: the id's bytes in reverse; an id that is not hexadecimal throws. */
  function FromTxId(id: string, index: uint32): Option<OutPoint> {
    var hash :- Text.HexDecode(id);
    Some(OutPoint(Reverse(hash), index))
  }

  predicate Spendable(v: Vout) {
    v.unspent && v.toKnownAddress
  }

  function UtxosOf(id: string, vouts: seq<Vout>): Option<seq<Utxo>> {
    if vouts == [] then Some([])
    else
      var before :- UtxosOf(id, vouts[..|vouts| - 1]);
      var v := vouts[|vouts| - 1];
      if !Spendable(v) then Some(before)
      else
        var outpoint :- FromTxId(id, v.index);
        Some(before + [Utxo(v.scriptPubkeyAddress, outpoint, v.valueSat, v.scriptPubkey)])
  }

  function GetUtxos(transactions: seq<Transaction>): Option<seq<Utxo>> {
    if transactions == [] then Some([])
    else
      var before :- GetUtxos(transactions[..|transactions| - 1]);
      var tx := transactions[|transactions| - 1];
      var coins :- UtxosOf(tx.id, tx.vouts);
      Some(before + coins)
  }

  // ----- the list surgery -----

  /** Dart's `remove`: the first equal element, if any. */
  function RemoveFirst(list: seq<Transaction>, tx: Transaction): seq<Transaction> {
    if list == [] then []
    else if list[0].Same(tx) then list[1..]
    else [list[0]] + RemoveFirst(list[1..], tx)
  }

  function Parents(vins: seq<Vin>): (p: seq<Transaction>)
    ensures |p| == |vins|
  {
    seq(|vins|, i requires 0 <= i < |vins| => FromVin(vins[i]))
  }

  predicate Contains(list: seq<Transaction>, tx: Transaction) {
    exists i :: 0 <= i < |list| && list[i].Same(tx)
  }

  /** Dart's `removeWhere`, for membership in `existing`. */
  function RemoveAll(list: seq<Transaction>, existing: seq<Transaction>): seq<Transaction> {
    if list == [] then []
    else
      var before := RemoveAll(list[..|list| - 1], existing);
      if Contains(existing, list[|list| - 1]) then before else before + [list[|list| - 1]]
  }

  function Confirmed(list: seq<Transaction>): seq<Transaction> {
    if list == [] then []
    else
      var before := Confirmed(list[..|list| - 1]);
      if list[|list| - 1].status.confirmed then before + [list[|list| - 1]] else before
  }

  /** A transaction without inputs has no first parent; asking for it throws. */
  method GetTransactionsForBip125Replacement(transactions: seq<Transaction>, toReplace: Transaction)
    returns (r: Option<seq<Transaction>>)
    ensures r.Some? <==> toReplace.vins != []
    ensures r.Some? ==> r.value == Candidates(transactions, toReplace)
  {
    var existing := Parents(toReplace.vins);
    var copied: seq<Transaction> := [];
    copied := copied + transactions;
    copied := RemoveFirst(copied, toReplace);
    copied := RemoveAll(copied, existing);
    if existing == [] {
      return None;
    }
    copied := [existing[0]] + copied;
    copied := Confirmed(copied);
    ParentFirst(existing[0], RemoveAll(RemoveFirst(transactions, toReplace), existing));
    assert [] + transactions == transactions;
    r := Some(copied);
  }

  /** The first parent, then every confirmed transaction that is neither replaced nor a parent. */
  function Candidates(transactions: seq<Transaction>, toReplace: Transaction): seq<Transaction>
    requires toReplace.vins != []
  {
    [FromVin(toReplace.vins[0])]
    + Confirmed(RemoveAll(RemoveFirst(transactions, toReplace), Parents(toReplace.vins)))
  }

  lemma {:induction false} ParentFirst(parent: Transaction, list: seq<Transaction>)
    requires parent.status.confirmed
    ensures Confirmed([parent] + list) == [parent] + Confirmed(list)
  {
    if list == [] {
      assert [parent] + list == [parent] && [parent][..0] == [];
      assert Confirmed([parent]) == Confirmed([]) + [parent];
    } else {
      ParentFirst(parent, list[..|list| - 1]);
      assert ([parent] + list)[..|list|] == [parent] + list[..|list| - 1];
    }
  }

  // ----- what the surgery keeps -----

  ghost predicate DistinctIds(list: seq<Transaction>) {
    forall i, j :: 0 <= i < j < |list| ==> list[i].id != list[j].id
  }

  /** Ids are lower-case hexadecimal, and no two outputs of a transaction share an index. */
  ghost predicate WellFormed(tx: Transaction) {
    && Text.LowerHex(tx.id)
    && forall i, j :: 0 <= i < j < |tx.vouts| ==> tx.vouts[i].index != tx.vouts[j].index
  }

  ghost predicate AllWellFormed(list: seq<Transaction>) {
    forall i :: 0 <= i < |list| ==> WellFormed(list[i])
  }

  lemma {:induction false} RemoveFirstKeeps(list: seq<Transaction>, tx: Transaction)
    requires DistinctIds(list)
    ensures DistinctIds(RemoveFirst(list, tx))
    ensures forall t :: t in RemoveFirst(list, tx) <==> t in list && !t.Same(tx)
  {
    if list != [] {
      assert list == [list[0]] + list[1..];
      RemoveFirstKeeps(list[1..], tx);
      if list[0].Same(tx) {
        forall t | t in list[1..]
          ensures !t.Same(tx)
        {
          var i :| 0 <= i < |list[1..]| && list[1..][i] == t;
          assert list[i + 1] == t;
        }
      } else {
        var rest := RemoveFirst(list[1..], tx);
        forall i | 0 <= i < |rest|
          ensures rest[i].id != list[0].id
        {
          assert rest[i] in list[1..];
          var j :| 0 <= j < |list[1..]| && list[1..][j] == rest[i];
          assert list[j + 1] == rest[i];
        }
      }
    }
  }

  lemma {:induction false} RemoveAllKeeps(list: seq<Transaction>, existing: seq<Transaction>)
    requires DistinctIds(list)
    ensures DistinctIds(RemoveAll(list, existing))
    ensures forall t :: t in RemoveAll(list, existing) <==> t in list && !Contains(existing, t)
  {
    if list != [] {
      var init, last := list[..|list| - 1], list[|list| - 1];
      assert list == init + [last];
      RemoveAllKeeps(init, existing);
      LastDistinct(list, RemoveAll(init, existing));
    }
  }

  lemma {:induction false} ConfirmedKeeps(list: seq<Transaction>)
    requires DistinctIds(list)
    ensures DistinctIds(Confirmed(list))
    ensures forall t :: t in Confirmed(list) <==> t in list && t.status.confirmed
  {
    if list != [] {
      var init, last := list[..|list| - 1], list[|list| - 1];
      assert list == init + [last];
      ConfirmedKeeps(init);
      LastDistinct(list, Confirmed(init));
    }
  }

  lemma LastDistinct(list: seq<Transaction>, kept: seq<Transaction>)
    requires list != [] && DistinctIds(list) && DistinctIds(kept)
    requires forall t :: t in kept ==> t in list[..|list| - 1]
    ensures DistinctIds(kept + [list[|list| - 1]])
  {
    forall i | 0 <= i < |kept|
      ensures kept[i].id != list[|list| - 1].id
    {
      assert kept[i] in kept;
      var j :| 0 <= j < |list| - 1 && list[..|list| - 1][j] == kept[i];
      assert list[j] == kept[i];
    }
  }

  /** Every candidate but the first is a confirmed transaction of the ledger that is no parent and not replaced. */
  ghost predicate Other(transactions: seq<Transaction>, toReplace: Transaction, t: Transaction) {
    && t in transactions && t.status.confirmed && t.id != toReplace.id
    && forall i :: 0 <= i < |toReplace.vins| ==> toReplace.vins[i].txId != t.id
  }

  lemma ParentIds(toReplace: Transaction, t: Transaction)
    ensures Contains(Parents(toReplace.vins), t)
       <==> exists i :: 0 <= i < |toReplace.vins| && toReplace.vins[i].txId == t.id
  {
    var existing := Parents(toReplace.vins);
    if Contains(existing, t) {
      var i :| 0 <= i < |existing| && existing[i].Same(t);
      assert toReplace.vins[i].txId == t.id;
    }
    if i :| 0 <= i < |toReplace.vins| && toReplace.vins[i].txId == t.id {
      assert existing[i].Same(t);
    }
  }

  /** What the list surgery keeps behind the first parent. */
  lemma KeptAre(transactions: seq<Transaction>, toReplace: Transaction)
    requires DistinctIds(transactions)
    ensures var kept := Confirmed(RemoveAll(RemoveFirst(transactions, toReplace), Parents(toReplace.vins)));
      && DistinctIds(kept)
      && forall t :: t in kept <==> Other(transactions, toReplace, t)
  {
    hide Parents, RemoveFirst, RemoveAll, Confirmed, Contains, DistinctIds;
    var existing := Parents(toReplace.vins);
    var removed := RemoveFirst(transactions, toReplace);
    RemoveFirstKeeps(transactions, toReplace);
    RemoveAllKeeps(removed, existing);
    ConfirmedKeeps(RemoveAll(removed, existing));
    forall t
      ensures Contains(existing, t) <==> exists i :: 0 <= i < |toReplace.vins| && toReplace.vins[i].txId == t.id
    {
      ParentIds(toReplace, t);
    }
  }

  lemma CandidatesAre(transactions: seq<Transaction>, toReplace: Transaction)
    requires DistinctIds(transactions) && toReplace.vins != []
    ensures var list := Candidates(transactions, toReplace);
      && list[0] == FromVin(toReplace.vins[0])
      && list[0].id == toReplace.vins[0].txId && list[0].status == TransactionStatus(true, Some(-1))
      && |list[0].vouts| == 1
      && DistinctIds(list)
      && forall t :: t in list[1..] <==> Other(transactions, toReplace, t)
  {
    KeptAre(transactions, toReplace);
    var kept := Confirmed(RemoveAll(RemoveFirst(transactions, toReplace), Parents(toReplace.vins)));
    hide RemoveFirst, RemoveAll, Confirmed, Parents;
    assert Candidates(transactions, toReplace)[1..] == kept;
    forall j | 0 <= j < |kept|
      ensures kept[j].id != FromVin(toReplace.vins[0]).id
    {
      assert kept[j] in kept;
    }
  }

  // ----- the coins on offer -----

  lemma ReverseTwice(b: Bytes)
    ensures Reverse(Reverse(b)) == b
  {
  }

  /** The id is read back from an outpoint's bytes in reverse. */
  lemma IdOf(id: string, i: uint32)
    requires Text.LowerHex(id)
    ensures FromTxId(id, i).Some? && FromTxId(id, i).value.index == i
    ensures 2 * |FromTxId(id, i).value.hash| == |id|
    ensures Text.HexEncode(Reverse(FromTxId(id, i).value.hash)) == id
  {
    Text.HexReencode(id);
    ReverseTwice(Text.HexDecode(id).value);
    hide Text.HexDecode, Text.HexEncode, Reverse;
  }

  lemma ReverseIs(b: Bytes)
    ensures Reverse(b) == seq(|b|, k requires 0 <= k < |b| => b[|b| - 1 - k])
  {
  }

  lemma FromTxIdInjective(a: string, b: string, i: uint32, j: uint32)
    requires Text.LowerHex(a) && Text.LowerHex(b)
    ensures FromTxId(a, i).Some? && FromTxId(b, j).Some?
    ensures FromTxId(a, i) == FromTxId(b, j) ==> a == b && i == j
    ensures FromTxId(a, i).value.index == i
    ensures var hash := FromTxId(a, i).value.hash;
      && 2 * |hash| == |a|
      && Text.HexEncode(seq(|hash|, k requires 0 <= k < |hash| => hash[|hash| - 1 - k])) == a
  {
    hide *;
    IdOf(a, i);
    IdOf(b, j);
    ReverseIs(FromTxId(a, i).value.hash);
  }

  /** The coin is spendable output `j` of the transaction. */
  predicate CoinAt(coin: Utxo, tx: Transaction, j: nat) {
    && j < |tx.vouts| && Spendable(tx.vouts[j])
    && FromTxId(tx.id, tx.vouts[j].index) == Some(coin.outpoint)
    && coin == Utxo(tx.vouts[j].scriptPubkeyAddress, coin.outpoint, tx.vouts[j].valueSat, tx.vouts[j].scriptPubkey)
  }

  ghost predicate ComesFrom(coin: Utxo, tx: Transaction) {
    exists j :: CoinAt(coin, tx, j)
  }

  /** The coins of one transaction: its spendable outputs, each once. */
  lemma {:induction false} UtxosOfAre(tx: Transaction, n: nat)
    requires WellFormed(tx) && n <= |tx.vouts|
    ensures UtxosOf(tx.id, tx.vouts[..n]).Some?
    ensures var coins := UtxosOf(tx.id, tx.vouts[..n]).value;
      && DistinctOutpoints(coins)
      && (forall coin :: coin in coins ==> exists j: nat :: j < n && CoinAt(coin, tx, j))
      && (forall j :: 0 <= j < n && Spendable(tx.vouts[j]) ==> exists coin :: coin in coins && CoinAt(coin, tx, j))
  {
    if n > 0 {
      UtxosOfAre(tx, n - 1);
      var vouts, v := tx.vouts[..n], tx.vouts[n - 1];
      assert vouts[..|vouts| - 1] == tx.vouts[..n - 1];
      FromTxIdInjective(tx.id, tx.id, v.index, v.index);
      hide FromTxId, DistinctOutpoints;
      var before := UtxosOf(tx.id, tx.vouts[..n - 1]).value;
      var coins := UtxosOf(tx.id, vouts).value;
      if Spendable(v) {
        var coin := Utxo(v.scriptPubkeyAddress, FromTxId(tx.id, v.index).value, v.valueSat, v.scriptPubkey);
        assert coins == before + [coin] && CoinAt(coin, tx, n - 1);
        forall other | other in before
          ensures other.outpoint != coin.outpoint
        {
          var j: nat :| j < n - 1 && CoinAt(other, tx, j);
          FromTxIdInjective(tx.id, tx.id, tx.vouts[j].index, v.index);
        }
        AppendDistinct(before, [coin]);
        forall j | 0 <= j < n && Spendable(tx.vouts[j])
          ensures exists k :: k in coins && CoinAt(k, tx, j)
        {
          if j < n - 1 {
            var k :| k in before && CoinAt(k, tx, j);
            assert k in coins;
          }
        }
      }
    } else {
      assert tx.vouts[..0] == [];
    }
  }

  lemma AppendDistinct(a: seq<Utxo>, b: seq<Utxo>)
    requires DistinctOutpoints(a)
    requires |b| <= 1 || DistinctOutpoints(b)
    requires forall x, y :: x in a && y in b ==> x.outpoint != y.outpoint
    ensures DistinctOutpoints(a + b)
  {
    var s := a + b;
    forall i, j | 0 <= i < j < |s|
      ensures s[i].outpoint != s[j].outpoint
    {
      if i < |a| && j >= |a| {
        assert s[i] in a && s[j] == b[j - |a|] && s[j] in b;
      }
    }
  }

  /** Every coin is a spendable output of a listed transaction. */
  ghost predicate AllListed(coins: seq<Utxo>, list: seq<Transaction>) {
    forall coin :: coin in coins ==> exists t :: t in list && ComesFrom(coin, t)
  }

  ghost predicate Offered(coins: seq<Utxo>, t: Transaction, j: nat) {
    exists coin :: coin in coins && CoinAt(coin, t, j)
  }

  /** Every spendable output of a listed transaction is among the coins. */
  ghost predicate AllOffered(coins: seq<Utxo>, list: seq<Transaction>) {
    forall t, j :: t in list && 0 <= j < |t.vouts| && Spendable(t.vouts[j]) ==> Offered(coins, t, j)
  }

  lemma ListedNext(before: seq<Utxo>, init: seq<Transaction>, added: seq<Utxo>, tx: Transaction)
    requires AllListed(before, init) && forall coin :: coin in added ==> ComesFrom(coin, tx)
    ensures AllListed(before + added, init + [tx])
  {
    hide ComesFrom;
    forall coin | coin in before + added
      ensures exists t :: t in init + [tx] && ComesFrom(coin, t)
    {
      if coin in before {
        var t :| t in init && ComesFrom(coin, t);
        assert t in init + [tx];
      } else {
        assert tx in init + [tx];
      }
    }
  }

  lemma OfferedNext(before: seq<Utxo>, init: seq<Transaction>, added: seq<Utxo>, tx: Transaction)
    requires AllOffered(before, init) && AllOffered(added, [tx])
    ensures AllOffered(before + added, init + [tx])
  {
    hide CoinAt, Spendable;
    forall t, j | t in init + [tx] && 0 <= j < |t.vouts| && Spendable(t.vouts[j])
      ensures Offered(before + added, t, j)
    {
      if t in init {
        assert Offered(before, t, j);
        var coin :| coin in before && CoinAt(coin, t, j);
        assert coin in before + added;
      } else {
        assert t in [tx];
        var coin :| coin in added && CoinAt(coin, t, j);
        assert coin in before + added;
      }
    }
  }

  lemma ApartNext(before: seq<Utxo>, init: seq<Transaction>, added: seq<Utxo>, tx: Transaction)
    requires AllListed(before, init) && forall coin :: coin in added ==> ComesFrom(coin, tx)
    requires AllWellFormed(init + [tx]) && DistinctIds(init + [tx])
    requires DistinctOutpoints(before) && DistinctOutpoints(added)
    ensures DistinctOutpoints(before + added)
  {
    hide CoinAt, DistinctOutpoints;
    var list := init + [tx];
    forall x, y | x in before && y in added
      ensures x.outpoint != y.outpoint
    {
      var t :| t in init && ComesFrom(x, t);
      var i :| CoinAt(x, t, i);
      var j :| CoinAt(y, tx, j);
      var at :| 0 <= at < |init| && init[at] == t;
      assert list[at] == t && list[|init|] == tx;
      assert WellFormed(list[at]) && WellFormed(list[|init|]);
      OutpointsApart(x, t, i, y, tx, j);
    }
    AppendDistinct(before, added);
  }

  /** The coins of one transaction, as the three properties of its list. */
  lemma OneTransaction(tx: Transaction)
    requires WellFormed(tx)
    ensures UtxosOf(tx.id, tx.vouts).Some?
    ensures var coins := UtxosOf(tx.id, tx.vouts).value;
      DistinctOutpoints(coins) && AllOffered(coins, [tx]) && forall coin :: coin in coins ==> ComesFrom(coin, tx)
  {
    UtxosOfAre(tx, |tx.vouts|);
    assert tx.vouts[..|tx.vouts|] == tx.vouts;
    hide UtxosOf, CoinAt, DistinctOutpoints, Spendable;
    var coins := UtxosOf(tx.id, tx.vouts).value;
    forall coin | coin in coins
      ensures ComesFrom(coin, tx)
    {
      var j: nat :| j < |tx.vouts| && CoinAt(coin, tx, j);
    }
    forall t, j | t in [tx] && 0 <= j < |t.vouts| && Spendable(t.vouts[j])
      ensures Offered(coins, t, j)
    {
      var coin :| coin in coins && CoinAt(coin, tx, j);
    }
  }

  /** The coins of a list: every spendable output of every transaction, no outpoint twice. */
  lemma {:induction false} GetUtxosAre(list: seq<Transaction>)
    requires AllWellFormed(list) && DistinctIds(list)
    ensures GetUtxos(list).Some?
    ensures var coins := GetUtxos(list).value;
      DistinctOutpoints(coins) && AllListed(coins, list) && AllOffered(coins, list)
  {
    if list != [] {
      var init, tx := list[..|list| - 1], list[|list| - 1];
      assert list == init + [tx];
      assert WellFormed(tx) && AllWellFormed(init) && DistinctIds(init);
      hide *;
      GetUtxosAre(init);
      OneTransaction(tx);
      GetUtxosNext(list);
      var before, added := GetUtxos(init).value, UtxosOf(tx.id, tx.vouts).value;
      ListedNext(before, init, added, tx);
      OfferedNext(before, init, added, tx);
      ApartNext(before, init, added, tx);
    }
  }

  lemma GetUtxosNext(list: seq<Transaction>)
    requires list != []
    requires GetUtxos(list[..|list| - 1]).Some? && UtxosOf(list[|list| - 1].id, list[|list| - 1].vouts).Some?
    ensures GetUtxos(list) == Some(GetUtxos(list[..|list| - 1]).value
                                   + UtxosOf(list[|list| - 1].id, list[|list| - 1].vouts).value)
  {
  }

  lemma OutpointsApart(x: Utxo, t: Transaction, i: nat, y: Utxo, u: Transaction, j: nat)
    requires Text.LowerHex(t.id) && Text.LowerHex(u.id) && t.id != u.id && CoinAt(x, t, i) && CoinAt(y, u, j)
    ensures x.outpoint != y.outpoint
  {
    FromTxIdInjective(t.id, u.id, t.vouts[i].index, u.vouts[j].index);
  }

  /** The first coin of a list that starts with a parent is the output its child spends. */
  lemma {:induction false} FirstCoin(vin: Vin, rest: seq<Transaction>)
    requires Text.LowerHex(vin.txId) && GetUtxos([FromVin(vin)] + rest).Some?
    ensures var coins := GetUtxos([FromVin(vin)] + rest).value;
      && coins != [] && FromTxId(vin.txId, vin.vout) == Some(coins[0].outpoint)
      && coins[0] == Utxo(vin.prevOut.scriptPubkeyAddress, coins[0].outpoint, vin.prevOut.valueSat,
                          vin.prevOut.scriptPubkey)
  {
    var parent := FromVin(vin);
    var list := [parent] + rest;
    if rest == [] {
      assert list == [parent] && list[..0] == [];
      assert parent.vouts[..0] == [];
      assert UtxosOf(parent.id, []) == Some([]);
    } else {
      assert list[..|list| - 1] == [parent] + rest[..|rest| - 1];
      hide UtxosOf;
      FirstCoin(vin, rest[..|rest| - 1]);
    }
  }

  // ----- the replacement -----

  ghost predicate WellFormedLedger(transactions: seq<Transaction>, toReplace: Transaction) {
    && DistinctIds(transactions) && AllWellFormed(transactions)
    && forall i :: 0 <= i < |toReplace.vins| ==> Text.LowerHex(toReplace.vins[i].txId)
  }

  /** The coin is a spendable output of a confirmed transaction that is no parent and not replaced. */
  ghost predicate FromOther(transactions: seq<Transaction>, toReplace: Transaction, coin: Utxo) {
    exists t :: Other(transactions, toReplace, t) && ComesFrom(coin, t)
  }

  /** The coins offered for the replacement: distinct outpoints, the original's first input in front. */
  lemma OfferedCoins(transactions: seq<Transaction>, toReplace: Transaction)
    requires WellFormedLedger(transactions, toReplace) && toReplace.vins != []
    ensures GetUtxos(Candidates(transactions, toReplace)).Some?
    ensures var coins := GetUtxos(Candidates(transactions, toReplace)).value;
      && coins != [] && DistinctOutpoints(coins)
      && Some(coins[0].outpoint) == FromTxId(toReplace.vins[0].txId, toReplace.vins[0].vout)
      && (var spent := toReplace.vins[0].prevOut;
          coins[0] == Utxo(spent.scriptPubkeyAddress, coins[0].outpoint, spent.valueSat, spent.scriptPubkey))
      && (forall i :: 1 <= i < |coins| ==> FromOther(transactions, toReplace, coins[i]))
      && (forall t, j :: Other(transactions, toReplace, t) && 0 <= j < |t.vouts| && Spendable(t.vouts[j])
            ==> Offered(coins, t, j))
  {
    var list := Candidates(transactions, toReplace);
    var parent := FromVin(toReplace.vins[0]);
    CandidatesAre(transactions, toReplace);
    assert list == [parent] + list[1..];
    hide Candidates, Contains;
    forall i | 0 <= i < |list|
      ensures WellFormed(list[i])
    {
      if i > 0 {
        assert list[i] == list[1..][i - 1] && list[i] in list[1..];
        assert Other(transactions, toReplace, list[i]);
      }
    }
    GetUtxosAre(list);
    FirstCoin(toReplace.vins[0], list[1..]);
    var coins := GetUtxos(list).value;
    hide GetUtxos, Other, WellFormed, ComesFrom, Spendable, Offered;
    forall i | 1 <= i < |coins|
      ensures FromOther(transactions, toReplace, coins[i])
    {
      assert coins[i] in coins;
      var t :| t in list && ComesFrom(coins[i], t);
      assert coins[0].outpoint != coins[i].outpoint;
      if t == parent {
        OnlyOneOutput(toReplace.vins[0], coins[0], coins[i]);
      }
      assert t in list[1..];
    }
    forall t, j | Other(transactions, toReplace, t) && 0 <= j < |t.vouts| && Spendable(t.vouts[j])
      ensures Offered(coins, t, j)
    {
      assert t in list[1..];
      assert t in list;
    }
  }

  lemma OnlyOneOutput(vin: Vin, a: Utxo, b: Utxo)
    requires FromTxId(vin.txId, vin.vout) == Some(a.outpoint) && ComesFrom(b, FromVin(vin))
    ensures a.outpoint == b.outpoint
  {
  }

  /** The input spends a coin other than the first. */
  ghost predicate LaterCoin(coins: seq<Utxo>, o: OutPoint) {
    exists k :: 1 <= k < |coins| && coins[k].outpoint == o
  }

  /** A non-negative amount and at least one coin: the first coin is the first input, and no other. */
  lemma FirstCoinIsFirstInput(q: Request, coins: seq<Utxo>)
    requires q.feeRate > 0.0 && q.amount >= 0 && coins != [] && q.Run(coins).Ok?
    ensures var ins := q.Run(coins).value.msgTx.txIn;
      && ins != [] && ins[0].previousOutPoint == coins[0].outpoint
      && forall i :: 1 <= i < |ins| ==> LaterCoin(coins, ins[i].previousOutPoint)
  {
    var p := q.Plan(coins);
    hide *;
    PlanOfRun(q, coins);
    CoverPositive(coins, q.amount, p);
    RunInputs(q, coins);
    PickedFrom(coins, p);
  }

  lemma PickedFrom(coins: seq<Utxo>, p: Plan)
    requires p.Fits(coins) && p.cover > 0
    ensures var picked := p.Picked(coins);
      && picked != [] && picked[0] == coins[0]
      && forall i :: 1 <= i < |picked| ==> LaterCoin(coins, picked[i].outpoint)
  {
    forall i | 1 <= i < |p.Picked(coins)|
      ensures LaterCoin(coins, p.Picked(coins)[i].outpoint)
    {
      var at := if i < p.cover + p.topUp then i else i - p.topUp;
      assert p.Picked(coins)[i] == coins[at];
    }
  }

  lemma CoverPositive(coins: seq<Utxo>, amount: int, p: Plan)
    requires PlanSums(coins, amount, p) && amount >= 0 && coins != []
    ensures p.cover > 0
  {
    assert coins[..0] == [];
  }

  predicate FirstInputKnown(q: Request, coins: seq<Utxo>)
    requires q.Run(coins).Ok? && q.Run(coins).value.msgTx.txIn != []
  {
    q.Run(coins).value.msgTx.txIn[0].previousOutPoint in q.Run(coins).value.outpointToAddr
  }

  /** With distinct outpoints, the first input is looked up under the first coin's address. */
  lemma FirstAddress(q: Request, coins: seq<Utxo>)
    requires q.feeRate > 0.0 && q.amount >= 0 && coins != [] && q.Run(coins).Ok? && DistinctOutpoints(coins)
    ensures q.Run(coins).value.msgTx.txIn != [] && FirstInputKnown(q, coins)
    ensures q.Run(coins).value.outpointToAddr[q.Run(coins).value.msgTx.txIn[0].previousOutPoint] == coins[0].fromAddress
  {
    hide *;
    FirstCoinIsFirstInput(q, coins);
    Outcome(q, coins);
    var info, p := q.Run(coins).value, q.Plan(coins);
    var d := Draft(info.msgTx.txIn, info.outpointToAddr, info.outpointToAmt, info.outpointToScript);
    var picked, o := p.Picked(coins), coins[0].outpoint;
    ShapedInputs(d, picked, p.cover + p.topUp);
    ShapedOutpoint(d, picked, p.cover + p.topUp, 0);
    ShapedRemembers(d, picked, p.cover + p.topUp, o);
    var i :| 0 <= i < |picked| && Holds(d, o, picked[i]);
    HeldAddress(d, o, picked[i]);
    PickedIsCoin(coins, p, i);
    var at :| 0 <= at < |coins| && picked[i] == coins[at];
    OnlyFirst(coins, at);
    InputIsKnown(q, coins);
  }

  lemma InputIsKnown(q: Request, coins: seq<Utxo>)
    requires q.Run(coins).Ok? && q.Run(coins).value.msgTx.txIn != []
    ensures FirstInputKnown(q, coins)
       <==> q.Run(coins).value.msgTx.txIn[0].previousOutPoint in q.Run(coins).value.outpointToAddr
  {
    hide Request.Run;
  }

  lemma HeldAddress(d: Draft, o: OutPoint, coin: Utxo)
    requires Holds(d, o, coin)
    ensures o == coin.outpoint && o in d.outpointToAddr && d.outpointToAddr[o] == coin.fromAddress
  {
    hide Utxo.DecodeScript;
  }

  lemma PickedIsCoin(coins: seq<Utxo>, p: Plan, i: nat)
    requires p.Fits(coins) && i < |p.Picked(coins)|
    ensures exists at :: 0 <= at < |coins| && p.Picked(coins)[i] == coins[at]
  {
    var at := if i < p.cover + p.topUp then i else i - p.topUp;
    assert p.Picked(coins)[i] == coins[at];
  }

  lemma OnlyFirst(coins: seq<Utxo>, at: nat)
    requires at < |coins| && DistinctOutpoints(coins) && coins[at].outpoint == coins[0].outpoint
    ensures at == 0
  {
  }

  /**
   The replacement conflicts with the original by spending its first input, once, and every
   other input spends an output of a confirmed transaction that is neither the original
   nor one of its parents, from candidates without a repeated outpoint.
   */
  lemma ReplacementConflicts(q: Request, transactions: seq<Transaction>, toReplace: Transaction, coins: seq<Utxo>)
    requires WellFormedLedger(transactions, toReplace) && toReplace.vins != []
    requires GetUtxos(Candidates(transactions, toReplace)) == Some(coins)
    requires q.feeRate > 0.0 && q.amount >= 0 && q.Run(coins).Ok?
    ensures DistinctOutpoints(coins)
    ensures q.Run(coins).value.msgTx.txIn != []
    ensures FirstInputKnown(q, coins)
    ensures var ins := q.Run(coins).value.msgTx.txIn;
      && ins != []
      && Some(ins[0].previousOutPoint) == FromTxId(toReplace.vins[0].txId, toReplace.vins[0].vout)
      && q.Run(coins).value.outpointToAddr[ins[0].previousOutPoint] == toReplace.vins[0].prevOut.scriptPubkeyAddress
      && (forall i :: 0 <= i < |ins| ==> ins[i].sequence < 0xFFFF_FFFE)
      && forall i :: 1 <= i < |ins| ==>
           && ins[i].previousOutPoint != ins[0].previousOutPoint
           && exists k :: 1 <= k < |coins| && coins[k].outpoint == ins[i].previousOutPoint
                       && FromOther(transactions, toReplace, coins[k])
  {
    hide *;
    OfferedCoins(transactions, toReplace);
    FirstCoinIsFirstInput(q, coins);
    RunSequences(q, coins);
    FirstAddress(q, coins);
    var ins := q.Run(coins).value.msgTx.txIn;
    forall i | 1 <= i < |ins|
      ensures ins[i].previousOutPoint != ins[0].previousOutPoint
      ensures exists k :: 1 <= k < |coins| && coins[k].outpoint == ins[i].previousOutPoint
                       && FromOther(transactions, toReplace, coins[k])
    {
      LaterIsApart(coins, ins[i].previousOutPoint);
      var k :| 1 <= k < |coins| && coins[k].outpoint == ins[i].previousOutPoint;
      assert FromOther(transactions, toReplace, coins[k]);
    }
  }

  lemma LaterIsApart(coins: seq<Utxo>, o: OutPoint)
    requires coins != [] && DistinctOutpoints(coins) && LaterCoin(coins, o)
    ensures coins[0].outpoint != o
    ensures exists k :: 1 <= k < |coins| && coins[k].outpoint == o
  {
  }
}
