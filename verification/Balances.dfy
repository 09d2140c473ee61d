/** From the network's answers to spendable coins: the data loader marks, the selector sums. */
module Balances {
  import opened Prelude
  import opened Chain
  import opened Ledger
  import opened CoinSelection
  import opened CoinOutcome
  import opened Replacement
  import Text

  /** A transaction as the data loader leaves it: owned outputs marked first, then the unspent ones. */
  function Marked(tx: Transaction, addresses: seq<string>, unspent: seq<bool>): Option<Transaction> {
    tx.FromKnownAddresses(addresses).FromKnownUnspent(unspent)
  }

  /** What outputs to the given addresses were worth that have been spent since. */
  function SpentValue(vouts: seq<Vout>, addresses: seq<string>, unspent: seq<bool>): int
    requires |vouts| <= |unspent|
  {
    if vouts == [] then 0
    else
      var n := |vouts| - 1;
      SpentValue(vouts[..n], addresses, unspent)
      + if vouts[n].scriptPubkeyAddress in addresses && !unspent[n] then vouts[n].valueSat else 0
  }

  lemma TotalSnoc(coins: seq<Utxo>, coin: Utxo)
    ensures Total(coins + [coin]) == Total(coins) + coin.amount
  {
    TotalAppend(coins, [coin]);
    assert [coin][..0] == [];
  }

  lemma {:induction false} CoinsOfPrefix(id: string, vouts: seq<Vout>, marked: seq<Vout>,
                                         addresses: seq<string>, unspent: seq<bool>, n: nat)
    requires Text.HexDecode(id).Some?
    requires n <= |vouts| == |marked| <= |unspent|
    requires forall i :: 0 <= i < |vouts| ==>
      marked[i] == vouts[i].FromKnownAddresses(addresses).FromKnownUnspent(unspent[i])
    ensures UtxosOf(id, marked[..n]).Some?
    ensures Total(UtxosOf(id, marked[..n]).value) + SpentValue(vouts[..n], addresses, unspent)
         == Incoming(vouts[..n], addresses)
  {
    if n > 0 {
      CoinsOfPrefix(id, vouts, marked, addresses, unspent, n - 1);
      hide Total;
      assert marked[..n][..n - 1] == marked[..n - 1] && vouts[..n][..n - 1] == vouts[..n - 1];
      var v := marked[n - 1];
      if Spendable(v) {
        TotalSnoc(UtxosOf(id, marked[..n - 1]).value,
                  Utxo(v.scriptPubkeyAddress, FromTxId(id, v.index).value, v.valueSat, v.scriptPubkey));
      }
    }
  }

  /**
   What a transaction offers for spending, and what was spent of it, are together what it
   brought in; the marking fails exactly when a flag is missing.
   */
  lemma CoinsAndSpentAreIncoming(tx: Transaction, addresses: seq<string>, unspent: seq<bool>)
    requires Text.HexDecode(tx.id).Some?
    ensures Marked(tx, addresses, unspent).Some? <==> |tx.vouts| <= |unspent|
    ensures |tx.vouts| <= |unspent| ==>
      var marked := Marked(tx, addresses, unspent).value;
      && GetUtxos([marked]).Some? && marked.incoming.Some?
      && Total(GetUtxos([marked]).value) + SpentValue(tx.vouts, addresses, unspent) == marked.incoming.value
  {
    if |tx.vouts| <= |unspent| {
      var marked := Marked(tx, addresses, unspent).value;
      CoinsOfPrefix(tx.id, tx.vouts, marked.vouts, addresses, unspent, |tx.vouts|);
      assert marked.vouts[..|tx.vouts|] == marked.vouts && tx.vouts[..|tx.vouts|] == tx.vouts;
      OneListed(marked);
    }
  }

  lemma OneListed(tx: Transaction)
    ensures GetUtxos([tx]) == UtxosOf(tx.id, tx.vouts)
  {
    assert [tx][..0] == [];
    assert GetUtxos([]) == Some([]);
    if UtxosOf(tx.id, tx.vouts).Some? {
      assert [] + UtxosOf(tx.id, tx.vouts).value == UtxosOf(tx.id, tx.vouts).value;
    }
  }

  // ----- outgoing -----

  /** What the marked inputs spend. */
  function MarkedInputs(vins: seq<Vin>): int {
    if vins == [] then 0
    else
      var last := vins[|vins| - 1];
      MarkedInputs(vins[..|vins| - 1]) + if last.fromKnownAddress then last.prevOut.valueSat else 0
  }

  /** What the marked outputs receive. */
  function MarkedOutputs(vouts: seq<Vout>): int {
    if vouts == [] then 0
    else
      var last := vouts[|vouts| - 1];
      MarkedOutputs(vouts[..|vouts| - 1]) + if last.toKnownAddress then last.valueSat else 0
  }

  lemma {:induction false} OutgoingIsMarked(vins: seq<Vin>, marked: seq<Vin>, addresses: seq<string>)
    requires |vins| == |marked|
    requires forall i :: 0 <= i < |vins| ==> marked[i] == vins[i].FromKnownAddresses(addresses)
    ensures MarkedInputs(marked) == Outgoing(vins, addresses)
  {
    if vins != [] {
      OutgoingIsMarked(vins[..|vins| - 1], marked[..|vins| - 1], addresses);
    }
  }

  lemma {:induction false} IncomingIsMarked(vouts: seq<Vout>, marked: seq<Vout>, addresses: seq<string>)
    requires |vouts| == |marked|
    requires forall i :: 0 <= i < |vouts| ==>
      marked[i].toKnownAddress == (vouts[i].scriptPubkeyAddress in addresses) && marked[i].valueSat == vouts[i].valueSat
    ensures MarkedOutputs(marked) == Incoming(vouts, addresses)
  {
    if vouts != [] {
      IncomingIsMarked(vouts[..|vouts| - 1], marked[..|vouts| - 1], addresses);
    }
  }

  /**
   The two amounts a marked transaction shows are those of its marked outputs and inputs. An input is marked
   exactly when it spends an output to one of the addresses, an output when it pays to one; no output counts
   as unspent yet, and nothing else changes.
   */
  lemma AmountsAreMarked(tx: Transaction, addresses: seq<string>)
    ensures var marked := tx.FromKnownAddresses(addresses);
      && marked == Transaction(tx.id, tx.status, marked.vins, marked.vouts,
                               Some(MarkedOutputs(marked.vouts)), Some(MarkedInputs(marked.vins)))
      && |marked.vins| == |tx.vins| && |marked.vouts| == |tx.vouts|
      && (forall i :: 0 <= i < |tx.vins| ==>
            var vin := tx.vins[i];
            marked.vins[i] == Vin(vin.prevOut, vin.txId, vin.vout, vin.prevOut.scriptPubkeyAddress in addresses))
      && (forall i :: 0 <= i < |tx.vouts| ==>
            var vout := tx.vouts[i];
            marked.vouts[i] == Vout(vout.valueSat, vout.scriptPubkey, vout.scriptPubkeyAddress, vout.index,
                                    vout.scriptPubkeyAddress in addresses, false))
  {
    var marked := tx.FromKnownAddresses(addresses);
    OutgoingIsMarked(tx.vins, marked.vins, addresses);
    IncomingIsMarked(tx.vouts, marked.vouts, addresses);
    hide Incoming, Outgoing, MarkedInputs, MarkedOutputs;
  }

  /** A fully marked transaction offers exactly its outputs to the addresses that are flagged unspent. */
  lemma MarkedOffers(tx: Transaction, addresses: seq<string>, unspent: seq<bool>, i: nat)
    requires i < |tx.vouts| <= |unspent|
    ensures Marked(tx, addresses, unspent).Some?
    ensures var marked := Marked(tx, addresses, unspent).value;
      && marked.id == tx.id && marked.status == tx.status && |marked.vouts| == |tx.vouts|
      && (Spendable(marked.vouts[i]) <==> unspent[i] && tx.vouts[i].scriptPubkeyAddress in addresses)
      && marked.vouts[i].(toKnownAddress := false, unspent := false)
         == tx.vouts[i].(toKnownAddress := false, unspent := false)
  {
    hide Incoming, Outgoing;
  }

  // ----- the liveliness check of a transaction -----

  lemma {:induction false} NoCoins(id: string, vouts: seq<Vout>)
    requires Text.HexDecode(id).Some?
    ensures UtxosOf(id, vouts).Some?
    ensures UtxosOf(id, vouts).value == []
       <==> forall i :: 0 <= i < |vouts| ==> !(vouts[i].toKnownAddress && vouts[i].unspent)
  {
    if vouts != [] {
      NoCoins(id, vouts[..|vouts| - 1]);
    }
  }

  /** The check holds for a transaction exactly when it offers coins and is old enough. */
  lemma CheckIffCoins(tx: Transaction, timelock: int, tip: int)
    requires Text.HexDecode(tx.id).Some?
    ensures GetUtxos([tx]).Some?
    ensures tx.NeedLivelinessCheck(timelock, tip)
       <==> GetUtxos([tx]).value != [] && tx.status.NeedLivelinessCheck(timelock, tip)
  {
    NoCoins(tx.id, tx.vouts);
    OneListed(tx);
    hide UtxosOf, GetUtxos;
  }
}
