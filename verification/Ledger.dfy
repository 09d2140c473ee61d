/** Transactions as the network API reports them to the application (bitcoin_network_connectivity.dart). */
module Ledger {
  import opened Prelude

  /** Height is absent while a transaction is unconfirmed. */
  datatype TransactionStatus = TransactionStatus(confirmed: bool, blockHeight: Option<int>) {
    function GetConfirmations(from: int): int {
      match blockHeight
      case None => 0
      case Some(height) => from - height + 1
    }

    function BlocksToLiveliness(timelock: int, currentBlock: int): int {
      timelock - GetConfirmations(currentBlock)
    }

    predicate NeedLivelinessCheck(timelock: int, currentBlock: int) {
      GetConfirmations(currentBlock) >= timelock
    }
  }

  datatype PrevOut = PrevOut(valueSat: int, scriptPubkey: string, scriptPubkeyAddress: string)

  datatype Vin = Vin(prevOut: PrevOut, txId: string, vout: uint32, fromKnownAddress: bool) {
    function FromKnownAddresses(addresses: seq<string>): Vin {
      this.(fromKnownAddress := prevOut.scriptPubkeyAddress in addresses)
    }
  }

  datatype Vout = Vout(valueSat: int, scriptPubkey: string, scriptPubkeyAddress: string, index: uint32,
                       toKnownAddress: bool, unspent: bool)
  {
    /** Marks ownership, and forgets whether the output is unspent. */
    function FromKnownAddresses(addresses: seq<string>): Vout {
      this.(toKnownAddress := scriptPubkeyAddress in addresses, unspent := false)
    }

    function FromKnownUnspent(isUnspent: bool): Vout {
      this.(unspent := isUnspent)
    }
  }

  /** Two transactions are equal to the application when their ids are. */
  datatype Transaction = Transaction(id: string, status: TransactionStatus, vins: seq<Vin>, vouts: seq<Vout>,
                                     incoming: Option<int>, outgoing: Option<int>)
  {
    predicate Same(other: Transaction) {
      id == other.id
    }

    predicate HasAnyOwnedUtxo() {
      exists i :: 0 <= i < |vouts| && vouts[i].toKnownAddress && vouts[i].unspent
    }

    predicate NeedLivelinessCheck(timelock: int, fromBlock: int) {
      HasAnyOwnedUtxo() && status.NeedLivelinessCheck(timelock, fromBlock)
    }

    function FromKnownAddresses(addresses: seq<string>): Transaction {
      this.(
        vins := seq(|vins|, i requires 0 <= i < |vins| => vins[i].FromKnownAddresses(addresses)),
        vouts := seq(|vouts|, i requires 0 <= i < |vouts| => vouts[i].FromKnownAddresses(addresses)),
        incoming := Some(Incoming(vouts, addresses)),
        outgoing := Some(Outgoing(vins, addresses)))
    }

    /** One flag per output; a missing flag is out of range. */
    function FromKnownUnspent(utxos: seq<bool>): Option<Transaction> {
      if |utxos| < |vouts| then None
      else Some(this.(vouts := seq(|vouts|, i requires 0 <= i < |vouts| => vouts[i].FromKnownUnspent(utxos[i]))))
    }
  }

  function Incoming(vouts: seq<Vout>, addresses: seq<string>): int {
    if vouts == [] then 0
    else
      var last := vouts[|vouts| - 1];
      Incoming(vouts[..|vouts| - 1], addresses) + if last.scriptPubkeyAddress in addresses then last.valueSat else 0
  }

  function Outgoing(vins: seq<Vin>, addresses: seq<string>): int {
    if vins == [] then 0
    else
      var last := vins[|vins| - 1];
      Outgoing(vins[..|vins| - 1], addresses)
      + if last.prevOut.scriptPubkeyAddress in addresses then last.prevOut.valueSat else 0
  }

  /** The spent parent of an input, with the one output the input spends; only for fee bumping. */
  function FromVin(vin: Vin): Transaction {
    Transaction(vin.txId, TransactionStatus(true, Some(-1)), [],
                [Vout(vin.prevOut.valueSat, vin.prevOut.scriptPubkey, vin.prevOut.scriptPubkeyAddress, vin.vout,
                      true, true)],
                None, None)
  }
}
