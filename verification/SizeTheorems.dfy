/** Signed transactions have the sizes the fee theorems speak of. */
module SizeTheorems {
  import opened Prelude
  import opened Chain
  import opened Crypto
  import opened Bip32
  import opened Bip44
  import opened Script
  import opened Taproot
  import opened Wallet
  import opened CoinSelection
  import opened CoinOutcome
  import opened FeeTheorems
  import opened Signing
  import opened SigningTheorems
  import opened SpendTheorems
  import KeySearch
  import TaprootTheorems
  import WalletTheorems

  /** A 64-byte signature, a leaf of 35 bytes and the timelock's push, a 33-byte control block, and their lengths. */
  function RecoveryWitness(timelock: uint32): nat {
    136 + NumPushLength(timelock)
  }

  lemma KeyWitnessSize(c: Suite, timelock: uint32, first: Bip44Key, second: Bip44Key, k: nat, address: string,
                       signer: Signer, message: Bytes)
    requires Lawful(c) && WalletTheorems.PrivateLeaf(c, first) && WalletTheorems.PrivateLeaf(c, second)
    requires c.n > 0 && EntryAt(c, KeyPath(timelock), first, second, k) == Some((address, signer))
    requires Sign(c, signer, message).Some?
    ensures Sign(c, signer, message).value != []
    ensures WitnessSize(Sign(c, signer, message).value) == KEY_PATH_WITNESS
  {
    hide Lawful, EntryAt, WalletTheorems.PrivateLeaf, Sign, WitnessSize;
    KeyEntrySpends(c, timelock, first, second, k, address, signer, message);
    var items := Sign(c, signer, message).value;
    OneItemWitness(items[0]);
    assert items == [items[0]];
  }

  lemma LeafWitnessSize(c: Suite, timelock: uint32, first: Bip44Key, second: Bip44Key, k: nat, address: string,
                        signer: Signer, message: Bytes)
    requires Lawful(c) && WalletTheorems.PrivateLeaf(c, first) && WalletTheorems.PrivateLeaf(c, second)
    requires c.n > 0
    requires EntryAt(c, ScriptPath(timelock), first, WalletTheorems.NeuterKey(c, second), k) == Some((address, signer))
    requires Sign(c, signer, message).Some?
    ensures Sign(c, signer, message).value != []
    ensures WitnessSize(Sign(c, signer, message).value) == RecoveryWitness(timelock)
  {
    hide *;
    LawfulParts(c);
    LeafEntry(c, timelock, first, second, k, address, signer);
    var s: nat :| LeafOf(c, timelock, s, address, signer);
    LeafFacts(c, timelock, s, address, signer);
    LeafItems(c, timelock, signer, message);
    var items := Sign(c, signer, message).value;
    RecoveryItems(timelock, items[0], items[1], items[2]);
  }

  lemma LeafItems(c: Suite, timelock: uint32, signer: Signer, message: Bytes)
    requires Lawful(c) && c.n > 0 && signer.LeafSigner? && IsScalar(c, signer.privateKey)
    requires Some(signer.tapscript.leafScript) == CreateTapscriptTimelockFromKey(c, timelock, c.mul(signer.privateKey))
    requires Sign(c, signer, message).Some?
    ensures exists signature ::
      && |signature| == 64 && |signer.tapscript.leafScript| == 35 + NumPushLength(timelock)
      && Sign(c, signer, message).value == [signature, signer.tapscript.leafScript, signer.tapscript.controlBlock]
  {
    hide *;
    LeafWitness(c, signer, message);
    TaprootTheorems.LeafKeySigns(c, signer.privateKey, message);
    TaprootTheorems.LeafOps(c, timelock, c.mul(signer.privateKey));
  }

  lemma RecoveryItems(timelock: uint32, a: Bytes, b: Bytes, d: Bytes)
    requires |a| == 64 && |b| == 35 + NumPushLength(timelock) && |d| == 33
    ensures WitnessSize([a, b, d]) == RecoveryWitness(timelock)
  {
    hide WitnessSize, ItemsSize;
    ThreeItemWitness(a, b, d);
  }

  lemma CopyFrom(c: Suite, info: TransactionInfo, keys: map<string, Signer>, tx: MsgTx, signed: MsgTx, size: nat)
    requires c.n > 0 && SignedFrom(c, info, keys, tx, signed)
    requires |tx.txIn| == |info.msgTx.txIn| && tx.txOut == info.msgTx.txOut
    requires forall i :: 0 <= i < |signed.txIn| ==>
      signed.txIn[i].witnessStack != [] && WitnessSize(signed.txIn[i].witnessStack) == size
    ensures SignedCopy(signed, info.msgTx, size)
  {
    hide Signable, WitnessFor, WitnessSize;
  }

  /** Every key-path witness has the size that was priced, on every run that succeeds. */
  lemma KeyPathSize(c: Suite, timelock: uint32, first: ExtKey, second: ExtKey,
                    q: Request, coins: seq<Utxo>, signed: MsgTx)
    requires Lawful(c) && c.n > 0 && ValidPrivate(c, first) && ValidPrivate(c, second)
    requires q.feeRate > 0.0 && q.Run(coins).Ok?
    requires PrivateSearch(c, timelock, first, second, q.Run(coins).value.outpointToAddr).Some?
    requires
      var info := q.Run(coins).value;
      SignedFrom(c, info, PrivateSearch(c, timelock, first, second, info.outpointToAddr).value, info.msgTx, signed)
    ensures SignedCopy(signed, q.Run(coins).value.msgTx, KEY_PATH_WITNESS)
  {
    var info := q.Run(coins).value;
    var start := KeySearch.SearchKeys(c, first, second).value;
    var keys := PrivateSearch(c, timelock, first, second, info.outpointToAddr).value;
    assert keys == KeySearch.Search(c, KeyPath(timelock), start.0, start.1, info.outpointToAddr, 0).value;
    hide *;
    LawfulParts(c);
    SearchStart(c, first, second);
    SignedParts(c, info, keys, info.msgTx, signed);
    forall i | 0 <= i < |signed.txIn|
      ensures signed.txIn[i].witnessStack != [] && WitnessSize(signed.txIn[i].witnessStack) == KEY_PATH_WITNESS
    {
      var o := info.msgTx.txIn[i].previousOutPoint;
      var address := info.outpointToAddr[o];
      SearchFinds(c, KeyPath(timelock), start.0, start.1, info.outpointToAddr, o);
      var k: nat :| EntryAt(c, KeyPath(timelock), start.0, start.1, k) == Some((address, keys[address]));
      KeyWitnessSize(c, timelock, start.0, start.1, k, address, keys[address],
                     MessageFor(c, keys[address], Spent(info, info.msgTx), info.msgTx, i));
    }
    CopyFrom(c, info, keys, info.msgTx, signed, KEY_PATH_WITNESS);
  }

  lemma SignedParts(c: Suite, info: TransactionInfo, keys: map<string, Signer>, tx: MsgTx, signed: MsgTx)
    requires c.n > 0 && SignedFrom(c, info, keys, tx, signed)
    ensures |signed.txIn| == |tx.txIn| && AllFetched(info, tx)
    ensures forall i :: 0 <= i < |signed.txIn| ==>
      var o := tx.txIn[i].previousOutPoint;
      && o in info.outpointToAddr && info.outpointToAddr[o] in keys
      && Some(signed.txIn[i].witnessStack)
         == Sign(c, keys[info.outpointToAddr[o]], MessageFor(c, keys[info.outpointToAddr[o]], Spent(info, tx), tx, i))
  {
    hide Sign, MessageFor, AllFetched;
    forall i | 0 <= i < |signed.txIn|
      ensures SignerOf(info, keys, tx.txIn[i].previousOutPoint).Some?
      ensures Some(signed.txIn[i].witnessStack) == WitnessFor(c, info, keys, Spent(info, tx), tx, i)
    {
      assert WitnessFor(c, info, keys, Spent(info, tx), tx, i).Some?;
    }
  }

  /** With the wallet's timelock, every recovery witness takes 140 bytes where 66 were priced. */
  lemma RecoverySize(c: Suite, timelock: uint32, first: ExtKey, second: ExtKey, w: Wallet,
                     q: Request, coins: seq<Utxo>, signed: MsgTx)
    requires Lawful(c) && c.n > 0 && WalletTheorems.ValidWallet(c, first, second)
    requires GetDescriptor(c, second).Some? && w == Recovery(first, GetDescriptor(c, second).value)
    requires q.feeRate > 0.0 && q.Run(coins).Ok?
    requires RecoverySearch(c, timelock, w, q.Run(coins).value.outpointToAddr).Some?
    requires
      var info := q.Run(coins).value;
      SignedFrom(c, info, RecoverySearch(c, timelock, w, info.outpointToAddr).value,
                 WithSequence(info.msgTx, timelock), signed)
    ensures SignedCopy(signed, q.Run(coins).value.msgTx, RecoveryWitness(timelock))
  {
    var info := q.Run(coins).value;
    var start := StartKeys(c, w, 0).value;
    var keys := RecoverySearch(c, timelock, w, info.outpointToAddr).value;
    hide *;
    RecoverySearchIs(c, timelock, w, info.outpointToAddr);
    var tx := WithSequence(info.msgTx, timelock);
    LawfulParts(c);
    RecoveryStart(c, first, second, w);
    var b := GetBip44Key(c, second, 0).value;
    SignedParts(c, info, keys, tx, signed);
    forall i | 0 <= i < |signed.txIn|
      ensures signed.txIn[i].witnessStack != [] && WitnessSize(signed.txIn[i].witnessStack) == RecoveryWitness(timelock)
    {
      var o := tx.txIn[i].previousOutPoint;
      var address := info.outpointToAddr[o];
      SearchFinds(c, ScriptPath(timelock), start.0, start.1, info.outpointToAddr, o);
      var k: nat :| EntryAt(c, ScriptPath(timelock), start.0, start.1, k) == Some((address, keys[address]));
      LeafWitnessSize(c, timelock, start.0, b, k, address, keys[address],
                      MessageFor(c, keys[address], Spent(info, tx), tx, i));
    }
    CopyFrom(c, info, keys, tx, signed, RecoveryWitness(timelock));
  }

  /**
   The fee of a recovery transaction with an input falls short exactly when rounding up does
   not pay for the larger witnesses; at rates of a ninth of a satoshi or more it always does.
   */
  lemma RecoveryUnderpays(c: Suite, timelock: uint32, first: ExtKey, second: ExtKey, w: Wallet,
                          q: Request, coins: seq<Utxo>, signed: MsgTx)
    requires Lawful(c) && c.n > 0 && WalletTheorems.ValidWallet(c, first, second)
    requires GetDescriptor(c, second).Some? && w == Recovery(first, GetDescriptor(c, second).value)
    requires q.feeRate > 0.0 && q.Run(coins).Ok? && signed.txIn != []
    requires RecoverySearch(c, timelock, w, q.Run(coins).value.outpointToAddr).Some?
    requires
      var info := q.Run(coins).value;
      SignedFrom(c, info, RecoverySearch(c, timelock, w, info.outpointToAddr).value,
                 WithSequence(info.msgTx, timelock), signed)
    ensures AddedWeight(q, coins, RecoveryWitness(timelock)) >= 36
    ensures var short := (q.Run(coins).value.txFeeAmt as real) < Asked(q.feeRate, VSize(Weight(signed)));
      var added := AddedBytes(PricedFor(q, coins), AddedWeight(q, coins, RecoveryWitness(timelock)));
      && (short <==> Asked(q.feeRate, added) > RoundedUp(q, coins))
      && (q.feeRate * 9.0 >= 1.0 ==> short)
  {
    assert RecoveryWitness(timelock) >= KEY_PATH_WITNESS + 36;
    hide *;
    RecoverySize(c, timelock, first, second, w, q, coins, signed);
    RecoveryFeeFallsShort(q, coins, signed, RecoveryWitness(timelock));
  }
}
