/** Creating and signing, by key path or by the timelocked leaf (leafy.go, `CreateAndSign*Transaction`). */
module Signing {
  import opened Prelude
  import opened Chain
  import opened Crypto
  import opened Bip32
  import opened Taproot
  import opened Wallet
  import opened CoinSelection
  import Consensus
  import KeySearch

  // ----- lookups -----

  /** The output an input spends, as the transaction's maps tell it. */
  function SpentBy(info: TransactionInfo, o: OutPoint): Option<TxOut> {
    if o in info.outpointToScript && o in info.outpointToAmt
    then Some(TxOut(info.outpointToAmt[o], info.outpointToScript[o]))
    else None
  }

  ghost predicate AllFetched(info: TransactionInfo, tx: MsgTx) {
    forall i :: 0 <= i < |tx.txIn| ==> SpentBy(info, tx.txIn[i].previousOutPoint).Some?
  }

  ghost function Spent(info: TransactionInfo, tx: MsgTx): (s: seq<TxOut>)
    requires AllFetched(info, tx)
    ensures |s| == |tx.txIn|
  {
    seq(|tx.txIn|, i requires 0 <= i < |tx.txIn| => SpentBy(info, tx.txIn[i].previousOutPoint).value)
  }

  /** The signer of an outpoint's address. */
  function SignerOf(info: TransactionInfo, keys: map<string, Signer>, o: OutPoint): Option<Signer> {
    if o in info.outpointToAddr && info.outpointToAddr[o] in keys
    then Some(keys[info.outpointToAddr[o]])
    else None
  }

  // ----- witnesses -----

  function MessageFor(c: Suite, signer: Signer, spent: seq<TxOut>, tx: MsgTx, i: nat): Bytes {
    var leafHash := match signer
      case KeySigner(_, _) => None
      case LeafSigner(_, leaf) => Some(LeafHash(c, BASE_LEAF_VERSION, leaf.leafScript));
    c.sigHash(SigMessage(spent, Consensus.WithoutWitnesses(tx), i, leafHash))
  }

  function Sign(c: Suite, signer: Signer, message: Bytes): Option<seq<Bytes>>
    requires c.n > 0
  {
    match signer
    case KeySigner(key, merkleRoot) => TaprootSign(c, key, message, Some(merkleRoot))
    case LeafSigner(key, leaf) => TapscriptSign(c, key, message, leaf)
  }

  function WitnessFor(c: Suite, info: TransactionInfo, keys: map<string, Signer>, spent: seq<TxOut>, tx: MsgTx, i: nat)
    : Option<seq<Bytes>>
    requires c.n > 0 && i < |tx.txIn|
  {
    var signer :- SignerOf(info, keys, tx.txIn[i].previousOutPoint);
    Sign(c, signer, MessageFor(c, signer, spent, tx, i))
  }

  /** Every input has its output, its signer and a signature. */
  ghost predicate Signable(c: Suite, info: TransactionInfo, keys: map<string, Signer>, tx: MsgTx)
    requires c.n > 0
  {
    && AllFetched(info, tx)
    && forall i :: 0 <= i < |tx.txIn| ==> WitnessFor(c, info, keys, Spent(info, tx), tx, i).Some?
  }

  /** `signed` is `tx` with witness `i` made for input `i`, against the transaction without witnesses. */
  ghost predicate SignedFrom(c: Suite, info: TransactionInfo, keys: map<string, Signer>, tx: MsgTx, signed: MsgTx)
    requires c.n > 0
  {
    && Signable(c, info, keys, tx)
    && signed == tx.(txIn := signed.txIn)
    && |signed.txIn| == |tx.txIn|
    && forall i :: 0 <= i < |tx.txIn| ==>
         signed.txIn[i] == tx.txIn[i].(witnessStack := WitnessFor(c, info, keys, Spent(info, tx), tx, i).value)
  }

  /** The loops shared by both signing functions: fetch, sign, and only then assign the witnesses. */
  method SignTransaction(c: Suite, info: TransactionInfo, keys: map<string, Signer>, tx: MsgTx)
    returns (r: Option<MsgTx>)
    requires c.n > 0
    ensures r.Some? <==> Signable(c, info, keys, tx)
    ensures r.Some? ==> SignedFrom(c, info, keys, tx, r.value)
  {
    hide WitnessFor;
    var spent: seq<TxOut> := [];
    for i := 0 to |tx.txIn|
      invariant |spent| == i
      invariant forall j :: 0 <= j < i ==> SpentBy(info, tx.txIn[j].previousOutPoint) == Some(spent[j])
    {
      var fetched := SpentBy(info, tx.txIn[i].previousOutPoint);
      if fetched.None? {
        return None;
      }
      spent := spent + [fetched.value];
    }
    assert AllFetched(info, tx) && spent == Spent(info, tx);
    var witnesses: seq<seq<Bytes>> := [];
    for i := 0 to |tx.txIn|
      invariant |witnesses| == i
      invariant forall j :: 0 <= j < i ==> WitnessFor(c, info, keys, spent, tx, j) == Some(witnesses[j])
    {
      var made := WitnessFor(c, info, keys, spent, tx, i);
      if made.None? {
        return None;
      }
      witnesses := witnesses + [made.value];
    }
    var ins := tx.txIn;
    for i := 0 to |witnesses|
      invariant |ins| == |tx.txIn|
      invariant forall j :: 0 <= j < i ==> ins[j] == tx.txIn[j].(witnessStack := witnesses[j])
      invariant forall j :: i <= j < |ins| ==> ins[j] == tx.txIn[j]
    {
      ins := ins[i := ins[i].(witnessStack := witnesses[i])];
    }
    r := Some(tx.(txIn := ins));
  }

  /** The transaction with every input's sequence set. */
  function WithSequence(tx: MsgTx, sequence: uint32): (r: MsgTx)
    ensures |r.txIn| == |tx.txIn|
    ensures r == tx.(txIn := r.txIn)
    ensures forall i :: 0 <= i < |tx.txIn| ==> r.txIn[i] == tx.txIn[i].(sequence := sequence)
  {
    tx.(txIn := seq(|tx.txIn|, i requires 0 <= i < |tx.txIn| => tx.txIn[i].(sequence := sequence)))
  }

  method SetSequences(tx: MsgTx, sequence: uint32) returns (r: MsgTx)
    ensures r == WithSequence(tx, sequence)
  {
    var ins := tx.txIn;
    for i := 0 to |ins|
      invariant |ins| == |tx.txIn|
      invariant forall j :: 0 <= j < i ==> ins[j] == tx.txIn[j].(sequence := sequence)
      invariant forall j :: i <= j < |ins| ==> ins[j] == tx.txIn[j]
    {
      ins := ins[i := ins[i].(sequence := sequence)];
    }
    assert ins == WithSequence(tx, sequence).txIn;
    r := tx.(txIn := ins);
  }

  /** What the private key search returns for these addresses. */
  ghost function PrivateSearch(c: Suite, timelock: uint32, first: ExtKey, second: ExtKey, needed: map<OutPoint, string>)
    : Option<map<string, Signer>>
    requires c.n > 0
  {
    match KeySearch.SearchKeys(c, first, second)
    case None => None
    case Some(keys) => KeySearch.Search(c, KeyPath(timelock), keys.0, keys.1, needed, 0)
  }

  /** What the descriptor-based search returns for these addresses. */
  ghost function RecoverySearch(c: Suite, timelock: uint32, w: Wallet, needed: map<OutPoint, string>)
    : Option<map<string, Signer>>
    requires c.n > 0
  {
    match StartKeys(c, w, 0)
    case None => None
    case Some(keys) => KeySearch.Search(c, ScriptPath(timelock), keys.0, keys.1, needed, 0)
  }

  /** Fails exactly when creation fails, the keys are not found, or an input cannot be signed. */
  method CreateAndSignTransaction(c: Suite, timelock: uint32, first: ExtKey, second: ExtKey, utxos: seq<Utxo>,
                                  changeScript: Option<Bytes>, destScript: Option<Bytes>, amount: int, feeRate: real)
    returns (r: Option<MsgTx>)
    requires c.n > 0
    ensures
      var created := Create(utxos, changeScript, destScript, amount, feeRate);
      if created.Err? || PrivateSearch(c, timelock, first, second, created.value.outpointToAddr).None? then r.None?
      else
        var keys := PrivateSearch(c, timelock, first, second, created.value.outpointToAddr).value;
        && (r.Some? <==> Signable(c, created.value, keys, created.value.msgTx))
        && (r.Some? ==> SignedFrom(c, created.value, keys, created.value.msgTx, r.value))
  {
    hide Create, Signable, SignedFrom, KeySearch.Search, KeySearch.SearchKeys;
    var created := CreateTransaction(utxos, changeScript, destScript, amount, feeRate);
    if created.Err? {
      return None;
    }
    var info := created.value;
    var keys := KeySearch.FindSigningKeys(c, timelock, first, second, info.outpointToAddr);
    if keys.None? {
      return None;
    }
    r := SignTransaction(c, info, keys.value, info.msgTx);
  }

  /** The same with the timelock as every input's sequence, set before anything is hashed. */
  method CreateAndSignRecoveryTransaction(c: Suite, timelock: uint32, w: Wallet, utxos: seq<Utxo>,
                                          changeScript: Option<Bytes>, destScript: Option<Bytes>,
                                          amount: int, feeRate: real)
    returns (r: Option<MsgTx>)
    requires c.n > 0
    ensures
      var created := Create(utxos, changeScript, destScript, amount, feeRate);
      if created.Err? || RecoverySearch(c, timelock, w, created.value.outpointToAddr).None? then r.None?
      else
        var keys := RecoverySearch(c, timelock, w, created.value.outpointToAddr).value;
        var tx := WithSequence(created.value.msgTx, timelock);
        && (r.Some? <==> Signable(c, created.value, keys, tx))
        && (r.Some? ==> SignedFrom(c, created.value, keys, tx, r.value))
  {
    hide Create, Signable, SignedFrom, KeySearch.Search, StartKeys;
    var created := CreateTransaction(utxos, changeScript, destScript, amount, feeRate);
    if created.Err? {
      return None;
    }
    var info := created.value;
    var msgTx := SetSequences(info.msgTx, timelock);
    var keys := KeySearch.FindSigningRecoveryKeys(c, timelock, w, info.outpointToAddr);
    if keys.None? {
      return None;
    }
    r := SignTransaction(c, info, keys.value, msgTx);
  }
}
