/** When the network accepts what the wallet signs: scripts, inputs that do not repeat, and values. */
module Acceptance {
  import opened Prelude
  import opened Chain
  import opened Consensus
  import opened Crypto
  import opened Bip32
  import opened Wallet
  import opened CoinSelection
  import opened CoinOutcome
  import opened CoinTheorems
  import opened Signing
  import opened SigningTheorems
  import opened SpendTheorems
  import opened EndToEnd
  import opened Ledger
  import opened Liveliness
  import KeySearch
  import WalletTheorems

  // ----- the rules -----

  predicate NoInputTwice(tx: MsgTx) {
    forall i, j :: 0 <= i < j < |tx.txIn| ==> tx.txIn[i].previousOutPoint != tx.txIn[j].previousOutPoint
  }

  predicate NoNegativeOutput(outs: seq<TxOut>) {
    forall i :: 0 <= i < |outs| ==> outs[i].value >= 0
  }

  /** Inputs and outputs there are, no input twice, values in order, and every script satisfied. */
  ghost predicate Accepted(c: Suite, ledger: map<OutPoint, TxOut>, tx: MsgTx)
    requires c.n > 0
  {
    && tx.txIn != [] && tx.txOut != []
    && NoInputTwice(tx) && NoNegativeOutput(tx.txOut)
    && SpendsAll(c, ledger, tx)
    && OutputSum(tx.txOut) <= OutputSum(LedgerOutputs(ledger, tx))
  }

  /**
   What a caller can see beforehand: the amount is not negative, spending everything leaves
   something after the fee, and the fee and dust loops will not both add coins.
   */
  ghost predicate Acceptable(q: Request, coins: seq<Utxo>) {
    var fee := PricedFee(coins, q.amount, |q.destScript|, q.feeRate);
    && q.amount >= 0
    && (q.amount == 0 ==> fee <= Total(coins))
    && !BothLoopsAdd(coins, q.amount, fee)
  }

  // ----- inputs -----

  lemma SameOutpoints(tx: MsgTx, picked: seq<Utxo>)
    requires |tx.txIn| == |picked|
    requires forall i :: 0 <= i < |picked| ==> tx.txIn[i].previousOutPoint == picked[i].outpoint
    ensures NoInputTwice(tx) <==> DistinctOutpoints(picked)
  {
  }

  lemma {:induction false} SumsMatch(outs: seq<TxOut>, coins: seq<Utxo>)
    requires |outs| == |coins| && forall i :: 0 <= i < |coins| ==> outs[i].value == coins[i].amount
    ensures OutputSum(outs) == Total(coins)
  {
    if coins != [] {
      SumsMatch(outs[..|outs| - 1], coins[..|coins| - 1]);
    }
  }

  lemma LedgerValue(c: Suite, ledger: map<OutPoint, TxOut>, coins: seq<Utxo>, p: Plan, i: nat)
    requires Honest(c, ledger, coins) && p.Fits(coins) && i < |p.Picked(coins)|
    ensures var coin := p.Picked(coins)[i]; coin.outpoint in ledger && ledger[coin.outpoint].value == coin.amount
  {
    hide ScriptFor, Plan.Picked;
    PickedAreCoins(coins, p, i);
    var j :| 0 <= j < |coins| && coins[j] == p.Picked(coins)[i];
    assert HonestCoin(c, ledger, coins[j]);
  }

  lemma LedgerWorth(c: Suite, ledger: map<OutPoint, TxOut>, coins: seq<Utxo>, p: Plan, tx: MsgTx)
    requires Honest(c, ledger, coins) && p.Fits(coins) && |tx.txIn| == |p.Picked(coins)|
    requires forall i :: 0 <= i < |tx.txIn| ==> tx.txIn[i].previousOutPoint == p.Picked(coins)[i].outpoint
    ensures InLedger(ledger, tx) && OutputSum(LedgerOutputs(ledger, tx)) == Total(p.Picked(coins))
  {
    hide Honest, Plan.Picked, OutputSum, Total;
    forall i | 0 <= i < |tx.txIn|
      ensures tx.txIn[i].previousOutPoint in ledger
      ensures ledger[tx.txIn[i].previousOutPoint].value == p.Picked(coins)[i].amount
    {
      LedgerValue(c, ledger, coins, p, i);
    }
    SumsMatch(LedgerOutputs(ledger, tx), p.Picked(coins));
  }

  // ----- outputs -----

  lemma OutputsInOrder(info: TransactionInfo, picked: seq<Utxo>, amount: int, destScript: Bytes, changeScript: Bytes)
    requires Balanced(info, picked, amount, destScript, changeScript) && info.txChangeAmt >= 0
    ensures info.msgTx.txOut != []
    ensures NoNegativeOutput(info.msgTx.txOut)
       <==> (if amount == 0 then info.txFeeAmt <= Total(picked) else amount >= 0)
  {
    hide Total, OutputSum;
    var paid := TxOut(if amount == 0 then info.txInputAmt - info.txFeeAmt else amount, destScript);
    assert info.msgTx.txOut[0] == paid;
  }

  /** What every successful run says about the values and the inputs of its transaction. */
  lemma RunValues(q: Request, coins: seq<Utxo>)
    requires q.feeRate > 0.0 && q.Run(coins).Ok? && DistinctOutpoints(coins) && NonNegative(coins)
    ensures var info, picked := q.Run(coins).value, q.Plan(coins).Picked(coins);
      var fee := PricedFee(coins, q.amount, |q.destScript|, q.feeRate);
      && info.txFeeAmt == fee > 0
      && OutputSum(info.msgTx.txOut) + fee == Total(picked)
      && info.msgTx.txOut != []
      && (NoNegativeOutput(info.msgTx.txOut) <==> (if q.amount == 0 then fee <= Total(coins) else q.amount >= 0))
      && (DistinctOutpoints(picked) <==> !BothLoopsAdd(coins, q.amount, fee))
      && (q.amount == 0 ==> picked == coins)
      && (q.amount > 0 ==> picked != [])
  {
    hide *;
    PlanOfRun(q, coins);
    FeeOfRun(q, coins);
    ValueConserved(q, coins);
    EachCoinOnce(q, coins);
    PlanFeeIs(q, coins);
    var p, info := q.Plan(coins), q.Run(coins).value;
    ChangeNonNegative(coins, q.amount, p);
    OutputsInOrder(info, p.Picked(coins), q.amount, q.destScript, q.changeScript);
    BalancedSum(info, p.Picked(coins), q.amount, q.destScript, q.changeScript);
    if q.amount == 0 {
      SpendAllPicks(coins, p);
    } else {
      PaidFor(coins, q.amount, p);
    }
  }

  lemma PlanFeeIs(q: Request, coins: seq<Utxo>)
    ensures q.Plan(coins).fee == PricedFee(coins, q.amount, |q.destScript|, q.feeRate)
  {
    hide PricedFee;
  }

  lemma BalancedSum(info: TransactionInfo, picked: seq<Utxo>, amount: int, destScript: Bytes, changeScript: Bytes)
    requires Balanced(info, picked, amount, destScript, changeScript)
    ensures OutputSum(info.msgTx.txOut) + info.txFeeAmt == Total(picked)
  {
    hide OutputSum, Total;
  }

  /** A positive amount takes at least one coin. */
  lemma PaidFor(coins: seq<Utxo>, amount: int, p: Plan)
    requires PlanSums(coins, amount, p)
    ensures amount > 0 ==> p.Picked(coins) != []
  {
    assert coins[..0] == [];
  }

  // ----- the theorem -----

  /**
   A transaction with the created inputs and outputs, whose scripts are satisfied, is
   accepted exactly when the request was acceptable.
   */
  lemma AcceptedIff(c: Suite, ledger: map<OutPoint, TxOut>, q: Request, coins: seq<Utxo>, signed: MsgTx)
    requires c.n > 0 && q.feeRate > 0.0 && q.Run(coins).Ok?
    requires Honest(c, ledger, coins) && DistinctOutpoints(coins) && NonNegative(coins)
    requires SameInputs(signed, q.Run(coins).value.msgTx) && signed.txOut == q.Run(coins).value.msgTx.txOut
    requires SpendsAll(c, ledger, signed)
    ensures Accepted(c, ledger, signed) <==> Acceptable(q, coins)
    ensures NoInputTwice(signed) <==> !BothLoopsAdd(coins, q.amount, q.Run(coins).value.txFeeAmt)
    ensures InLedger(ledger, signed)
    ensures OutputSum(signed.txOut) + q.Run(coins).value.txFeeAmt == OutputSum(LedgerOutputs(ledger, signed))
  {
    hide Request.Run, Request.Plan, Plan.Picked, PricedFee, Total, OutputSum, SpendsAll, Honest, BothLoopsAdd,
         NoNegativeOutput, NoInputTwice, LedgerOutputs;
    RunValues(q, coins);
    PlanOfRun(q, coins);
    RunInputs(q, coins);
    var p := q.Plan(coins);
    SameOutpoints(signed, p.Picked(coins));
    LedgerWorth(c, ledger, coins, p, signed);
    WorthSomething(coins);
  }

  lemma WorthSomething(coins: seq<Utxo>)
    ensures Total(coins) > 0 ==> coins != []
  {
  }

  lemma BothShape(c: Suite, timelock: uint32, first: ExtKey, second: ExtKey, info: TransactionInfo, signed: MsgTx)
    requires c.n > 0 && SignedByBoth(c, timelock, first, second, info, signed)
    ensures SameInputs(signed, info.msgTx) && signed.txOut == info.msgTx.txOut
  {
    hide PrivateSearch, Signable, WitnessFor;
  }

  lemma RecoveryShape(c: Suite, timelock: uint32, w: Wallet, info: TransactionInfo, signed: MsgTx)
    requires c.n > 0 && SignedForRecovery(c, timelock, w, info, signed)
    ensures SameInputs(signed, info.msgTx) && signed.txOut == info.msgTx.txOut
  {
    hide RecoverySearch, Signable, WitnessFor;
  }

  /**
   With both seeds and distinct coins of its own, the wallet's transaction is accepted exactly
   when the request is acceptable and the coins suffice; then every signed result is.
   */
  lemma WalletPays(c: Suite, timelock: uint32, first: ExtKey, second: ExtKey, q: Request, coins: seq<Utxo>,
                   ledger: map<OutPoint, TxOut>)
    requires Lawful(c) && c.n > 0 && ValidPrivate(c, first) && ValidPrivate(c, second)
    requires KeySearch.SearchKeys(c, first, second).Some?
    requires var keys := KeySearch.SearchKeys(c, first, second).value;
      Usable(c, KeyPath(timelock), keys.0, keys.1) && Owned(c, KeyPath(timelock), keys.0, keys.1, coins)
    requires q.feeRate > 0.0 && Honest(c, ledger, coins) && DistinctOutpoints(coins) && NonNegative(coins)
    ensures q.Run(coins).Ok? <==> Funded(q, coins)
    ensures q.Run(coins).Ok? ==>
      && (exists signed :: SignedByBoth(c, timelock, first, second, q.Run(coins).value, signed))
      && forall signed :: SignedByBoth(c, timelock, first, second, q.Run(coins).value, signed) ==>
           (Accepted(c, ledger, signed) <==> Acceptable(q, coins))
  {
    hide *;
    WalletSpends(c, timelock, first, second, q, coins, ledger);
    if q.Run(coins).Ok? {
      forall signed | SignedByBoth(c, timelock, first, second, q.Run(coins).value, signed)
        ensures Accepted(c, ledger, signed) <==> Acceptable(q, coins)
      {
        BothShape(c, timelock, first, second, q.Run(coins).value, signed);
        AcceptedIff(c, ledger, q, coins, signed);
      }
    }
  }

  /** The same with the first seed and the descriptor. */
  lemma RecoveryPays(c: Suite, timelock: uint32, first: ExtKey, second: ExtKey, w: Wallet,
                     q: Request, coins: seq<Utxo>, ledger: map<OutPoint, TxOut>)
    requires Lawful(c) && c.n > 0 && WalletTheorems.ValidWallet(c, first, second) && timelock != 0
    requires GetDescriptor(c, second).Some? && w == Recovery(first, GetDescriptor(c, second).value)
    requires StartKeys(c, w, 0).Some?
    requires var keys := StartKeys(c, w, 0).value;
      && Usable(c, ScriptPath(timelock), keys.0, keys.1) && Opens(c, ScriptPath(timelock), keys.0, keys.1)
      && Owned(c, ScriptPath(timelock), keys.0, keys.1, coins)
    requires q.feeRate > 0.0 && Honest(c, ledger, coins) && DistinctOutpoints(coins) && NonNegative(coins)
    ensures q.Run(coins).Ok? <==> Funded(q, coins)
    ensures q.Run(coins).Ok? ==>
      && (exists signed :: SignedForRecovery(c, timelock, w, q.Run(coins).value, signed))
      && forall signed :: SignedForRecovery(c, timelock, w, q.Run(coins).value, signed) ==>
           (Accepted(c, ledger, signed) <==> Acceptable(q, coins))
  {
    hide *;
    RecoverySpends(c, timelock, first, second, w, q, coins, ledger);
    if q.Run(coins).Ok? {
      forall signed | SignedForRecovery(c, timelock, w, q.Run(coins).value, signed)
        ensures Accepted(c, ledger, signed) <==> Acceptable(q, coins)
      {
        RecoveryShape(c, timelock, w, q.Run(coins).value, signed);
        AcceptedIff(c, ledger, q, coins, signed);
      }
    }
  }

  // ----- what is signed of sequences and lock time -----

  /** BIP 125: a transaction with such an input may be replaced. */
  predicate Signals(tx: MsgTx) {
    exists i :: 0 <= i < |tx.txIn| && tx.txIn[i].sequence < 0xFFFF_FFFE
  }

  lemma BothCopied(c: Suite, timelock: uint32, first: ExtKey, second: ExtKey, info: TransactionInfo, signed: MsgTx)
    requires c.n > 0 && SignedByBoth(c, timelock, first, second, info, signed)
    ensures signed.version == info.msgTx.version && signed.lockTime == info.msgTx.lockTime
    ensures SameInputs(signed, info.msgTx)
    ensures forall i :: 0 <= i < |signed.txIn| ==> signed.txIn[i].sequence == info.msgTx.txIn[i].sequence
  {
    hide PrivateSearch, Signable, WitnessFor;
  }

  /**
   A payment carries version 2, no lock time and the sequence 0 on every input: each input may be replaced,
   and none waits for its coin to age.
   */
  lemma PaymentUnlocked(c: Suite, timelock: uint32, first: ExtKey, second: ExtKey, q: Request, coins: seq<Utxo>,
                        signed: MsgTx)
    requires c.n > 0 && q.feeRate > 0.0 && q.Run(coins).Ok?
    requires SignedByBoth(c, timelock, first, second, q.Run(coins).value, signed)
    ensures signed.version == 2 && signed.lockTime == 0
    ensures forall i :: 0 <= i < |signed.txIn| ==> signed.txIn[i].sequence == 0
    ensures signed.txIn != [] ==> Signals(signed)
    ensures forall i, height, tip, coinTime, tipTime :: 0 <= i < |signed.txIn| && height <= tip + 1 ==>
      InputFinal(signed.txIn[i].sequence, height, tip, coinTime, tipTime)
  {
    hide Request.Run, SignedByBoth;
    RunSequences(q, coins);
    BothCopied(c, timelock, first, second, q.Run(coins).value, signed);
    if signed.txIn != [] {
      assert signed.txIn[0].sequence == 0;
    }
  }

  // ----- when a recovery may be mined -----

  /** When a coin was mined, as the application is told it, and the median time before that block. */
  datatype Mined = Mined(status: TransactionStatus, medianTime: int)

  /** Every input is old enough for the block after `tip`. */
  ghost predicate AllFinal(mined: map<OutPoint, Mined>, tx: MsgTx, tip: int, tipTime: int) {
    forall i :: 0 <= i < |tx.txIn| ==>
      var o := tx.txIn[i].previousOutPoint;
      && o in mined
      && InputFinal(tx.txIn[i].sequence, CoinHeight(mined[o].status, tip), tip, mined[o].medianTime, tipTime)
  }

  /** The application's check holds for every coin. */
  ghost predicate AllNeedCheck(mined: map<OutPoint, Mined>, coins: seq<Utxo>, timelock: uint32, tip: int) {
    forall i :: 0 <= i < |coins| ==>
      coins[i].outpoint in mined && mined[coins[i].outpoint].status.NeedLivelinessCheck(timelock, tip)
  }

  lemma FinalTogether(mined: map<OutPoint, Mined>, tx: MsgTx, picked: seq<Utxo>, timelock: uint32,
                      tip: int, tipTime: int)
    requires timelock < 0x1_0000 && |tx.txIn| == |picked|
    requires forall i :: 0 <= i < |picked| ==>
      tx.txIn[i].previousOutPoint == picked[i].outpoint && tx.txIn[i].sequence == timelock
    ensures AllFinal(mined, tx, tip, tipTime) <==> AllNeedCheck(mined, picked, timelock, tip)
  {
    hide InputFinal, CoinHeight, TransactionStatus.NeedLivelinessCheck;
    forall i | 0 <= i < |picked| && picked[i].outpoint in mined
      ensures var m := mined[picked[i].outpoint];
        InputFinal(tx.txIn[i].sequence, CoinHeight(m.status, tip), tip, m.medianTime, tipTime)
        == m.status.NeedLivelinessCheck(timelock, tip)
    {
      var m := mined[picked[i].outpoint];
      LivelinessIsFinality(timelock, m.status, tip, m.medianTime, tipTime);
    }
  }

  /**
   Every input of a signed recovery is final in the next block exactly when the
   application's check holds for every coin picked, at every tip.
   */
  lemma RecoveryFinalIff(c: Suite, timelock: uint32, w: Wallet, q: Request, coins: seq<Utxo>, signed: MsgTx,
                         mined: map<OutPoint, Mined>, tip: int, tipTime: int)
    requires c.n > 0 && timelock < 0x1_0000 && q.feeRate > 0.0 && q.Run(coins).Ok?
    requires SignedForRecovery(c, timelock, w, q.Run(coins).value, signed)
    ensures AllFinal(mined, signed, tip, tipTime) <==> AllNeedCheck(mined, q.Plan(coins).Picked(coins), timelock, tip)
  {
    hide *;
    var info := q.Run(coins).value;
    RecoverySigned(c, timelock, w, info, signed);
    SequencedCopy(c, info, RecoverySearch(c, timelock, w, info.outpointToAddr).value, timelock, signed);
    RunInputs(q, coins);
    FinalTogether(mined, signed, q.Plan(coins).Picked(coins), timelock, tip, tipTime);
  }

  /**
   A signed recovery may go into the next block exactly when the request was acceptable and
   the check holds for every coin it spends.
   */
  lemma RecoveryMinable(c: Suite, timelock: uint32, first: ExtKey, second: ExtKey, w: Wallet, q: Request,
                        coins: seq<Utxo>, ledger: map<OutPoint, TxOut>, signed: MsgTx,
                        mined: map<OutPoint, Mined>, tip: int, tipTime: int)
    requires Lawful(c) && c.n > 0 && WalletTheorems.ValidWallet(c, first, second) && 0 < timelock < 0x1_0000
    requires GetDescriptor(c, second).Some? && w == Recovery(first, GetDescriptor(c, second).value)
    requires StartKeys(c, w, 0).Some?
    requires var keys := StartKeys(c, w, 0).value; Opens(c, ScriptPath(timelock), keys.0, keys.1)
    requires q.feeRate > 0.0 && q.Run(coins).Ok?
    requires Honest(c, ledger, coins) && DistinctOutpoints(coins) && NonNegative(coins)
    requires SignedForRecovery(c, timelock, w, q.Run(coins).value, signed)
    ensures Accepted(c, ledger, signed) && AllFinal(mined, signed, tip, tipTime)
       <==> Acceptable(q, coins) && AllNeedCheck(mined, q.Plan(coins).Picked(coins), timelock, tip)
  {
    hide *;
    AloneSpends(c, timelock, first, second, w, q, coins, ledger, signed);
    RecoveryShape(c, timelock, w, q.Run(coins).value, signed);
    AcceptedIff(c, ledger, q, coins, signed);
    RecoveryFinalIff(c, timelock, w, q, coins, signed, mined, tip, tipTime);
  }
}
