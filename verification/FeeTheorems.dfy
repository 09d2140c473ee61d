/** The fee of `CreateTransaction` against the size of the transaction once it is signed. */
module FeeTheorems {
  import opened Prelude
  import opened Chain
  import opened CoinSelection
  import opened CoinOutcome
  import opened CoinTheorems

  const KEY_PATH_WITNESS: nat := 66

  /** `signed` spends the inputs of `tx` into the same outputs, every witness `size` bytes long. */
  ghost predicate SignedCopy(signed: MsgTx, tx: MsgTx, size: nat) {
    && |signed.txIn| == |tx.txIn|
    && signed.txOut == tx.txOut
    && UniformWitness(signed.txIn, size)
  }

  /** What signing adds to the priced weight of `k` inputs when `added` inputs and perhaps a change output follow. */
  function ExtraWeight(k: nat, added: nat, change: seq<TxOut>, size: nat): int {
    (4 * INPUT_SIZE + size) * added
    + (size - KEY_PATH_WITNESS) * k
    + 4 * OutputsSize(change)
    + 4 * (VarIntSize(k + added) - VarIntSize(k))
    + if k == 0 && added > 0 then 2 else 0
  }

  lemma InputsAndOutputs(q: Request, coins: seq<Utxo>)
    requires q.feeRate > 0.0 && q.Run(coins).Ok?
    ensures var tx, p := q.Run(coins).value.msgTx, q.Plan(coins);
      && |tx.txIn| == p.cover + (p.topUp + p.dust)
      && 1 <= |tx.txOut| <= 2 && tx.txOut[0].pkScript == q.destScript
      && tx.txOut[1..] == (if p.changeOutput then [TxOut(p.change, q.changeScript)] else [])
      && q.Run(coins).value.txFeeAmt == Fee(q.feeRate, PricedWeight(p.cover, |q.destScript|))
  {
    hide Create, Complete, FirstChange, DustLength, TopUpLength, Cover, Total, CoverDraft, PlanDraft;
    Outcome(q, coins);
  }

  lemma Regroup(k: nat, added: nat, size: nat)
    ensures (4 * INPUT_SIZE + size) * added + (size - KEY_PATH_WITNESS) * k
         == 4 * INPUT_SIZE * added + size * (k + added) - KEY_PATH_WITNESS * k
  {
  }

  lemma TailSize(outs: seq<TxOut>)
    requires 1 <= |outs| <= 2
    ensures OutputsSize(outs) == OutputSize(outs[0]) + OutputsSize(outs[1..])
    ensures |outs| == 2 ==> OutputsSize(outs[1..]) >= 9
  {
    OneOutput(outs[0]);
    if |outs| == 2 {
      OutputsSnoc([outs[0]], outs[1]);
      OneOutput(outs[1]);
      assert outs == [outs[0]] + [outs[1]] && outs[1..] == [outs[1]];
    } else {
      assert outs == [outs[0]] && outs[1..] == [];
    }
  }

  lemma SignedSize(tx: MsgTx, k: nat, scriptLength: nat, signed: MsgTx, size: nat)
    requires SignedCopy(signed, tx, size) && k <= |tx.txIn|
    requires 1 <= |tx.txOut| <= 2 && |tx.txOut[0].pkScript| == scriptLength
    ensures Weight(signed) == PricedWeight(k, scriptLength) + ExtraWeight(k, |tx.txIn| - k, tx.txOut[1..], size)
  {
    hide Weight, OutputsSize, VarIntSize, UniformWitness;
    UniformWeight(signed, size);
    TailSize(tx.txOut);
    Regroup(k, |tx.txIn| - k, size);
    assert VarIntSize(1) == VarIntSize(|tx.txOut|) by {
      SmallVarInt(|tx.txOut|);
      SmallVarInt(1);
    }
  }

  lemma SmallVarInt(n: nat)
    requires n < 0xFD
    ensures VarIntSize(n) == 1
  {
  }

  /**
   Signing by key path adds 230 weight units per input beyond the covering prefix, four
   times the change output's size, and the growth of the input counter, and nothing else.
   Larger witnesses (script path) add their excess once per input.
   */
  lemma SignedWeight(q: Request, coins: seq<Utxo>, signed: MsgTx, size: nat)
    requires q.feeRate > 0.0 && q.Run(coins).Ok?
    requires SignedCopy(signed, q.Run(coins).value.msgTx, size)
    ensures var p := q.Plan(coins);
      Weight(signed) == PricedWeight(p.cover, |q.destScript|)
                      + ExtraWeight(p.cover, p.topUp + p.dust, q.Run(coins).value.msgTx.txOut[1..], size)
  {
    hide *;
    InputsAndOutputs(q, coins);
    SignedSize(q.Run(coins).value.msgTx, q.Plan(coins).cover, |q.destScript|, signed, size);
  }

  lemma LargerProduct(r: real, v: nat, w: nat)
    requires r * 9.0 >= 1.0 && w >= v + 9
    ensures r * w as real >= r * v as real + 1.0
  {
    var more: real := (w - v) as real - 9.0;
    assert more >= 0.0 && r >= 0.0;
    assert r * more >= 0.0;
    assert r * w as real == r * v as real + r * 9.0 + r * more;
  }

  lemma CeilBounds(feeRate: real, priced: nat, extra: nat)
    requires feeRate > 0.0
    ensures extra == 0 ==> Fee(feeRate, priced) as real >= feeRate * VSize(priced + extra) as real
    ensures extra >= 36 && feeRate * 9.0 >= 1.0
        ==> (Fee(feeRate, priced) as real) < feeRate * VSize(priced + extra) as real
  {
    if extra >= 36 && feeRate * 9.0 >= 1.0 {
      assert VSize(priced + extra) >= VSize(priced) + 9;
      LargerProduct(feeRate, VSize(priced), VSize(priced + extra));
    }
  }

  lemma ScaledAtLeast(a: nat, n: nat)
    ensures n > 0 ==> a * n >= a
    ensures a * n >= 0
  {
  }

  lemma ExtraWeightSign(k: nat, added: nat, outs: seq<TxOut>, size: nat)
    requires 1 <= |outs| <= 2 && size >= KEY_PATH_WITNESS
    ensures added == 0 && |outs| == 1 && (size == KEY_PATH_WITNESS || k == 0)
        ==> ExtraWeight(k, added, outs[1..], size) == 0
    ensures added > 0 || |outs| == 2 || (k > 0 && size >= KEY_PATH_WITNESS + 36)
        ==> ExtraWeight(k, added, outs[1..], size) >= 36
  {
    TailSize(outs);
    assert |outs| == 1 ==> OutputsSize(outs[1..]) == 0;
    hide OutputsSize;
    ScaledAtLeast(4 * INPUT_SIZE + size, added);
    ScaledAtLeast(size - KEY_PATH_WITNESS, k);
    VarIntGrows(k, added);
    hide VarIntSize;
  }

  lemma VarIntGrows(k: nat, added: nat)
    ensures VarIntSize(k) <= VarIntSize(k + added)
  {
  }

  // ----- when the fee covers the rate -----

  /** What the request adds after pricing, once every witness takes `size` bytes. */
  function AddedWeight(q: Request, coins: seq<Utxo>, size: nat): int {
    var p := q.Plan(coins);
    ExtraWeight(p.cover, p.topUp + p.dust, if p.changeOutput then [TxOut(p.change, q.changeScript)] else [], size)
  }

  function PricedFor(q: Request, coins: seq<Utxo>): nat {
    PricedWeight(CoverLength(coins, q.amount), |q.destScript|)
  }

  /** What a fee rate asks for so many virtual bytes. */
  function Asked(feeRate: real, bytes: nat): real {
    feeRate * bytes as real
  }

  /** What rounding up to a whole satoshi adds. */
  function RoundingUp(x: real): (slack: real)
    ensures 0.0 <= slack < 1.0
  {
    Ceil(x) as real - x
  }

  /** What rounding the fee up adds to the rate times the priced size. */
  function RoundedUp(q: Request, coins: seq<Utxo>): real {
    RoundingUp(Asked(q.feeRate, VSize(PricedFor(q, coins))))
  }

  /** The virtual bytes that `added` weight makes on top of a priced weight. */
  function AddedBytes(priced: nat, added: nat): nat {
    VSize(priced + added) - VSize(priced)
  }

  /** Everything is spent, or the covering prefix is worth exactly the amount and the fee. */
  predicate SpendsAllOrExactly(q: Request, coins: seq<Utxo>) {
    q.amount == 0
    || Total(coins[..Cover(coins, q.amount)]) == q.amount + PricedFee(coins, q.amount, |q.destScript|, q.feeRate)
  }

  lemma NothingAdded(q: Request, coins: seq<Utxo>)
    requires q.feeRate > 0.0 && q.Run(coins).Ok?
    ensures var p := q.Plan(coins);
      SpendsAllOrExactly(q, coins) <==> p.topUp == 0 && p.dust == 0 && !p.changeOutput
  {
    PlanOfRun(q, coins);
    PlanFee(q, coins);
    hide Request.Run, Request.Plan, Total, Fee, PricedWeight;
    if q.amount != 0 && SpendsAllOrExactly(q, coins) {
      CoverReached(coins, q.amount, q.amount + q.Plan(coins).fee);
    }
  }

  /** A prefix that is worth the larger target is the shortest for both. */
  lemma CoverReached(coins: seq<Utxo>, target: int, larger: int)
    requires target <= larger && Total(coins[..Cover(coins, target)]) >= larger
    ensures Cover(coins, larger) == Cover(coins, target)
  {
    CoverIsFirst(coins, target);
    CoverUnique(coins, larger, Cover(coins, target));
  }

  /** The signed weight, told by the request and the coins alone. */
  lemma SignedIsPricedAndAdded(q: Request, coins: seq<Utxo>, signed: MsgTx, size: nat)
    requires q.feeRate > 0.0 && q.Run(coins).Ok?
    requires SignedCopy(signed, q.Run(coins).value.msgTx, size)
    ensures Weight(signed) == PricedFor(q, coins) + AddedWeight(q, coins, size)
    ensures q.Run(coins).value.txFeeAmt == Fee(q.feeRate, PricedFor(q, coins))
  {
    InputsAndOutputs(q, coins);
    hide Request.Run, Weight, PricedWeight, ExtraWeight, Fee;
    SignedWeight(q, coins, signed, size);
  }

  lemma AddedWeightSign(q: Request, coins: seq<Utxo>, size: nat)
    requires size >= KEY_PATH_WITNESS && q.feeRate > 0.0 && q.Run(coins).Ok?
    ensures size == KEY_PATH_WITNESS && SpendsAllOrExactly(q, coins) ==> AddedWeight(q, coins, size) == 0
    ensures !SpendsAllOrExactly(q, coins) ==> AddedWeight(q, coins, size) >= 36
    ensures size >= KEY_PATH_WITNESS + 36 && q.Run(coins).value.msgTx.txIn != [] ==> AddedWeight(q, coins, size) >= 36
  {
    var p, tx := q.Plan(coins), q.Run(coins).value.msgTx;
    InputsAndOutputs(q, coins);
    NothingAdded(q, coins);
    hide Request.Run, Request.Plan, ExtraWeight, SpendsAllOrExactly;
    ExtraWeightSign(p.cover, p.topUp + p.dust, tx.txOut, size);
  }

  lemma AskedSum(feeRate: real, a: nat, b: nat)
    ensures Asked(feeRate, a + b) == Asked(feeRate, a) + Asked(feeRate, b)
  {
    assert (a + b) as real == a as real + b as real;
  }

  lemma FeeIsAskedAndRounded(q: Request, coins: seq<Utxo>)
    ensures Fee(q.feeRate, PricedFor(q, coins)) as real
         == Asked(q.feeRate, VSize(PricedFor(q, coins))) + RoundedUp(q, coins)
  {
    FeeIsRounded(q.feeRate, PricedFor(q, coins));
    hide PricedFor, VSize, Ceil, Asked, Fee;
  }

  lemma FeeIsRounded(feeRate: real, weight: nat)
    ensures Fee(feeRate, weight) == Ceil(Asked(feeRate, VSize(weight)))
  {
  }

  lemma AddedBytesAre(priced: nat, added: nat)
    ensures VSize(priced + added) == VSize(priced) + AddedBytes(priced, added)
  {
  }

  /** Once the signed weight is the priced weight and `added`, the fee covers the rate as far as rounding up goes. */
  lemma CoversIff(q: Request, coins: seq<Utxo>, added: nat)
    ensures Fee(q.feeRate, PricedFor(q, coins)) as real >= Asked(q.feeRate, VSize(PricedFor(q, coins) + added))
       <==> Asked(q.feeRate, AddedBytes(PricedFor(q, coins), added)) <= RoundedUp(q, coins)
  {
    hide *;
    FeeIsAskedAndRounded(q, coins);
    AddedBytesAre(PricedFor(q, coins), added);
    AskedSum(q.feeRate, VSize(PricedFor(q, coins)), AddedBytes(PricedFor(q, coins), added));
  }

  /**
   At every rate the fee covers the rate on the signed transaction exactly when rounding up
   pays for the virtual bytes that were added after pricing.
   */
  lemma FeeCoversIff(q: Request, coins: seq<Utxo>, signed: MsgTx, size: nat)
    requires q.feeRate > 0.0 && q.Run(coins).Ok? && size >= KEY_PATH_WITNESS
    requires SignedCopy(signed, q.Run(coins).value.msgTx, size)
    ensures AddedWeight(q, coins, size) >= 0
    ensures q.Run(coins).value.txFeeAmt as real >= Asked(q.feeRate, VSize(Weight(signed)))
       <==> Asked(q.feeRate, AddedBytes(PricedFor(q, coins), AddedWeight(q, coins, size))) <= RoundedUp(q, coins)
  {
    hide Request.Run, VSize, Weight, PricedFor, AddedWeight, RoundedUp, AddedBytes, Fee, Asked;
    SignedIsPricedAndAdded(q, coins, signed, size);
    AddedNonNegative(q, coins, size);
    CoversIff(q, coins, AddedWeight(q, coins, size));
  }

  lemma AddedNonNegative(q: Request, coins: seq<Utxo>, size: nat)
    requires size >= KEY_PATH_WITNESS
    ensures AddedWeight(q, coins, size) >= 0
  {
    var p := q.Plan(coins);
    hide Request.Plan, OutputsSize;
    ScaledAtLeast(4 * INPUT_SIZE + size, p.topUp + p.dust);
    ScaledAtLeast(size - KEY_PATH_WITNESS, p.cover);
    VarIntGrows(p.cover, p.topUp + p.dust);
    hide VarIntSize;
  }

  /**
   The source prices the transaction before it adds fee inputs and change. The fee covers
   the rate on the key-path-signed transaction whenever everything is spent or the covering
   prefix matches amount and fee exactly; at rates of at least one ninth of a satoshi per
   virtual byte, where rounding up cannot pay for an output, exactly then.
   */
  lemma FeeMeetsRateIff(q: Request, coins: seq<Utxo>, signed: MsgTx)
    requires q.feeRate > 0.0 && q.Run(coins).Ok?
    requires SignedCopy(signed, q.Run(coins).value.msgTx, KEY_PATH_WITNESS)
    ensures var meets := q.Run(coins).value.txFeeAmt as real >= Asked(q.feeRate, VSize(Weight(signed)));
      && (SpendsAllOrExactly(q, coins) ==> meets)
      && (q.feeRate * 9.0 >= 1.0 ==> (meets <==> SpendsAllOrExactly(q, coins)))
  {
    hide Request.Run, VSize, Weight, PricedFor, AddedWeight, Fee, SpendsAllOrExactly;
    SignedIsPricedAndAdded(q, coins, signed, KEY_PATH_WITNESS);
    AddedWeightSign(q, coins, KEY_PATH_WITNESS);
    CeilBounds(q.feeRate, PricedFor(q, coins), AddedWeight(q, coins, KEY_PATH_WITNESS));
  }

  /**
   Witnesses larger than priced: the fee falls short exactly when rounding up does not pay
   for the excess, and always at rates of at least one ninth of a satoshi per virtual byte.
   */
  lemma RecoveryFeeFallsShort(q: Request, coins: seq<Utxo>, signed: MsgTx, size: nat)
    requires q.feeRate > 0.0 && q.Run(coins).Ok?
    requires size >= KEY_PATH_WITNESS + 36 && signed.txIn != []
    requires SignedCopy(signed, q.Run(coins).value.msgTx, size)
    ensures AddedWeight(q, coins, size) >= 36
    ensures var short := (q.Run(coins).value.txFeeAmt as real) < Asked(q.feeRate, VSize(Weight(signed)));
      && (short <==>
            Asked(q.feeRate, AddedBytes(PricedFor(q, coins), AddedWeight(q, coins, size))) > RoundedUp(q, coins))
      && (q.feeRate * 9.0 >= 1.0 ==> short)
  {
    hide Request.Run, VSize, Weight, PricedFor, AddedWeight, RoundedUp, AddedBytes, Fee, SpendsAllOrExactly;
    SignedIsPricedAndAdded(q, coins, signed, size);
    AddedWeightSign(q, coins, size);
    FeeCoversIff(q, coins, signed, size);
    CeilBounds(q.feeRate, PricedFor(q, coins), AddedWeight(q, coins, size));
  }

  // ----- the figures pinned by the repository's tests -----

  lemma PricedOneAndTwo()
    ensures VSize(PricedWeight(1, 34)) == 111 && VSize(PricedWeight(2, 34)) == 169
    ensures ExtraWeight(1, 1, [], KEY_PATH_WITNESS) == 230
  {
  }

  // ----- a coin spent twice -----

  function Coin(n: uint32, amount: int): Utxo {
    Utxo("", OutPoint(Zeros(32), n), amount, "")
  }

  /** A witness program of version 1. */
  function ProgramScript(): (script: Bytes)
    ensures |script| == 34
  {
    [0x51, 32] + Zeros(32)
  }

  /** Three coins and a payment of the first one's worth. */
  const REUSE_COINS: seq<Utxo> := [Coin(0, 1000), Coin(1, 200), Coin(2, 500)]
  const REUSE_REQUEST: Request := Request(ProgramScript(), ProgramScript(), 1000, 1.0)

  lemma ReuseTotals()
    ensures Total(REUSE_COINS[..0]) == 0 && Total(REUSE_COINS[..1]) == 1000 && Total(REUSE_COINS[..2]) == 1200
    ensures Total(REUSE_COINS) == 1700 && Total(REUSE_COINS[2..]) == 500
  {
    TakeNext(REUSE_COINS, 0);
    TakeNext(REUSE_COINS, 1);
    TakeNext(REUSE_COINS, 2);
    TotalRest(REUSE_COINS, 2);
    assert REUSE_COINS[..3] == REUSE_COINS;
  }

  /** The run succeeds, and the second coin is an input twice: the transaction could never be mined. */
  lemma CoinSpentTwice()
    ensures REUSE_REQUEST.Run(REUSE_COINS).Ok? && DistinctOutpoints(REUSE_COINS)
    ensures BothLoopsAdd(REUSE_COINS, REUSE_REQUEST.amount, REUSE_REQUEST.Plan(REUSE_COINS).fee)
    ensures !DistinctOutpoints(REUSE_REQUEST.Plan(REUSE_COINS).Picked(REUSE_COINS))
  {
    hide Total, Cover, Create, PlanFrom;
    ReuseTotals();
    CoverUnique(REUSE_COINS, 1000, 1);
    CoverUnique(REUSE_COINS, 1111, 2);
    PricedOneAndTwo();
    assert REUSE_REQUEST.Plan(REUSE_COINS).fee == 111 by {
      hide PricedWeight, VSize;
      PlanFee(REUSE_REQUEST, REUSE_COINS);
    }
    SelectionComplete(REUSE_REQUEST, REUSE_COINS);
    EachCoinOnce(REUSE_REQUEST, REUSE_COINS);
  }

  lemma PlanFee(q: Request, coins: seq<Utxo>)
    ensures q.Plan(coins).fee == Fee(q.feeRate, PricedWeight(CoverLength(coins, q.amount), |q.destScript|))
  {
  }
}
