/** What `CreateTransaction` guarantees about the coins it spends and the fee it pays. */
module CoinTheorems {
  import opened Prelude
  import opened Chain
  import opened CoinSelection
  import opened CoinOutcome

  // ----- a plan in terms of prefix sums -----

  /** The change a funding prefix of `funded` coins leaves. */
  function ChangeAt(coins: seq<Utxo>, funded: nat, need: int): int
    requires funded <= |coins|
  {
    Total(coins[..funded]) - need
  }

  /** A plan told by prefix sums of the whole coin list. */
  ghost predicate PlanSums(coins: seq<Utxo>, amount: int, p: Plan) {
    && p.Fits(coins)
    && p.fee > 0
    && if amount == 0 then p == Plan(|coins|, 0, 0, p.fee, 0, false)
       else
         && p.cover == Cover(coins, amount)
         && p.cover + p.topUp == Cover(coins, amount + p.fee)
         && Total(coins[..p.cover]) >= amount
         && ChangeSums(coins, p.cover + p.topUp, amount + p.fee, p)
  }

  ghost predicate ChangeSums(coins: seq<Utxo>, funded: nat, need: int, p: Plan)
    requires p.Fits(coins) && funded <= |coins|
  {
    var change, rest := ChangeAt(coins, funded, need), coins[p.cover..];
    && change >= 0
    && p.changeOutput == (change > 0)
    && p.change == change + Total(rest[..p.dust])
    && p.dust == if change > 0 then Cover(rest, DustTarget(change, Total(coins[funded..]))) else 0
  }

  lemma FirstChangeNonNegative(rest: seq<Utxo>, amount: int, short: int)
    requires amount == 0 || short <= 0 || short <= Total(rest)
    ensures FirstChange(rest, amount, short) >= 0
  {
    CoverIsFirst(rest, short);
    assert rest[..|rest|] == rest && rest[..0] == [];
  }

  /** Two searches in a row find the shortest prefix that covers the larger target. */
  lemma TwoStageCover(coins: seq<Utxo>, amount: int, fee: int)
    requires fee > 0 && amount <= Total(coins[..Cover(coins, amount)])
    ensures
      var k := Cover(coins, amount);
      var short := amount + fee - Total(coins[..k]);
      Cover(coins, amount + fee) == k + if short > 0 then Cover(coins[k..], short) else 0
  {
    hide Cover, Total;
    TotalNone();
    var k := Cover(coins, amount);
    var short := amount + fee - Total(coins[..k]);
    var j := if short > 0 then Cover(coins[k..], short) else 0;
    CoverIsFirst(coins, amount);
    CoverIsFirst(coins[k..], short);
    TotalSplit(coins, k, j);
    assert coins[k..][..0] == [];
    forall m | 0 <= m < k + j
      ensures Total(coins[..m]) < amount + fee
    {
      if m >= k {
        TotalSplit(coins, k, m - k);
      }
    }
    CoverUnique(coins, amount + fee, k + j);
  }

  lemma SpendAllSums(coins: seq<Utxo>, fee: int)
    requires fee > 0
    ensures PlanSums(coins, 0, PlanFrom(|coins|, Total(coins[..|coins|]), coins[|coins|..], 0, fee))
  {
    assert coins[|coins|..] == [] && coins[|coins|..][..0] == [];
  }

  lemma PaymentSums(coins: seq<Utxo>, amount: int, fee: int)
    requires fee > 0 && amount != 0
    requires amount <= Total(coins[..Cover(coins, amount)])
    requires var k := Cover(coins, amount);
      amount + fee - Total(coins[..k]) <= 0 || amount + fee - Total(coins[..k]) <= Total(coins[k..])
    ensures var k := Cover(coins, amount);
      PlanSums(coins, amount, PlanFrom(k, Total(coins[..k]), coins[k..], amount, fee))
  {
    hide Cover, Total, PlanFrom, ChangeSums, FirstChange, DustLength, DustTarget;
    var k := Cover(coins, amount);
    PaymentChange(coins, amount, fee);
    TwoStageCover(coins, amount, fee);
    PlanFields(k, Total(coins[..k]), coins[k..], amount, fee);
  }

  lemma PaymentChange(coins: seq<Utxo>, amount: int, fee: int)
    requires amount != 0
    requires var k := Cover(coins, amount);
      amount + fee - Total(coins[..k]) <= 0 || amount + fee - Total(coins[..k]) <= Total(coins[k..])
    ensures var k := Cover(coins, amount); var j := TopUpLength(coins[k..], amount, amount + fee - Total(coins[..k]));
      ChangeSums(coins, k + j, amount + fee, PlanFrom(k, Total(coins[..k]), coins[k..], amount, fee))
  {
    hide Cover, Total, TopUpLength;
    var k := Cover(coins, amount);
    var rest, short := coins[k..], amount + fee - Total(coins[..k]);
    SplitFunding(coins, k, TopUpLength(rest, amount, short));
    FirstChangeNonNegative(rest, amount, short);
  }

  lemma SplitFunding(coins: seq<Utxo>, k: nat, j: nat)
    requires k + j <= |coins|
    ensures Total(coins[..k + j]) == Total(coins[..k]) + Total(coins[k..][..j])
    ensures Total(coins[k..]) - Total(coins[k..][..j]) == Total(coins[k + j..])
  {
    TotalSplit(coins, k, j);
    TotalRest(coins[k..], j);
    assert coins[k..][j..] == coins[k + j..];
  }

  lemma FeePositive(feeRate: real, k: nat, scriptLength: nat)
    requires feeRate > 0.0
    ensures Fee(feeRate, PricedWeight(k, scriptLength)) > 0
  {
    var v := VSize(PricedWeight(k, scriptLength));
    assert v > 0 && feeRate * v as real > 0.0;
  }

  lemma PlanOf(q: Request, coins: seq<Utxo>)
    requires q.feeRate > 0.0 && Funded(q, coins)
    ensures PlanSums(coins, q.amount, q.Plan(coins))
  {
    FeePositive(q.feeRate, CoverLength(coins, q.amount), |q.destScript|);
    var fee := PricedFee(coins, q.amount, |q.destScript|, q.feeRate);
    if q.amount == 0 {
      SpendAllSums(coins, fee);
    } else {
      PaymentSums(coins, q.amount, fee);
    }
  }

  lemma PlanOfRun(q: Request, coins: seq<Utxo>)
    requires q.feeRate > 0.0 && q.Run(coins).Ok?
    ensures PlanSums(coins, q.amount, q.Plan(coins)) && Decodable(q.Plan(coins).Picked(coins))
    ensures q.Run(coins).value.txChangeAmt == q.Plan(coins).change
  {
    Outcome(q, coins);
    PlanOf(q, coins);
  }

  // ----- value is conserved -----

  /** What went in, with multiplicity, comes out as outputs and fee. */
  ghost predicate Balanced(info: TransactionInfo, picked: seq<Utxo>, amount: int,
                           destScript: Bytes, changeScript: Bytes) {
    && info.txInputAmt == Total(picked)
    && info.txInputAmt == OutputSum(info.msgTx.txOut) + info.txFeeAmt
    && info.txChangeAmt == info.txInputAmt - info.txFeeAmt - (if amount == 0 then info.txInputAmt - info.txFeeAmt
                                                              else amount)
    && (|info.msgTx.txOut| == 1 ==> info.txChangeAmt == 0)
    && var paid := TxOut(if amount == 0 then info.txInputAmt - info.txFeeAmt else amount, destScript);
       info.msgTx.txOut in {[paid], [paid, TxOut(info.txChangeAmt, changeScript)]}
  }

  lemma PickedTotal(coins: seq<Utxo>, p: Plan)
    requires p.Fits(coins)
    ensures Total(p.Picked(coins)) == Total(coins[..p.cover + p.topUp]) + Total(coins[p.cover..][..p.dust])
    ensures Total(coins[..p.cover + p.topUp]) == Total(coins[..p.cover]) + Total(coins[p.cover..][..p.topUp])
  {
    DustSlice(coins, p);
    hide Total, Plan.Picked;
    TotalAppend(coins[..p.cover + p.topUp], coins[p.cover..][..p.dust]);
    TotalSplit(coins, p.cover, p.topUp);
  }

  lemma DustSlice(coins: seq<Utxo>, p: Plan)
    requires p.Fits(coins)
    ensures p.Picked(coins) == coins[..p.cover + p.topUp] + coins[p.cover..][..p.dust]
  {
    assert coins[p.cover..][..p.dust] == coins[p.cover..p.cover + p.dust];
  }

  /** A plan's values: what is picked, and the change that amount and fee leave of it. */
  lemma PlanValues(coins: seq<Utxo>, amount: int, p: Plan)
    requires PlanSums(coins, amount, p)
    ensures
      var have, rest := Total(coins[..p.cover]), coins[p.cover..];
      var picked := have + Total(rest[..p.topUp]) + Total(rest[..p.dust]);
      && Total(p.Picked(coins)) == picked
      && (amount == 0 ==> have == picked && p.change == 0)
      && (amount != 0 ==> p.change == picked - amount - p.fee)
      && (!p.changeOutput ==> p.change == 0)
  {
    PickedTotal(coins, p);
    assert coins[p.cover..][..0] == [];
    TotalNone();
    hide Total, Cover, Plan.Picked, DustTarget;
  }

  lemma PaidOutputs(paid: TxOut, change: TxOut)
    ensures OutputSum([paid]) == paid.value
    ensures [paid] + [change] == [paid, change] && OutputSum([paid, change]) == paid.value + change.value
  {
    OneOutput(paid);
    OutputsSnoc([paid], change);
    assert [paid] + [change] == [paid, change];
  }

  lemma BuildBalanced(coins: seq<Utxo>, p: Plan, d: Draft, amount: int, destScript: Bytes, changeScript: Bytes)
    requires PlanSums(coins, amount, p)
    ensures Balanced(Build(d, p, Total(coins[..p.cover]), coins[p.cover..], amount, destScript, changeScript),
                     p.Picked(coins), amount, destScript, changeScript)
  {
    PlanValues(coins, amount, p);
    var have := Total(coins[..p.cover]);
    var paid := TxOut(if amount == 0 then have - p.fee else amount, destScript);
    PaidOutputs(paid, TxOut(p.change, changeScript));
    hide Total, OutputSum, Plan.Picked, PlanSums;
  }

  lemma SpendAllPicks(coins: seq<Utxo>, p: Plan)
    requires PlanSums(coins, 0, p)
    ensures p.Picked(coins) == coins
  {
  }

  /** Nothing is assumed of the amounts: they may even be negative. */
  lemma ValueConserved(q: Request, coins: seq<Utxo>)
    requires q.feeRate > 0.0 && q.Run(coins).Ok?
    ensures Balanced(q.Run(coins).value, q.Plan(coins).Picked(coins), q.amount, q.destScript, q.changeScript)
    ensures q.amount == 0 ==> q.Run(coins).value.txInputAmt == Total(coins)
  {
    hide *;
    Outcome(q, coins);
    PlanOf(q, coins);
    var info, p := q.Run(coins).value, q.Plan(coins);
    BuildBalanced(coins, p, Draft(info.msgTx.txIn, info.outpointToAddr, info.outpointToAmt, info.outpointToScript),
                  q.amount, q.destScript, q.changeScript);
    if q.amount == 0 {
      SpendAllPicks(coins, p);
      InputFromBalance(info, p.Picked(coins), q.amount, q.destScript, q.changeScript);
    }
  }

  // ----- selection is complete and takes the shortest prefixes -----

  ghost predicate ShortestPrefix(coins: seq<Utxo>, length: nat, target: int) {
    && length <= |coins|
    && Total(coins[..length]) >= target
    && forall m :: 0 <= m < length ==> Total(coins[..m]) < target
  }

  lemma CoverShortest(coins: seq<Utxo>, target: int)
    requires Total(coins[..Cover(coins, target)]) >= target
    ensures ShortestPrefix(coins, Cover(coins, target), target)
  {
    CoverIsFirst(coins, target);
  }

  lemma PlanPrefixes(coins: seq<Utxo>, amount: int, p: Plan)
    requires PlanSums(coins, amount, p) && amount != 0
    ensures ShortestPrefix(coins, p.cover, amount)
    ensures ShortestPrefix(coins, p.cover + p.topUp, amount + p.fee)
  {
    hide Cover, Total;
    CoverShortest(coins, amount);
    CoverShortest(coins, amount + p.fee);
  }

  /**
   The covering prefix is the shortest worth the amount, and the coins with room for a
   signature are the shortest prefix worth the amount and the fee.
   */
  lemma ShortestFundingPrefix(q: Request, coins: seq<Utxo>)
    requires q.feeRate > 0.0 && q.Run(coins).Ok? && q.amount != 0
    ensures var p := q.Plan(coins);
      && ShortestPrefix(coins, p.cover, q.amount)
      && ShortestPrefix(coins, p.cover + p.topUp, q.amount + p.fee)
  {
    hide *;
    PlanOfRun(q, coins);
    PlanPrefixes(coins, q.amount, q.Plan(coins));
  }

  lemma FundedIff(q: Request, coins: seq<Utxo>)
    requires q.feeRate > 0.0 && q.amount > 0 && NonNegative(coins)
    ensures Funded(q, coins) <==> q.amount + q.Plan(coins).fee <= Total(coins)
  {
    var k := CoverLength(coins, q.amount);
    FeePositive(q.feeRate, k, |q.destScript|);
    TotalRest(coins, k);
    TotalMonotone(coins, k, |coins|);
    assert coins[..|coins|] == coins;
    CoverIsFirst(coins, q.amount);
  }

  /**
   For a positive amount and non-negative coins with readable scripts, a run succeeds
   exactly when all coins together are worth the amount and the fee of the covering prefix.
   */
  lemma SelectionComplete(q: Request, coins: seq<Utxo>)
    requires q.feeRate > 0.0 && q.amount > 0
    requires NonNegative(coins) && Decodable(coins)
    ensures q.Run(coins).Ok? <==> q.amount + q.Plan(coins).fee <= Total(coins)
    ensures q.Run(coins).Ok? ==> q.Run(coins).value.txChangeAmt >= 0
  {
    Outcome(q, coins);
    FundedIff(q, coins);
    PickedDecodable(coins, q.Plan(coins));
    if Funded(q, coins) {
      PlanOf(q, coins);
      ChangeNonNegative(coins, q.amount, q.Plan(coins));
    }
  }

  lemma ChangeNonNegative(coins: seq<Utxo>, amount: int, p: Plan)
    requires PlanSums(coins, amount, p) && NonNegative(coins)
    ensures p.change >= 0
  {
    if amount != 0 {
      RestPositive(coins, p.cover);
      TotalMonotone(coins[p.cover..], 0, p.dust);
    }
  }

  lemma RestPositive(coins: seq<Utxo>, k: nat)
    requires k <= |coins|
    ensures NonNegative(coins) ==> NonNegative(coins[k..])
    ensures Positive(coins) ==> Positive(coins[k..])
  {
  }

  lemma PickedDecodable(coins: seq<Utxo>, p: Plan)
    requires p.Fits(coins) && Decodable(coins)
    ensures Decodable(p.Picked(coins))
  {
    forall i | 0 <= i < |p.Picked(coins)|
      ensures p.Picked(coins)[i].DecodeScript().Some?
    {
      var at := if i < p.cover + p.topUp then i else i - p.topUp;
      assert p.Picked(coins)[i] == coins[at];
    }
  }

  // ----- each coin once -----

  /**
   The request makes both later loops add coins: the fee needs more than the covering
   prefix, paying it leaves change at or below dust, and coins of positive value remain.
   */
  ghost predicate BothLoopsAdd(coins: seq<Utxo>, amount: int, fee: int) {
    var funded := Cover(coins, amount + fee);
    && amount != 0
    && Cover(coins, amount) < funded
    && 0 < ChangeAt(coins, funded, amount + fee) <= P2TR_DUST_AMT
    && Total(coins[funded..]) > 0
  }

  lemma BothLoopsAddIff(coins: seq<Utxo>, amount: int, p: Plan)
    requires PlanSums(coins, amount, p)
    ensures BothLoopsAdd(coins, amount, p.fee) <==> p.topUp > 0 && p.dust > 0
  {
    hide Total;
    TotalNone();
    if amount != 0 {
      var rest, funded := coins[p.cover..], p.cover + p.topUp;
      var change := ChangeAt(coins, funded, amount + p.fee);
      TotalRest(rest, p.topUp);
      assert rest[..0] == [] && rest[p.topUp..] == coins[funded..];
      CoverStep(rest, DustTarget(change, Total(coins[funded..])), 0);
    }
  }

  lemma StretchesRepeat(coins: seq<Utxo>, p: Plan)
    requires p.Fits(coins) && DistinctOutpoints(coins)
    ensures DistinctOutpoints(p.Picked(coins)) <==> p.topUp == 0 || p.dust == 0
    ensures p.Picked(coins) <= coins <==> p.topUp == 0 || p.dust == 0
  {
    var picked := p.Picked(coins);
    if p.topUp > 0 && p.dust > 0 {
      assert picked[p.cover] == coins[p.cover] == picked[p.cover + p.topUp];
    } else if p.topUp == 0 {
      assert picked == coins[..p.cover + p.dust];
    } else {
      assert picked == coins[..p.cover + p.topUp];
    }
  }

  /**
   The source means every coin to be used once. For distinct outpoints the inputs are a
   prefix of the coins without repetition exactly when the two later loops do not both
   add coins: the dust loop starts over at the first unmatched coin (leafy.go:623).
   */
  lemma EachCoinOnce(q: Request, coins: seq<Utxo>)
    requires q.feeRate > 0.0 && q.Run(coins).Ok? && DistinctOutpoints(coins)
    ensures var p := q.Plan(coins);
      && (DistinctOutpoints(p.Picked(coins)) <==> !BothLoopsAdd(coins, q.amount, p.fee))
      && (p.Picked(coins) <= coins <==> !BothLoopsAdd(coins, q.amount, p.fee))
  {
    PlanOfRun(q, coins);
    BothLoopsAddIff(coins, q.amount, q.Plan(coins));
    StretchesRepeat(coins, q.Plan(coins));
  }

  // ----- what a dust flag means -----

  /** Every coin is an input. */
  predicate AllSpent(p: Plan, coins: seq<Utxo>) {
    p.cover + p.topUp == |coins| || p.cover + p.dust == |coins|
  }

  /** With dust change at the end, the dust loop stopped because nothing was left. */
  lemma DustExit(rest: seq<Utxo>, change: int, left: int)
    requires change > 0 && 0 <= left <= Total(rest)
    requires change + Total(rest[..Cover(rest, DustTarget(change, left))]) <= P2TR_DUST_AMT
    ensures var d := Cover(rest, DustTarget(change, left));
      Total(rest[..d]) >= left && forall m :: 0 <= m < d ==> Total(rest[..m]) < left
  {
    CoverIsFirst(rest, DustTarget(change, left));
    assert rest[..|rest|] == rest;
  }

  lemma LastCoinDecides(rest: seq<Utxo>, j: nat, d: nat)
    requires Positive(rest) && j < |rest| && 0 < d <= |rest|
    requires Total(rest[..d]) >= Total(rest) - Total(rest[..j])
    requires forall m :: 0 <= m < d ==> Total(rest[..m]) < Total(rest) - Total(rest[..j])
    ensures d == |rest| <==> rest[|rest| - 1].amount > Total(rest[..j])
  {
    hide Total;
    var last := |rest| - 1;
    TakeNext(rest, last);
    assert rest[..last + 1] == rest && rest[..|rest|] == rest;
    if d < |rest| {
      TotalMonotone(rest, d, last);
    }
  }

  lemma DustStretches(rest: seq<Utxo>, j: nat, d: nat, change: int)
    requires Positive(rest) && j <= |rest| && change > 0
    requires d == Cover(rest, DustTarget(change, Total(rest[j..])))
    requires change + Total(rest[..d]) <= P2TR_DUST_AMT
    ensures j == 0 || d == 0 ==> j == |rest| || d == |rest|
    ensures j > 0 && d > 0 ==>
      (j == |rest| || d == |rest| <==> rest[|rest| - 1].amount > Total(rest[..j]))
  {
    var left := Total(rest[j..]);
    assert rest[..|rest|] == rest && rest[..0] == [];
    TotalRest(rest, j);
    TotalMonotone(rest, 0, j);
    TotalMonotone(rest, j, |rest|);
    TotalMonotone(rest, d, |rest|);
    DustExit(rest, change, left);
    if j > 0 && d > 0 {
      assert Total(rest[..0]) < left;
      LastCoinDecides(rest, j, d);
    }
  }

  lemma DustPlan(coins: seq<Utxo>, amount: int, p: Plan)
    requires PlanSums(coins, amount, p) && Positive(coins) && 0 < p.change <= P2TR_DUST_AMT
    ensures p.topUp == 0 || p.dust == 0 ==> AllSpent(p, coins)
    ensures p.topUp > 0 && p.dust > 0 ==>
      (AllSpent(p, coins) <==> coins[|coins| - 1].amount > Total(coins[p.cover..][..p.topUp]))
  {
    hide Cover, Total;
    TotalNone();
    var rest, funded := coins[p.cover..], p.cover + p.topUp;
    RestPositive(coins, p.cover);
    assert rest[p.topUp..] == coins[funded..] && rest[..0] == [];
    assert rest != [] ==> rest[|rest| - 1] == coins[|coins| - 1];
    DustStretches(rest, p.topUp, p.dust, ChangeAt(coins, funded, amount + p.fee));
  }

  /**
   `IsChangeDust` on positive coins: unless both later loops added coins, every coin is
   an input; when both did, every coin is an input exactly when the last coin is worth
   more than all the coins the fee loop added.
   */
  lemma DustChangeMeansAllSpent(q: Request, coins: seq<Utxo>)
    requires q.feeRate > 0.0 && q.Run(coins).Ok? && q.Run(coins).value.IsChangeDust() && Positive(coins)
    ensures var p := q.Plan(coins);
      if BothLoopsAdd(coins, q.amount, p.fee) then
        AllSpent(p, coins) <==> coins[|coins| - 1].amount > Total(coins[p.cover..][..p.topUp])
      else AllSpent(p, coins)
  {
    PlanOfRun(q, coins);
    var p := q.Plan(coins);
    ChangeNonNegative(coins, q.amount, p);
    BothLoopsAddIff(coins, q.amount, p);
    DustPlan(coins, q.amount, p);
  }

  // ----- when the dust flag is up -----

  /** The dust loop ends at dust exactly when the coins it has to run through do not lift the change above it. */
  lemma DustStays(rest: seq<Utxo>, change: int, left: int)
    requires NonNegative(rest) && change > 0 && 0 <= left <= Total(rest)
    ensures change + Total(rest[..Cover(rest, DustTarget(change, left))]) <= 330
       <==> change + Total(rest[..Cover(rest, left)]) <= 330
  {
    CoverIsFirst(rest, DustTarget(change, left));
    CoverIsFirst(rest, left);
    assert rest[..|rest|] == rest;
    hide Cover, Total;
    if DustTarget(change, left) != left {
      assert DustTarget(change, left) == 331 - change <= left;
    }
  }

  /** The request leaves dust: change there is, and running through as many coins as are left does not lift it. */
  ghost predicate LeavesDust(coins: seq<Utxo>, amount: int, fee: int) {
    var funded, rest := Cover(coins, amount + fee), coins[Cover(coins, amount)..];
    var change := Total(coins[..funded]) - (amount + fee);
    && 0 < change
    && change + Total(rest[..Cover(rest, Total(coins[funded..]))]) <= 330
  }

  lemma DustPlanIff(coins: seq<Utxo>, amount: int, p: Plan)
    requires PlanSums(coins, amount, p) && amount != 0 && NonNegative(coins)
    ensures LeavesDust(coins, amount, p.fee) <==> p.changeOutput && p.change <= 330
    ensures p.changeOutput ==> p.change > 0
    ensures !p.changeOutput ==> p.change == 0
  {
    hide Cover, Total;
    TotalNone();
    var rest, funded := coins[p.cover..], p.cover + p.topUp;
    var change, left := ChangeAt(coins, funded, amount + p.fee), Total(coins[funded..]);
    RestPositive(coins, p.cover);
    RestPositive(coins, funded);
    assert rest[..0] == [] && rest[p.topUp..] == coins[funded..] && rest[..|rest|] == rest;
    TotalRest(rest, p.topUp);
    TotalMonotone(rest, 0, p.topUp);
    TotalMonotone(rest, 0, p.dust);
    assert coins[funded..][..|coins[funded..]|] == coins[funded..];
    TotalMonotone(coins[funded..], 0, |coins[funded..]|);
    if change > 0 {
      DustStays(rest, change, left);
    }
  }

  /**
   `IsChangeDust` for a payment from non-negative coins: the flag is up exactly when there is
   a second output worth at most 330, and the request tells beforehand when.
   */
  lemma DustFlagIff(q: Request, coins: seq<Utxo>)
    requires q.feeRate > 0.0 && q.amount > 0 && q.Run(coins).Ok? && NonNegative(coins)
    ensures var info := q.Run(coins).value;
      && (info.IsChangeDust() <==> |info.msgTx.txOut| == 2 && info.msgTx.txOut[1].value <= 330)
      && (info.IsChangeDust() <==> LeavesDust(coins, q.amount, q.Plan(coins).fee))
  {
    PlanOfRun(q, coins);
    ValueConserved(q, coins);
    var info, p := q.Run(coins).value, q.Plan(coins);
    DustPlanIff(coins, q.amount, p);
    hide Request.Run, Request.Plan, Plan.Picked, Total, OutputSum, Cover, LeavesDust, PlanSums;
    SecondOutput(q, coins);
  }

  lemma SecondOutput(q: Request, coins: seq<Utxo>)
    requires q.feeRate > 0.0 && q.Run(coins).Ok?
    ensures var info, p := q.Run(coins).value, q.Plan(coins);
      && (|info.msgTx.txOut| == 2 <==> p.changeOutput)
      && (p.changeOutput ==> info.msgTx.txOut[1].value == p.change)
  {
    Outcome(q, coins);
    hide Request.Run, Request.Plan, Plan.Picked, Total, Shaped, Funded, Decodable;
  }

  /** Unless both later loops add coins, the flag is up exactly when there is change and all coins leave dust. */
  lemma DustFlagPlainly(q: Request, coins: seq<Utxo>)
    requires q.feeRate > 0.0 && q.amount > 0 && q.Run(coins).Ok? && NonNegative(coins)
    requires !BothLoopsAdd(coins, q.amount, q.Plan(coins).fee)
    ensures var need := q.amount + q.Plan(coins).fee;
      q.Run(coins).value.IsChangeDust()
      <==> Total(coins[..Cover(coins, need)]) > need && Total(coins) - need <= 330
  {
    hide *;
    DustFlagIff(q, coins);
    PlanOfRun(q, coins);
    DustPlainly(coins, q.amount, q.Plan(coins));
  }

  lemma DustPlainly(coins: seq<Utxo>, amount: int, p: Plan)
    requires PlanSums(coins, amount, p) && amount != 0 && NonNegative(coins)
    requires !BothLoopsAdd(coins, amount, p.fee)
    ensures var need := amount + p.fee;
      LeavesDust(coins, amount, p.fee)
      <==> Total(coins[..Cover(coins, need)]) > need && Total(coins) - need <= 330
  {
    hide Cover, Total;
    TotalNone();
    var rest, funded := coins[p.cover..], p.cover + p.topUp;
    var left := Total(coins[funded..]);
    RestPositive(coins, p.cover);
    RestPositive(coins, funded);
    TotalRest(coins, funded);
    assert rest[..|rest|] == rest && rest[..0] == [];
    assert coins[funded..][..|coins[funded..]|] == coins[funded..] && coins[funded..][..0] == [];
    TotalMonotone(coins[funded..], 0, |coins[funded..]|);
    CoverIsFirst(rest, left);
    var c := Cover(rest, left);
    if p.topUp == 0 {
      assert rest == coins[funded..];
      TotalMonotone(rest, c, |rest|);
    } else {
      TotalMonotone(rest, 0, c);
      assert left == 0 ==> c == 0;
    }
  }

  // ----- 64-bit amounts -----

  /** All bitcoin that can exist, in satoshi. */
  const MAX_SUPPLY: int := 2_100_000_000_000_000
  const MAX_INT64: int := 0x7FFF_FFFF_FFFF_FFFF

  lemma PickedBounded(coins: seq<Utxo>, p: Plan, m: nat)
    requires p.Fits(coins) && NonNegative(coins) && m <= |p.Picked(coins)|
    ensures 0 <= Total(p.Picked(coins)[..m]) <= Total(p.Picked(coins)) <= 2 * Total(coins)
  {
    hide Total;
    var picked, rest := p.Picked(coins), coins[p.cover..];
    assert picked[..|picked|] == picked && coins[..|coins|] == coins && rest[..|rest|] == rest;
    PickedTotal(coins, p);
    TotalRest(coins, p.cover);
    RestPositive(coins, p.cover);
    TotalMonotone(picked, m, |picked|);
    TotalMonotone(coins, p.cover, |coins|);
    TotalMonotone(coins, p.cover + p.topUp, |coins|);
    TotalMonotone(rest, p.dust, |rest|);
  }

  predicate FitsInt64(x: int) {
    -MAX_INT64 - 1 <= x <= MAX_INT64
  }

  /**
   The counters of the three loops, once `j` coins were added for the fee and `d` against
   dust on top of a covering prefix of `k` coins: what is matched, and what is unmatched,
   which the dust loop can make negative.
   */
  lemma LoopSumsBounded(coins: seq<Utxo>, k: nat, j: nat, d: nat)
    requires NonNegative(coins) && k + j <= |coins| && k + d <= |coins|
    ensures 0 <= Total(coins[..k]) <= Total(coins[..k + j]) <= Total(coins)
    ensures 0 <= Total(coins[k..][..j]) <= Total(coins[k..]) <= Total(coins)
    ensures 0 <= Total(coins[k..][..d]) <= Total(coins[k..])
  {
    hide Total;
    var rest := coins[k..];
    assert coins[..|coins|] == coins && rest[..|rest|] == rest;
    RestPositive(coins, k);
    TotalRest(coins, k);
    TotalMonotone(coins, k, k + j);
    TotalMonotone(coins, k + j, |coins|);
    TotalMonotone(rest, j, |rest|);
    TotalMonotone(rest, d, |rest|);
  }

  /**
   The source keeps amounts in 64-bit integers. With coins that exist and a fee that is such
   an integer itself, nothing it computes on the way leaves them, whatever the outcome:
   neither the counters of the first loop at any coin, nor those of the later loops, nor the
   sums formed with amount and fee.
   */
  lemma AmountsFitInt64(q: Request, coins: seq<Utxo>, m: nat, n: nat, j: nat, d: nat)
    requires q.feeRate > 0.0 && 0 <= q.amount && 0 < q.Plan(coins).fee <= MAX_INT64
    requires NonNegative(coins) && Total(coins) <= MAX_SUPPLY
    requires m <= q.Plan(coins).cover <= n <= |coins|
    requires q.Plan(coins).cover + j <= |coins| && q.Plan(coins).cover + d <= |coins|
    ensures FitsInt64(Total(coins[..m])) && FitsInt64(Total(coins[q.Plan(coins).cover..n]))
    ensures
      var k, fee := q.Plan(coins).cover, q.Plan(coins).fee;
      var have, left := Total(coins[..k]), Total(coins[k..]);
      var topUp, dust := Total(coins[k..][..j]), Total(coins[k..][..d]);
      && FitsInt64(have + topUp + dust) && FitsInt64(left - topUp - dust)
      && FitsInt64(have - fee)
      && (have >= q.amount ==>
            && FitsInt64(have - q.amount)
            && FitsInt64(fee - (have - q.amount)) && FitsInt64(topUp + dust - (fee - (have - q.amount))))
  {
    hide *;
    var k := q.Plan(coins).cover;
    FirstLoopFits(coins, k, m, n);
    LoopSumsBounded(coins, k, j, d);
    TotalRest(coins, k);
    SumsFit(Total(coins[..k]), Total(coins[k..]), Total(coins[k..][..j]), Total(coins[k..][..d]), q.amount,
            q.Plan(coins).fee);
  }

  /** Matched after `m` coins, and unmatched after `n`. */
  lemma FirstLoopFits(coins: seq<Utxo>, k: nat, m: nat, n: nat)
    requires NonNegative(coins) && Total(coins) <= MAX_SUPPLY && m <= k <= n <= |coins|
    ensures FitsInt64(Total(coins[..m])) && FitsInt64(Total(coins[k..n]))
  {
    hide Total;
    assert coins[..|coins|] == coins && coins[k..][..n - k] == coins[k..n];
    LoopSumsBounded(coins, k, n - k, 0);
    TotalMonotone(coins, m, |coins|);
  }

  lemma SumsFit(have: int, left: int, topUp: int, dust: int, amount: int, fee: int)
    requires 0 <= have && 0 <= topUp <= left && 0 <= dust <= left && have + left <= MAX_SUPPLY
    requires 0 <= amount && 0 < fee <= MAX_INT64
    ensures FitsInt64(have + topUp + dust) && FitsInt64(left - topUp - dust) && FitsInt64(have - fee)
    ensures have >= amount ==>
      && FitsInt64(have - amount)
      && FitsInt64(fee - (have - amount)) && FitsInt64(topUp + dust - (fee - (have - amount)))
  {
  }

  /** A payment's input, fee and change, for every successful run. */
  lemma ResultFitsInt64(q: Request, coins: seq<Utxo>)
    requires q.feeRate > 0.0 && q.amount > 0 && q.Run(coins).Ok?
    requires NonNegative(coins) && Total(coins) <= MAX_SUPPLY
    ensures var info := q.Run(coins).value;
      && 0 < info.txFeeAmt <= MAX_SUPPLY && 0 <= info.txChangeAmt < info.txInputAmt <= 2 * MAX_SUPPLY < MAX_INT64
  {
    hide *;
    PlanOfRun(q, coins);
    ValueConserved(q, coins);
    var p, info := q.Plan(coins), q.Run(coins).value;
    PickedBounded(coins, p, |p.Picked(coins)|);
    ChangeNonNegative(coins, q.amount, p);
    FeeOfRun(q, coins);
    FeeWithinTotal(q, coins);
    InputFromBalance(info, p.Picked(coins), q.amount, q.destScript, q.changeScript);
    SupplySmall();
  }

  lemma SupplySmall()
    ensures 2 * MAX_SUPPLY < MAX_INT64
  {
  }

  lemma FeeWithinTotal(q: Request, coins: seq<Utxo>)
    requires q.feeRate > 0.0 && q.amount > 0 && q.Run(coins).Ok? && NonNegative(coins)
    ensures q.Plan(coins).fee < Total(coins)
  {
    hide Request.Run, Request.Plan, Total, NonNegative;
    FundedIff(q, coins);
    Outcome(q, coins);
  }

  lemma InputFromBalance(info: TransactionInfo, picked: seq<Utxo>, amount: int, destScript: Bytes, changeScript: Bytes)
    requires Balanced(info, picked, amount, destScript, changeScript)
    ensures info.txInputAmt == Total(picked)
    ensures amount != 0 ==> info.txChangeAmt == info.txInputAmt - info.txFeeAmt - amount
  {
    hide Total, OutputSum;
  }

  lemma FeeOfRun(q: Request, coins: seq<Utxo>)
    requires q.feeRate > 0.0 && q.Run(coins).Ok?
    ensures q.Run(coins).value.txFeeAmt == q.Plan(coins).fee > 0
  {
    Outcome(q, coins);
    PlanOf(q, coins);
  }
}
