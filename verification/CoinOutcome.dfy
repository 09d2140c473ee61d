/** The shape of every outcome of `CreateTransaction`, for any coins. */
module CoinOutcome {
  import opened Prelude
  import opened Chain
  import opened CoinSelection
  import Text

  ghost predicate NonNegative(coins: seq<Utxo>) {
    forall i :: 0 <= i < |coins| ==> coins[i].amount >= 0
  }

  ghost predicate Positive(coins: seq<Utxo>) {
    forall i :: 0 <= i < |coins| ==> coins[i].amount > 0
  }

  ghost predicate DistinctOutpoints(coins: seq<Utxo>) {
    forall i, j :: 0 <= i < j < |coins| ==> coins[i].outpoint != coins[j].outpoint
  }

  // ----- sums -----

  lemma TotalNone()
    ensures Total([]) == 0
  {
  }

  lemma {:induction false} TotalAppend(a: seq<Utxo>, b: seq<Utxo>)
    ensures Total(a + b) == Total(a) + Total(b)
  {
    if b == [] {
      assert a + b == a;
    } else {
      TotalAppend(a, b[..|b| - 1]);
      assert (a + b)[..|a + b| - 1] == a + b[..|b| - 1];
    }
  }

  lemma SlicesJoin(coins: seq<Utxo>, i: nat, j: nat)
    requires i + j <= |coins|
    ensures coins[..i] + coins[i..][..j] == coins[..i + j]
  {
  }

  lemma TotalSplit(coins: seq<Utxo>, i: nat, j: nat)
    requires i + j <= |coins|
    ensures Total(coins[..i + j]) == Total(coins[..i]) + Total(coins[i..][..j])
  {
    hide Total;
    SlicesJoin(coins, i, j);
    TotalAppend(coins[..i], coins[i..][..j]);
  }

  lemma TotalRest(coins: seq<Utxo>, i: nat)
    requires i <= |coins|
    ensures Total(coins) == Total(coins[..i]) + Total(coins[i..])
  {
    hide Total;
    TotalAppend(coins[..i], coins[i..]);
    assert coins[..i] + coins[i..] == coins;
  }

  lemma {:induction false} TotalMonotone(coins: seq<Utxo>, i: nat, j: nat)
    requires NonNegative(coins) && i <= j <= |coins|
    ensures 0 <= Total(coins[..i]) <= Total(coins[..j])
    ensures Positive(coins) && i < j ==> Total(coins[..i]) < Total(coins[..j])
    decreases j
  {
    hide Total;
    if i < j {
      TakeNext(coins, j - 1);
      TotalMonotone(coins, i, j - 1);
    } else if i > 0 {
      TakeNext(coins, i - 1);
      TotalMonotone(coins, i - 1, i - 1);
    } else {
      TotalNone();
      assert coins[..0] == [];
    }
  }

  // ----- the selected plan -----

  /** The weight priced for `k` blank inputs and one output whose script has `scriptLength` bytes. */
  function PricedWeight(k: nat, scriptLength: nat): nat {
    4 * (8 + VarIntSize(k) + VarIntSize(1) + INPUT_SIZE * k + 8 + VarIntSize(scriptLength) + scriptLength)
    + if k == 0 then 0 else 2 + 66 * k
  }

  function PricedFee(coins: seq<Utxo>, amount: int, scriptLength: nat, feeRate: real): int {
    Fee(feeRate, PricedWeight(CoverLength(coins, amount), scriptLength))
  }

  function SelectedPlan(coins: seq<Utxo>, amount: int, scriptLength: nat, feeRate: real): (p: Plan)
    ensures p.Fits(coins) && p.cover == CoverLength(coins, amount)
  {
    var k := CoverLength(coins, amount);
    PlanFrom(k, Total(coins[..k]), coins[k..], amount, PricedFee(coins, amount, scriptLength, feeRate))
  }

  /** Room for one signature: 64 zero bytes. */
  predicate BlankSignature(b: Bytes) {
    |b| == 64 && forall j :: 0 <= j < 64 ==> b[j] == 0
  }

  /** The input for a coin, its sequence 0 and its witness blank or empty. */
  predicate InputFor(txin: TxIn, coin: Utxo, blank: bool) {
    && txin.previousOutPoint == coin.outpoint
    && txin.sequence == 0
    && if blank then |txin.witnessStack| == 1 && BlankSignature(txin.witnessStack[0]) else txin.witnessStack == []
  }

  /** `coin` is what the three maps hold for outpoint `o`. */
  ghost predicate Holds(d: Draft, o: OutPoint, coin: Utxo) {
    && o == coin.outpoint
    && o in d.outpointToAddr && d.outpointToAddr[o] == coin.fromAddress
    && o in d.outpointToAmt && d.outpointToAmt[o] == coin.amount
    && o in d.outpointToScript && coin.DecodeScript() == Some(d.outpointToScript[o])
  }

  /** The maps answer for exactly the outpoints of `picked`, each from one of the coins. */
  ghost predicate Remembers(d: Draft, picked: seq<Utxo>) {
    && (forall i :: 0 <= i < |picked| ==> picked[i].outpoint in d.outpointToAddr)
    && (forall o :: o in d.outpointToAddr ==> exists i :: 0 <= i < |picked| && Holds(d, o, picked[i]))
  }

  /** The inputs and maps of a draft whose first `blanks` inputs have room for a signature. */
  ghost predicate Shaped(d: Draft, picked: seq<Utxo>, blanks: nat) {
    && |d.txIn| == |picked|
    && (forall i :: 0 <= i < |picked| ==> InputFor(d.txIn[i], picked[i], i < blanks))
    && Remembers(d, picked)
  }

  lemma ShapedRemembers(d: Draft, picked: seq<Utxo>, blanks: nat, o: OutPoint)
    requires Shaped(d, picked, blanks) && o in d.outpointToAddr
    ensures exists i :: 0 <= i < |picked| && Holds(d, o, picked[i])
  {
    hide Holds, InputFor;
  }

  lemma ShapedOutpoint(d: Draft, picked: seq<Utxo>, blanks: nat, i: nat)
    requires Shaped(d, picked, blanks) && i < |picked|
    ensures |d.txIn| == |picked|
    ensures d.txIn[i].previousOutPoint == picked[i].outpoint && picked[i].outpoint in d.outpointToAddr
  {
    assert InputFor(d.txIn[i], picked[i], i < blanks);
    hide Utxo.DecodeScript;
  }

  /** The added coin is held under its outpoint, and every other outpoint as before. */
  lemma AddHolds(d: Draft, coin: Utxo, blank: bool, o: OutPoint, other: Utxo)
    requires d.Add(coin, blank).Some?
    ensures var e := d.Add(coin, blank).value;
      && Holds(e, coin.outpoint, coin)
      && (o != coin.outpoint && Holds(d, o, other) ==> Holds(e, o, other))
      && e.outpointToAddr == d.outpointToAddr[coin.outpoint := coin.fromAddress]
  {
    hide Text.HexDecode;
  }

  lemma AddSource(d: Draft, picked: seq<Utxo>, coin: Utxo, blank: bool, o: OutPoint) returns (i: nat)
    requires Remembers(d, picked) && d.Add(coin, blank).Some? && o in d.Add(coin, blank).value.outpointToAddr
    ensures i < |picked + [coin]| && Holds(d.Add(coin, blank).value, o, (picked + [coin])[i])
  {
    hide Draft.Add, Holds, Utxo.DecodeScript;
    AddHolds(d, coin, blank, o, coin);
    i := |picked|;
    if o != coin.outpoint {
      i :| 0 <= i < |picked| && Holds(d, o, picked[i]);
      AddHolds(d, coin, blank, o, picked[i]);
    }
  }

  lemma AddRemembers(d: Draft, picked: seq<Utxo>, coin: Utxo, blank: bool)
    requires Remembers(d, picked) && d.Add(coin, blank).Some?
    ensures Remembers(d.Add(coin, blank).value, picked + [coin])
  {
    hide Draft.Add, Holds, Utxo.DecodeScript;
    var e := d.Add(coin, blank).value;
    var all := picked + [coin];
    AddHolds(d, coin, blank, coin.outpoint, coin);
    forall o | o in e.outpointToAddr
      ensures exists i :: 0 <= i < |all| && Holds(e, o, all[i])
    {
      var i := AddSource(d, picked, coin, blank, o);
    }
    AddOutpoints(d, picked, coin);
  }

  lemma AddOutpoints(d: Draft, picked: seq<Utxo>, coin: Utxo)
    requires forall i :: 0 <= i < |picked| ==> picked[i].outpoint in d.outpointToAddr
    ensures var all, known := picked + [coin], d.outpointToAddr[coin.outpoint := coin.fromAddress];
      forall i :: 0 <= i < |all| ==> all[i].outpoint in known
  {
  }

  lemma AddInputs(d: Draft, picked: seq<Utxo>, blanks: nat, coin: Utxo, blank: bool)
    requires |d.txIn| == |picked| && blanks <= |picked| && (blank ==> blanks == |picked|)
    requires forall i :: 0 <= i < |picked| ==> InputFor(d.txIn[i], picked[i], i < blanks)
    requires d.Add(coin, blank).Some?
    ensures var ins, all, b := d.Add(coin, blank).value.txIn, picked + [coin], if blank then blanks + 1 else blanks;
      && |ins| == |all|
      && forall i :: 0 <= i < |all| ==> InputFor(ins[i], all[i], i < b)
  {
    var ins := d.Add(coin, blank).value.txIn;
    assert ins == d.txIn + [if blank then BlankInput(coin) else BareInput(coin)];
    assert InputFor(ins[|picked|], coin, blank);
    hide InputFor, BlankInput, BareInput, Draft.Add, Utxo.DecodeScript;
  }

  lemma AddShaped(d: Draft, picked: seq<Utxo>, blanks: nat, coin: Utxo, blank: bool)
    requires Shaped(d, picked, blanks) && blanks <= |picked|
    requires blank ==> blanks == |picked|
    requires d.Add(coin, blank).Some?
    ensures Shaped(d.Add(coin, blank).value, picked + [coin], if blank then blanks + 1 else blanks)
  {
    hide Remembers, InputFor, Draft.Add;
    AddInputs(d, picked, blanks, coin, blank);
    AddRemembers(d, picked, coin, blank);
  }

  lemma {:induction false} ExtendShaped(d: Draft, picked: seq<Utxo>, blanks: nat, coins: seq<Utxo>, blank: bool)
    requires Shaped(d, picked, blanks) && blanks <= |picked|
    requires blank ==> blanks == |picked|
    ensures Extend(Some(d), coins, blank).Some? <==> Decodable(coins)
    ensures Decodable(coins) ==>
      Shaped(Extend(Some(d), coins, blank).value, picked + coins, if blank then blanks + |coins| else blanks)
  {
    hide Shaped, Decodable, Text.HexDecode;
    if coins == [] {
      assert picked + coins == picked;
      DecodableNone();
    } else {
      var init, last := coins[..|coins| - 1], coins[|coins| - 1];
      ExtendShaped(d, picked, blanks, init, blank);
      DecodableSnoc(init, last);
      assert coins == init + [last];
      if Decodable(coins) {
        var e := Extend(Some(d), init, blank).value;
        AddShaped(e, picked + init, if blank then blanks + |init| else blanks, last, blank);
        assert picked + init + [last] == picked + coins;
      }
    }
  }

  lemma DecodableNone()
    ensures Decodable([])
  {
  }

  lemma DecodableSnoc(coins: seq<Utxo>, coin: Utxo)
    ensures Decodable(coins + [coin]) <==> Decodable(coins) && coin.DecodeScript().Some?
  {
    if Decodable(coins + [coin]) {
      assert (coins + [coin])[|coins|] == coin;
      assert forall i :: 0 <= i < |coins| ==> coins[i] == (coins + [coin])[i];
    }
  }

  lemma DecodableParts(a: seq<Utxo>, b: seq<Utxo>)
    ensures Decodable(a + b) <==> Decodable(a) && Decodable(b)
  {
    if Decodable(a + b) {
      assert forall i :: 0 <= i < |a| ==> a[i] == (a + b)[i];
      assert forall i :: 0 <= i < |b| ==> b[i] == (a + b)[|a| + i];
    }
  }

  lemma CoverDraftShaped(coins: seq<Utxo>)
    ensures CoverDraft(coins).Some? <==> Decodable(coins)
    ensures Decodable(coins) ==> Shaped(CoverDraft(coins).value, coins, |coins|)
  {
    ExtendShaped(EMPTY_DRAFT, [], 0, coins, true);
    assert [] + coins == coins;
  }

  lemma PricedAt(d: Draft, coins: seq<Utxo>, amount: int, destScript: Bytes)
    requires Shaped(d, coins, |coins|)
    ensures Weight(PricedTx(d, amount, destScript)) == PricedWeight(|coins|, |destScript|)
  {
    var tx := PricedTx(d, amount, destScript);
    assert UniformWitness(tx.txIn, 66) by {
      forall i | 0 <= i < |tx.txIn|
        ensures tx.txIn[i].witnessStack != [] && WitnessSize(tx.txIn[i].witnessStack) == 66
      {
        assert InputFor(d.txIn[i], coins[i], true);
        OneItemWitness(d.txIn[i].witnessStack[0]);
        assert d.txIn[i].witnessStack == [d.txIn[i].witnessStack[0]];
      }
    }
    UniformWeight(tx, 66);
    OneOutput(TxOut(amount, destScript));
  }

  lemma PickedParts(coins: seq<Utxo>, p: Plan)
    requires p.Fits(coins)
    ensures p.Picked(coins) == coins[..p.cover] + coins[p.cover..][..p.topUp] + coins[p.cover..][..p.dust]
  {
    SlicesJoin(coins, p.cover, p.topUp);
    assert coins[p.cover..p.cover + p.dust] == coins[p.cover..][..p.dust];
  }

  lemma PlanDraftIs(covering: Draft, rest: seq<Utxo>, p: Plan)
    requires p.topUp <= |rest| && p.dust <= |rest|
    ensures PlanDraft(covering, rest, p) == Extend(Extend(Some(covering), rest[..p.topUp], true), rest[..p.dust], false)
  {
  }

  lemma PlanDraftShaped(coins: seq<Utxo>, p: Plan, covering: Draft)
    requires p.Fits(coins) && Shaped(covering, coins[..p.cover], p.cover)
    requires Decodable(coins[..p.cover])
    ensures PlanDraft(covering, coins[p.cover..], p).Some? <==> Decodable(p.Picked(coins))
    ensures Decodable(p.Picked(coins)) ==>
      Shaped(PlanDraft(covering, coins[p.cover..], p).value, p.Picked(coins), p.cover + p.topUp)
  {
    var a, b, c := coins[..p.cover], coins[p.cover..][..p.topUp], coins[p.cover..][..p.dust];
    hide *;
    PickedParts(coins, p);
    PlanDraftIs(covering, coins[p.cover..], p);
    DecodableParts(a + b, c);
    DecodableParts(a, b);
    ExtendShaped(covering, a, p.cover, b, true);
    if Decodable(b) {
      ExtendShaped(Extend(Some(covering), b, true).value, a + b, p.cover + p.topUp, c, false);
    } else {
      NothingToExtend(c, false);
    }
  }

  // ----- outcomes -----

  /** Both addresses are supported and the fee rate is positive. */
  datatype Request = Request(changeScript: Bytes, destScript: Bytes, amount: int, feeRate: real) {
    function Run(coins: seq<Utxo>): Result<TransactionInfo, CreateError> {
      Create(coins, Some(changeScript), Some(destScript), amount, feeRate)
    }

    function Plan(coins: seq<Utxo>): (p: Plan)
      ensures p.Fits(coins) && p.cover == CoverLength(coins, amount)
    {
      SelectedPlan(coins, amount, |destScript|, feeRate)
    }

    /** What the fee still lacks once the covering prefix is in. */
    function Short(coins: seq<Utxo>): int {
      amount + Plan(coins).fee - Total(coins[..Plan(coins).cover])
    }
  }

  /** The coins are worth the amount, and either spend-all or enough remains for the fee. */
  predicate Funded(q: Request, coins: seq<Utxo>) {
    var k := CoverLength(coins, q.amount);
    && Total(coins[..k]) >= q.amount
    && (q.amount == 0 || q.Short(coins) <= 0 || q.Short(coins) <= Total(coins[k..]))
  }

  /** Once the covering prefix is decoded, the outcome rests on the fee. */
  lemma CompleteOutcome(q: Request, coins: seq<Utxo>, covering: Draft)
    requires Shaped(covering, coins[..q.Plan(coins).cover], q.Plan(coins).cover)
    requires Decodable(coins[..q.Plan(coins).cover]) && Total(coins[..q.Plan(coins).cover]) >= q.amount
    ensures
      var p := q.Plan(coins);
      var r := Complete(covering, p.cover, Total(coins[..p.cover]), coins[p.cover..], q.amount, p.fee,
                        q.destScript, q.changeScript);
      && (r.Ok? <==> Funded(q, coins) && Decodable(p.Picked(coins)))
      && (r.Err? && Funded(q, coins) ==> r.error == InvalidScript)
      && (r.Err? && r.error == InvalidScript ==> !Decodable(p.Picked(coins)))
      && (r.Ok? ==>
            var d := PlanDraft(covering, coins[p.cover..], p).value;
            && Shaped(d, p.Picked(coins), p.cover + p.topUp)
            && r.value == Build(d, p, Total(coins[..p.cover]), coins[p.cover..], q.amount,
                                q.destScript, q.changeScript))
  {
    hide *;
    var p := q.Plan(coins);
    PlanIs(q, coins);
    CompleteIs(covering, p.cover, Total(coins[..p.cover]), coins[p.cover..], q.amount, p.fee,
               q.destScript, q.changeScript);
    PlanDraftShaped(coins, p, covering);
    FundedIs(q, coins);
  }

  lemma CompleteIs(covering: Draft, k: nat, have: int, rest: seq<Utxo>, amount: int, fee: int,
                   destScript: Bytes, changeScript: Bytes)
    ensures
      var p, short := PlanFrom(k, have, rest, amount, fee), amount + fee - have;
      Complete(covering, k, have, rest, amount, fee, destScript, changeScript)
      == if amount != 0 && short > 0 && short > Total(rest) then Err(InsufficientFundsForFees(short, Total(rest)))
         else match PlanDraft(covering, rest, p)
           case None => Err(InvalidScript)
           case Some(draft) => Ok(Build(draft, p, have, rest, amount, destScript, changeScript))
  {
    hide PlanFrom, PlanDraft, Build, Total;
  }

  lemma PlanIs(q: Request, coins: seq<Utxo>)
    ensures var p := q.Plan(coins);
      p == PlanFrom(p.cover, Total(coins[..p.cover]), coins[p.cover..], q.amount, p.fee)
  {
    hide CoverLength, Total, PricedFee, TopUpLength, DustLength, FirstChange;
  }

  lemma FundedIs(q: Request, coins: seq<Utxo>)
    ensures var p := q.Plan(coins); var short := q.amount + p.fee - Total(coins[..p.cover]);
      Funded(q, coins)
      <==> Total(coins[..p.cover]) >= q.amount && (q.amount == 0 || short <= 0 || short <= Total(coins[p.cover..]))
  {
    hide SelectedPlan, Total, CoverLength;
  }

  lemma RunSteps(q: Request, coins: seq<Utxo>)
    requires q.feeRate > 0.0 && Total(coins[..q.Plan(coins).cover]) >= q.amount
    ensures var p := q.Plan(coins);
      q.Run(coins) ==
      match CoverDraft(coins[..p.cover])
      case None => Err(InvalidScript)
      case Some(covering) =>
        Complete(covering, p.cover, Total(coins[..p.cover]), coins[p.cover..],
                 q.amount, p.fee, q.destScript, q.changeScript)
  {
    var cover := coins[..q.Plan(coins).cover];
    CoverDraftShaped(cover);
    if Decodable(cover) {
      PricedAt(CoverDraft(cover).value, cover, q.amount, q.destScript);
    }
  }

  /**
   Every outcome: the run succeeds exactly when the coins suffice and every picked
   script is hexadecimal, and then the inputs and maps are those of the picked coins.
   */
  lemma Outcome(q: Request, coins: seq<Utxo>)
    requires q.feeRate > 0.0
    ensures var r, p := q.Run(coins), q.Plan(coins);
      && (r.Ok? <==> Funded(q, coins) && Decodable(p.Picked(coins)))
      && (r.Err? && Funded(q, coins) ==> r.error == InvalidScript)
      && (r.Err? && r.error == InvalidScript ==> !Decodable(p.Picked(coins)))
      && (r.Ok? ==>
            var d := Draft(r.value.msgTx.txIn, r.value.outpointToAddr, r.value.outpointToAmt,
                           r.value.outpointToScript);
            && Shaped(d, p.Picked(coins), p.cover + p.topUp)
            && r.value == Build(d, p, Total(coins[..p.cover]), coins[p.cover..], q.amount,
                                q.destScript, q.changeScript))
  {
    var p := q.Plan(coins);
    var cover := coins[..p.cover];
    if Total(cover) >= q.amount {
      RunSteps(q, coins);
      CoverDraftShaped(cover);
      if Decodable(cover) {
        CompleteOutcome(q, coins, CoverDraft(cover).value);
      } else {
        DecodableParts(cover, p.Picked(coins)[p.cover..]);
        assert p.Picked(coins) == cover + p.Picked(coins)[p.cover..];
      }
    }
  }

  // ----- every error -----

  /** Rates and addresses are checked first, in that order, and nothing else yields those errors. */
  lemma EarlyErrors(coins: seq<Utxo>, changeScript: Option<Bytes>, destScript: Option<Bytes>, amount: int,
                    feeRate: real)
    ensures var r := Create(coins, changeScript, destScript, amount, feeRate);
      && (r == Err(InvalidFeeRate) <==> feeRate <= 0.0)
      && (r == Err(UnsupportedAddress) <==> feeRate > 0.0 && (changeScript.None? || destScript.None?))
  {
    hide CoverLength, CoverDraft, PlanFrom, PlanDraft, Build, Total, Fee, Weight, PricedTx;
  }

  /** A prefix that does not reach the amount is the whole list. */
  lemma NotCovered(coins: seq<Utxo>, amount: int)
    requires Total(coins[..CoverLength(coins, amount)]) < amount
    ensures Total(coins[..CoverLength(coins, amount)]) == Total(coins)
  {
    CoverIsFirst(coins, amount);
    assert coins[..|coins|] == coins;
  }

  /**
   The two errors for missing funds, with their figures: the amount and all there is, or
   what the fee lacks and what is left. A list that does not suffice gives one of them,
   unless a script of the covering prefix is unreadable; every other error is such a script.
   */
  lemma FundsErrors(q: Request, coins: seq<Utxo>)
    requires q.feeRate > 0.0
    ensures
      var r, k, fee := q.Run(coins), q.Plan(coins).cover, q.Plan(coins).fee;
      var have := Total(coins[..k]);
      var need, remaining := q.amount + fee - have, Total(coins) - have;
      && (have < q.amount <==> r == Err(InsufficientFunds(q.amount, Total(coins))))
      && (have >= q.amount && Decodable(coins[..k]) && q.amount != 0 && need > 0 && need > remaining
          <==> r == Err(InsufficientFundsForFees(need, remaining)))
      && (r.Err? ==>
            r.error in {InsufficientFunds(q.amount, Total(coins)), InsufficientFundsForFees(need, remaining),
                        InvalidScript})
  {
    hide *;
    var p, r := q.Plan(coins), q.Run(coins);
    var have := Total(coins[..p.cover]);
    TotalRest(coins, p.cover);
    if have < q.amount {
      NotCovered(coins, q.amount);
      CoverIs(q, coins);
      RunUncovered(q, coins);
    } else {
      RunSteps(q, coins);
      CoverDraftShaped(coins[..p.cover]);
      if Decodable(coins[..p.cover]) {
        CompleteIs(CoverDraft(coins[..p.cover]).value, p.cover, have, coins[p.cover..], q.amount, p.fee,
                   q.destScript, q.changeScript);
      }
    }
  }

  lemma CoverIs(q: Request, coins: seq<Utxo>)
    ensures q.Plan(coins).cover == CoverLength(coins, q.amount)
  {
    hide CoverLength;
  }

  lemma RunUncovered(q: Request, coins: seq<Utxo>)
    requires q.feeRate > 0.0 && Total(coins[..CoverLength(coins, q.amount)]) < q.amount
    ensures q.Run(coins) == Err(InsufficientFunds(q.amount, Total(coins[..CoverLength(coins, q.amount)])))
  {
    hide CoverLength, Total, CoverDraft, Complete;
  }

  /** A run reports missing funds exactly when the funds are missing and its covering prefix is readable. */
  lemma FundsErrorIff(q: Request, coins: seq<Utxo>)
    requires q.feeRate > 0.0
    ensures var r, k := q.Run(coins), q.Plan(coins).cover;
      r.Err? && (r.error.InsufficientFunds? || r.error.InsufficientFundsForFees?)
      <==> !Funded(q, coins) && (Total(coins[..k]) < q.amount || Decodable(coins[..k]))
  {
    hide *;
    FundsErrors(q, coins);
    FundedIs(q, coins);
    TotalRest(coins, q.Plan(coins).cover);
    Outcome(q, coins);
  }

  /** Every input of a created transaction has sequence 0, and there is no lock time. */
  lemma RunSequences(q: Request, coins: seq<Utxo>)
    requires q.feeRate > 0.0 && q.Run(coins).Ok?
    ensures var tx := q.Run(coins).value.msgTx;
      tx.version == 2 && tx.lockTime == 0 && forall i :: 0 <= i < |tx.txIn| ==> tx.txIn[i].sequence == 0
  {
    Outcome(q, coins);
    var info, p := q.Run(coins).value, q.Plan(coins);
    var d := Draft(info.msgTx.txIn, info.outpointToAddr, info.outpointToAmt, info.outpointToScript);
    hide Request.Run, Request.Plan, Plan.Picked, Total, Funded, Remembers, Decodable;
    forall i | 0 <= i < |d.txIn|
      ensures d.txIn[i].sequence == 0
    {
      assert InputFor(d.txIn[i], p.Picked(coins)[i], i < p.cover + p.topUp);
    }
  }

  /** Input `i` spends picked coin `i`. */
  lemma RunInputs(q: Request, coins: seq<Utxo>)
    requires q.feeRate > 0.0 && q.Run(coins).Ok?
    ensures var ins, picked := q.Run(coins).value.msgTx.txIn, q.Plan(coins).Picked(coins);
      && |ins| == |picked|
      && forall i :: 0 <= i < |ins| ==> ins[i].previousOutPoint == picked[i].outpoint
  {
    hide *;
    Outcome(q, coins);
    var info, p := q.Run(coins).value, q.Plan(coins);
    ShapedInputs(Draft(info.msgTx.txIn, info.outpointToAddr, info.outpointToAmt, info.outpointToScript),
                 p.Picked(coins), p.cover + p.topUp);
  }

  lemma ShapedInputs(d: Draft, picked: seq<Utxo>, blanks: nat)
    requires Shaped(d, picked, blanks)
    ensures |d.txIn| == |picked|
    ensures forall i :: 0 <= i < |picked| ==> d.txIn[i].previousOutPoint == picked[i].outpoint
  {
    forall i | 0 <= i < |picked|
      ensures d.txIn[i].previousOutPoint == picked[i].outpoint
    {
      assert InputFor(d.txIn[i], picked[i], i < blanks);
    }
  }
}
