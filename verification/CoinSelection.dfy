/** Coin selection and transaction construction (leafy.go, `CreateTransaction`). */
module CoinSelection {
  import opened Prelude
  import opened Chain
  import Text

  const P2TR_DUST_AMT: int := 330

  datatype Utxo = Utxo(fromAddress: string, outpoint: OutPoint, amount: int, script: string) {
    function DecodeScript(): Option<Bytes> {
      Text.HexDecode(script)
    }
  }

  datatype CreateError =
    | InvalidFeeRate
    | UnsupportedAddress
    | InsufficientFunds(need: int, have: int)
    | InsufficientFundsForFees(need: int, remaining: int)
    | InvalidScript

  datatype TransactionInfo = TransactionInfo(
    msgTx: MsgTx,
    txInputAmt: int,
    txFeeAmt: int,
    txChangeAmt: int,
    outpointToAddr: map<OutPoint, string>,
    outpointToAmt: map<OutPoint, int>,
    outpointToScript: map<OutPoint, Bytes>)
  {
    predicate IsChangeDust() {
      txChangeAmt <= P2TR_DUST_AMT && txChangeAmt != 0
    }
  }

  // ----- vocabulary of the specification -----

  function Total(coins: seq<Utxo>): int {
    if coins == [] then 0 else Total(coins[..|coins| - 1]) + coins[|coins| - 1].amount
  }

  predicate Decodable(coins: seq<Utxo>) {
    forall i :: 0 <= i < |coins| ==> coins[i].DecodeScript().Some?
  }

  /** The length of the shortest prefix worth at least `target`, or of the whole list. */
  function Cover(coins: seq<Utxo>, target: int, from: nat := 0): (r: nat)
    requires from <= |coins|
    ensures from <= r <= |coins|
    decreases |coins| - from
  {
    if from == |coins| || Total(coins[..from]) >= target then from
    else Cover(coins, target, from + 1)
  }

  lemma {:induction false} CoverIsFirst(coins: seq<Utxo>, target: int, from: nat := 0)
    requires from <= |coins|
    ensures var r := Cover(coins, target, from);
      && (forall m :: from <= m < r ==> Total(coins[..m]) < target)
      && (r < |coins| ==> Total(coins[..r]) >= target)
    decreases |coins| - from
  {
    if from < |coins| && Total(coins[..from]) < target {
      CoverIsFirst(coins, target, from + 1);
    }
  }

  lemma CoverUnique(coins: seq<Utxo>, target: int, r: nat)
    requires r <= |coins|
    requires forall m :: 0 <= m < r ==> Total(coins[..m]) < target
    requires r < |coins| ==> Total(coins[..r]) >= target
    ensures r == Cover(coins, target)
  {
    CoverIsFirst(coins, target);
  }

  /** While the target is not reached, the shortest covering prefix is longer. */
  lemma CoverStep(coins: seq<Utxo>, target: int, i: nat)
    requires i <= Cover(coins, target)
    ensures i < |coins| && Total(coins[..i]) < target ==> i < Cover(coins, target)
    ensures Total(coins[..i]) >= target || i == |coins| ==> i == Cover(coins, target)
  {
    CoverIsFirst(coins, target);
  }

  /** An input with room for one 64-byte signature. */
  function BlankInput(coin: Utxo): TxIn {
    TxIn(coin.outpoint, 0, [Zeros(64)])
  }

  function BareInput(coin: Utxo): TxIn {
    TxIn(coin.outpoint, 0, [])
  }

  /** The transaction under construction: inputs so far and what is known of the outputs they spend. */
  datatype Draft = Draft(
    txIn: seq<TxIn>,
    outpointToAddr: map<OutPoint, string>,
    outpointToAmt: map<OutPoint, int>,
    outpointToScript: map<OutPoint, Bytes>)
  {
    /** Adds an input for `coin`; fails when the coin's script is not hexadecimal. */
    function Add(coin: Utxo, blank: bool): Option<Draft> {
      var script :- coin.DecodeScript();
      Some(Draft(
        txIn + [if blank then BlankInput(coin) else BareInput(coin)],
        outpointToAddr[coin.outpoint := coin.fromAddress],
        outpointToAmt[coin.outpoint := coin.amount],
        outpointToScript[coin.outpoint := script]))
    }
  }

  const EMPTY_DRAFT: Draft := Draft([], map[], map[], map[])

  /** Adds the coins in order. */
  function Extend(draft: Option<Draft>, coins: seq<Utxo>, blank: bool): Option<Draft> {
    if coins == [] then draft
    else
      var d :- Extend(draft, coins[..|coins| - 1], blank);
      d.Add(coins[|coins| - 1], blank)
  }

  function CoverDraft(coins: seq<Utxo>): Option<Draft> {
    Extend(Some(EMPTY_DRAFT), coins, true)
  }

  function PricedTx(draft: Draft, amount: int, destScript: Bytes): MsgTx {
    MsgTx(2, 0, draft.txIn, [TxOut(amount, destScript)])
  }

  function Ceil(x: real): (c: int)
    ensures x <= c as real < x + 1.0
  {
    -((-x).Floor)
  }

  function Fee(feeRate: real, weight: nat): int {
    Ceil(feeRate * VSize(weight) as real)
  }

  // ----- the selection -----

  /**
   The coins picked, as three stretches of the list: the first `cover` coins, the
   `topUp` coins after them, and `dust` coins counted again from position `cover`.
   */
  datatype Plan = Plan(cover: nat, topUp: nat, dust: nat, fee: int, change: int, changeOutput: bool) {
    predicate Fits(coins: seq<Utxo>) {
      cover + topUp <= |coins| && cover + dust <= |coins|
    }

    function Picked(coins: seq<Utxo>): seq<Utxo>
      requires Fits(coins)
    {
      coins[..cover + topUp] + coins[cover..cover + dust]
    }
  }

  /** How many coins are taken before any fee is known; an amount of 0 spends everything. */
  function CoverLength(coins: seq<Utxo>, amount: int): (k: nat)
    ensures k <= |coins|
  {
    if amount == 0 then |coins| else Cover(coins, amount)
  }

  /** The dust loop's goal: a change output above dust, or nothing left to add. */
  function DustTarget(change: int, left: int): int {
    if P2TR_DUST_AMT + 1 - change <= left then P2TR_DUST_AMT + 1 - change else left
  }

  /** How many of the remaining coins pay a fee that lacks `short`. */
  function TopUpLength(rest: seq<Utxo>, amount: int, short: int): (j: nat)
    ensures j <= |rest|
  {
    if amount != 0 && short > 0 then Cover(rest, short) else 0
  }

  /** The change before the dust loop runs. */
  function FirstChange(rest: seq<Utxo>, amount: int, short: int): int {
    if amount == 0 then 0 else Total(rest[..TopUpLength(rest, amount, short)]) - short
  }

  /** How many of the remaining coins the dust loop adds, counted from the first of them. */
  function DustLength(rest: seq<Utxo>, amount: int, short: int): (d: nat)
    ensures d <= |rest|
  {
    var change := FirstChange(rest, amount, short);
    if change > 0
    then Cover(rest, DustTarget(change, Total(rest) - Total(rest[..TopUpLength(rest, amount, short)])))
    else 0
  }

  /** The plan after a covering prefix of `k` coins worth `have`, with `rest` behind it. */
  function PlanFrom(k: nat, have: int, rest: seq<Utxo>, amount: int, fee: int): (p: Plan)
    ensures p.cover == k && p.topUp <= |rest| && p.dust <= |rest|
  {
    var short := amount + fee - have;
    var change := FirstChange(rest, amount, short);
    var d := DustLength(rest, amount, short);
    Plan(k, TopUpLength(rest, amount, short), d, fee, change + Total(rest[..d]), change > 0)
  }

  /** Adds inputs for the second and third stretch, the third without room for a signature. */
  function PlanDraft(covering: Draft, rest: seq<Utxo>, p: Plan): Option<Draft>
    requires p.topUp <= |rest| && p.dust <= |rest|
  {
    Extend(Extend(Some(covering), rest[..p.topUp], true), rest[..p.dust], false)
  }

  function Build(draft: Draft, p: Plan, have: int, rest: seq<Utxo>, amount: int,
                 destScript: Bytes, changeScript: Bytes): TransactionInfo
    requires p.topUp <= |rest| && p.dust <= |rest|
  {
    var outs := [TxOut(if amount == 0 then have - p.fee else amount, destScript)];
    TransactionInfo(
      MsgTx(2, 0, draft.txIn, if p.changeOutput then outs + [TxOut(p.change, changeScript)] else outs),
      have + Total(rest[..p.topUp]) + Total(rest[..p.dust]),
      p.fee, p.change,
      draft.outpointToAddr, draft.outpointToAmt, draft.outpointToScript)
  }

  function Create(coins: seq<Utxo>, changeScript: Option<Bytes>, destScript: Option<Bytes>,
                  amount: int, feeRate: real): Result<TransactionInfo, CreateError>
  {
    if feeRate <= 0.0 then Err(InvalidFeeRate)
    else if destScript.None? || changeScript.None? then Err(UnsupportedAddress)
    else
      var k := CoverLength(coins, amount);
      var have := Total(coins[..k]);
      if have < amount then Err(InsufficientFunds(amount, have))
      else match CoverDraft(coins[..k])
        case None => Err(InvalidScript)
        case Some(covering) =>
          Complete(covering, k, have, coins[k..], amount,
                   Fee(feeRate, Weight(PricedTx(covering, amount, destScript.value))),
                   destScript.value, changeScript.value)
  }

  /** What happens once the covering prefix and its fee are known. */
  function Complete(covering: Draft, k: nat, have: int, rest: seq<Utxo>, amount: int, fee: int,
                    destScript: Bytes, changeScript: Bytes): Result<TransactionInfo, CreateError>
  {
    var short := amount + fee - have;
    if amount != 0 && short > 0 && short > Total(rest)
    then Err(InsufficientFundsForFees(short, Total(rest)))
    else
      var p := PlanFrom(k, have, rest, amount, fee);
      match PlanDraft(covering, rest, p)
      case None => Err(InvalidScript)
      case Some(draft) => Ok(Build(draft, p, have, rest, amount, destScript, changeScript))
  }

  // ----- the loops -----

  lemma TakeNext(coins: seq<Utxo>, i: nat)
    requires i < |coins|
    ensures coins[..i + 1] == coins[..i] + [coins[i]]
    ensures Total(coins[..i + 1]) == Total(coins[..i]) + coins[i].amount
  {
    assert coins[..i + 1][..i] == coins[..i];
  }

  lemma ExtendNext(draft: Option<Draft>, coins: seq<Utxo>, i: nat, blank: bool)
    requires i < |coins|
    ensures Extend(draft, coins[..i + 1], blank)
         == match Extend(draft, coins[..i], blank)
            case None => None
            case Some(d) => d.Add(coins[i], blank)
  {
    assert coins[..i + 1][..i] == coins[..i];
  }

  /** A coin that cannot be added spoils every longer stretch. */
  lemma {:induction false} ExtendFails(draft: Option<Draft>, coins: seq<Utxo>, i: nat, blank: bool)
    requires i <= |coins| && Extend(draft, coins[..i], blank).None?
    ensures Extend(draft, coins, blank).None?
  {
    if i == |coins| {
      assert coins[..i] == coins;
    } else {
      assert coins[..|coins| - 1][..i] == coins[..i];
      ExtendFails(draft, coins[..|coins| - 1], i, blank);
    }
  }

  lemma StretchNext(coins: seq<Utxo>, k: nat, n: nat)
    requires k <= n < |coins|
    ensures coins[k..n + 1] == coins[k..n] + [coins[n]]
    ensures Total(coins[k..n + 1]) == Total(coins[k..n]) + coins[n].amount
  {
    assert coins[k..n + 1][..n - k] == coins[k..n];
  }

  /** The first `n` coins, parted after the first `k`, with the sum of each part. */
  ghost predicate Parted(coins: seq<Utxo>, k: nat, n: nat, matched: seq<Utxo>, unmatched: seq<Utxo>,
                         matchedAmount: int, unmatchedAmount: int)
    requires n <= |coins|
  {
    && k <= n
    && matched == coins[..k] && unmatched == coins[k..n]
    && matchedAmount == Total(matched) && unmatchedAmount == Total(unmatched)
  }

  lemma PartedNext(coins: seq<Utxo>, k: nat, n: nat, matched: seq<Utxo>, unmatched: seq<Utxo>,
                   matchedAmount: int, unmatchedAmount: int)
    requires n < |coins| && Parted(coins, k, n, matched, unmatched, matchedAmount, unmatchedAmount)
    ensures Parted(coins, k, n + 1, matched, unmatched + [coins[n]], matchedAmount, unmatchedAmount + coins[n].amount)
    ensures k == n ==>
      Parted(coins, k + 1, n + 1, matched + [coins[n]], unmatched, matchedAmount + coins[n].amount, unmatchedAmount)
  {
    hide Total;
    StretchNext(coins, k, n);
    TakeNext(coins, n);
    assert k == n ==> unmatched == coins[n + 1..n + 1];
  }

  /** Not past the covering prefix, and past the first `k` coins only once it is covered. */
  ghost predicate Parting(coins: seq<Utxo>, amount: int, k: nat, n: nat)
    requires n <= |coins|
  {
    && k <= n && k <= CoverLength(coins, amount)
    && (k < n ==> amount != 0 && Total(coins[..k]) >= amount)
  }

  lemma PartingStep(coins: seq<Utxo>, amount: int, k: nat, n: nat)
    requires n < |coins| && Parting(coins, amount, k, n)
    ensures
      if amount != 0 && Total(coins[..k]) >= amount then Parting(coins, amount, k, n + 1)
      else k == n && Parting(coins, amount, k + 1, n + 1)
  {
    hide Total, Cover;
    if amount != 0 {
      CoverStep(coins, amount, k);
    }
  }

  lemma PartingEnd(coins: seq<Utxo>, amount: int, k: nat)
    requires Parting(coins, amount, k, |coins|)
    ensures k == CoverLength(coins, amount)
  {
    hide Total, Cover;
    if amount != 0 {
      CoverStep(coins, amount, k);
    }
  }

  /** The first loop: coins go to `matched` until `amount` is reached. */
  method SplitCoins(utxos: seq<Utxo>, amount: int)
    returns (matched: seq<Utxo>, unmatched: seq<Utxo>, matchedAmount: int, unmatchedAmount: int)
    ensures matched == utxos[..CoverLength(utxos, amount)] && matchedAmount == Total(matched)
    ensures unmatched == utxos[CoverLength(utxos, amount)..] && unmatchedAmount == Total(unmatched)
  {
    var spendAll := amount == 0;
    matched, unmatched, matchedAmount, unmatchedAmount := [], [], 0, 0;
    ghost var k := 0;
    assert Parted(utxos, 0, 0, [], [], 0, 0) && Parting(utxos, amount, 0, 0);
    assert utxos[..|utxos|] == utxos;
    hide Total, Cover, CoverLength, Parting;
    for n := 0 to |utxos|
      invariant Parting(utxos, amount, k, n)
      invariant Parted(utxos, k, n, matched, unmatched, matchedAmount, unmatchedAmount)
    {
      var utxo := utxos[n];
      PartingStep(utxos, amount, k, n);
      PartedNext(utxos, k, n, matched, unmatched, matchedAmount, unmatchedAmount);
      if !spendAll && matchedAmount >= amount {
        unmatchedAmount := unmatchedAmount + utxo.amount;
        unmatched := unmatched + [utxo];
      } else {
        matchedAmount := matchedAmount + utxo.amount;
        matched := matched + [utxo];
        k := k + 1;
      }
    }
    PartingEnd(utxos, amount, k);
    PartedWhole(utxos, k, matched, unmatched, matchedAmount, unmatchedAmount);
  }

  lemma PartedWhole(coins: seq<Utxo>, k: nat, matched: seq<Utxo>, unmatched: seq<Utxo>,
                    matchedAmount: int, unmatchedAmount: int)
    requires Parted(coins, k, |coins|, matched, unmatched, matchedAmount, unmatchedAmount)
    ensures matched == coins[..k] && matchedAmount == Total(matched)
    ensures unmatched == coins[k..] && unmatchedAmount == Total(unmatched)
  {
    hide Total;
  }

  /** Inputs with room for a signature, for all of `matched`. */
  method AddMatched(matched: seq<Utxo>) returns (draft: Option<Draft>)
    ensures draft == CoverDraft(matched)
  {
    draft := Some(EMPTY_DRAFT);
    for n := 0 to |matched|
      invariant draft.Some? && draft == CoverDraft(matched[..n])
    {
      ExtendNext(Some(EMPTY_DRAFT), matched, n, true);
      draft := draft.value.Add(matched[n], true);
      if draft.None? {
        ExtendFails(Some(EMPTY_DRAFT), matched, n + 1, true);
        return;
      }
    }
    assert matched[..|matched|] == matched;
  }

  /** The second loop: unmatched coins are added until the missing fee is covered. */
  method AddFeeCoins(unmatched: seq<Utxo>, feeNeeded: int, draft: Draft)
    returns (r: Option<Draft>, matchedFeeAmount: int)
    requires 0 < feeNeeded <= Total(unmatched)
    ensures r == Extend(Some(draft), unmatched[..Cover(unmatched, feeNeeded)], true)
    ensures r.Some? ==> feeNeeded <= matchedFeeAmount == Total(unmatched[..Cover(unmatched, feeNeeded)])
  {
    ghost var j := Cover(unmatched, feeNeeded);
    r, matchedFeeAmount := Some(draft), 0;
    assert unmatched[..|unmatched|] == unmatched;
    CoverStep(unmatched, feeNeeded, 0);
    var n := 0;
    while n < |unmatched|
      invariant n < j
      invariant matchedFeeAmount == Total(unmatched[..n])
      invariant r.Some? && r == Extend(Some(draft), unmatched[..n], true)
    {
      TakeNext(unmatched, n);
      ExtendNext(Some(draft), unmatched, n, true);
      matchedFeeAmount := matchedFeeAmount + unmatched[n].amount;
      r := r.value.Add(unmatched[n], true);
      n := n + 1;
      if r.None? {
        assert unmatched[..j][..n] == unmatched[..n];
        ExtendFails(Some(draft), unmatched[..j], n, true);
        return;
      }
      CoverStep(unmatched, feeNeeded, n);
      if matchedFeeAmount >= feeNeeded {
        break;
      }
    }
  }

  /**
   The third loop: while the change is dust and something is left, coins are added
   from the start of `unmatched` again, whether or not the second loop took them.
   */
  method AddDustCoins(unmatched: seq<Utxo>, ghost j: nat, change: int, unmatchedAmount: int, draft: Draft)
    returns (r: Option<Draft>, newChange: int, added: int)
    requires change > 0 && j <= |unmatched|
    requires Total(unmatched[..j]) >= 0 && unmatchedAmount == Total(unmatched) - Total(unmatched[..j])
    ensures var dust := unmatched[..Cover(unmatched, DustTarget(change, unmatchedAmount))];
      && r == Extend(Some(draft), dust, false)
      && (r.Some? ==> added == Total(dust) && newChange == change + added)
  {
    ghost var target := DustTarget(change, unmatchedAmount);
    ghost var d := Cover(unmatched, target);
    r, newChange, added := Some(draft), change, 0;
    var index, left := 0, unmatchedAmount;
    assert unmatched[..|unmatched|] == unmatched;
    while newChange <= P2TR_DUST_AMT && left > 0
      invariant index <= d
      invariant added == Total(unmatched[..index])
      invariant newChange == change + added && left == unmatchedAmount - added
      invariant r.Some? && r == Extend(Some(draft), unmatched[..index], false)
      decreases d - index
    {
      // Past the last coin nothing is left: left is then minus what the second loop took.
      assert index < |unmatched|;
      CoverStep(unmatched, target, index);
      TakeNext(unmatched, index);
      ExtendNext(Some(draft), unmatched, index, false);
      newChange := newChange + unmatched[index].amount;
      left := left - unmatched[index].amount;
      added := added + unmatched[index].amount;
      r := r.value.Add(unmatched[index], false);
      index := index + 1;
      if r.None? {
        assert unmatched[..d][..index] == unmatched[..index];
        ExtendFails(Some(draft), unmatched[..d], index, false);
        return;
      }
    }
    CoverStep(unmatched, target, index);
  }

  /** Covers the fee out of the change, or by adding coins when the change is too small. */
  method PayFee(unmatched: seq<Utxo>, matchedSum: int, unmatchedSum: int, draft: Draft, amount: int, feePaid: int)
    returns (r: Result<Draft, CreateError>, matchedAmount: int, unmatchedAmount: int, change: int)
    requires unmatchedSum == Total(unmatched)
    ensures
      var short := amount + feePaid - matchedSum;
      var funding := unmatched[..TopUpLength(unmatched, amount, short)];
      if amount != 0 && short > 0 && short > unmatchedSum then
        r == Err(InsufficientFundsForFees(short, unmatchedSum))
      else if Extend(Some(draft), funding, true).None? then r == Err(InvalidScript)
      else
        && r == Ok(Extend(Some(draft), funding, true).value)
        && matchedAmount == matchedSum + Total(funding)
        && unmatchedAmount == unmatchedSum - Total(funding)
        && change == FirstChange(unmatched, amount, short)
        && Total(funding) >= 0
  {
    matchedAmount, unmatchedAmount, change := matchedSum, unmatchedSum, matchedSum - amount;
    r := Ok(draft);
    assert unmatched[..0] == [];
    if amount == 0 {
      change := 0;
    } else if feePaid > change {
      var feeNeeded := feePaid - change;
      if feeNeeded > unmatchedAmount {
        r := Err(InsufficientFundsForFees(feeNeeded, unmatchedAmount));
        return;
      }
      var added, matchedFeeAmount := AddFeeCoins(unmatched, feeNeeded, draft);
      if added.None? {
        r := Err(InvalidScript);
        return;
      }
      r := Ok(added.value);
      matchedAmount := matchedAmount + matchedFeeAmount;
      unmatchedAmount := unmatchedAmount - matchedFeeAmount;
      change := matchedFeeAmount - feeNeeded;
    } else {
      change := change - feePaid;
    }
  }

  /** The rest of `CreateTransaction`, from the moment the fee is priced. */
  method AddFeeAndChange(ghost k: nat, unmatched: seq<Utxo>, matchedSum: int, unmatchedSum: int,
                         matchedDraft: Draft, amount: int, feePaid: int, destScript: Bytes, changeScript: Bytes)
    returns (r: Result<TransactionInfo, CreateError>)
    requires unmatchedSum == Total(unmatched)
    ensures r == Complete(matchedDraft, k, matchedSum, unmatched, amount, feePaid, destScript, changeScript)
  {
    ghost var p := PlanFrom(k, matchedSum, unmatched, amount, feePaid);
    PlanFields(k, matchedSum, unmatched, amount, feePaid);
    hide Cover, Extend, Total, PlanFrom, TopUpLength, FirstChange, DustLength, DustTarget;
    var paid, matchedAmount, unmatchedAmount, change :=
      PayFee(unmatched, matchedSum, unmatchedSum, matchedDraft, amount, feePaid);
    if paid.Err? {
      NothingToExtend(unmatched[..p.dust], false);
      return Err(paid.error);
    }
    var draft := paid.value;
    var txOut := [TxOut(if amount == 0 then matchedSum - feePaid else amount, destScript)];
    if change > 0 {
      var dusted, newChange, added := AddDustCoins(unmatched, p.topUp, change, unmatchedAmount, draft);
      assert dusted == PlanDraft(matchedDraft, unmatched, p);
      if dusted.None? {
        return Err(InvalidScript);
      }
      draft, change, matchedAmount := dusted.value, newChange, matchedAmount + added;
      txOut := txOut + [TxOut(change, changeScript)];
    } else {
      assert unmatched[..p.dust] == [];
      NothingAdded(draft, false);
    }
    assert PlanDraft(matchedDraft, unmatched, p) == Some(draft) && p.change == change;
    r := Ok(TransactionInfo(MsgTx(2, 0, draft.txIn, txOut), matchedAmount, feePaid, change,
                            draft.outpointToAddr, draft.outpointToAmt, draft.outpointToScript));
  }

  /** The stretches and the change of a plan, as the loops compute them. */
  lemma PlanFields(k: nat, have: int, rest: seq<Utxo>, amount: int, fee: int)
    ensures
      var p, short := PlanFrom(k, have, rest, amount, fee), amount + fee - have;
      var change := FirstChange(rest, amount, short);
      && p.topUp == TopUpLength(rest, amount, short) && p.fee == fee
      && p.change == change + Total(rest[..p.dust]) && p.changeOutput == (change > 0)
      && p.dust == if change > 0 then Cover(rest, DustTarget(change, Total(rest) - Total(rest[..p.topUp]))) else 0
  {
    hide Cover, Total, TopUpLength, FirstChange, DustTarget;
  }

  lemma NothingAdded(draft: Draft, blank: bool)
    ensures Extend(Some(draft), [], blank) == Some(draft) && Total([]) == 0
  {
  }

  lemma {:induction false} NothingToExtend(coins: seq<Utxo>, blank: bool)
    ensures Extend(None, coins, blank).None?
  {
    if coins != [] {
      NothingToExtend(coins[..|coins| - 1], blank);
    }
  }

  /** leafy.go's `CreateTransaction`; address encoding and serialization are left to the caller. */
  method CreateTransaction(utxos: seq<Utxo>, changeScript: Option<Bytes>, destScript: Option<Bytes>,
                           amount: int, feeRate: real)
    returns (r: Result<TransactionInfo, CreateError>)
    ensures r == Create(utxos, changeScript, destScript, amount, feeRate)
  {
    if feeRate <= 0.0 {
      return Err(InvalidFeeRate);
    }
    if destScript.None? {
      return Err(UnsupportedAddress);
    }
    if changeScript.None? {
      return Err(UnsupportedAddress);
    }
    var matchedUtxos, unmatchedUtxos, matchedAmount, unmatchedAmount := SplitCoins(utxos, amount);
    if matchedAmount < amount {
      return Err(InsufficientFunds(amount, matchedAmount));
    }
    var draft := AddMatched(matchedUtxos);
    if draft.None? {
      return Err(InvalidScript);
    }
    var weight := Weight(MsgTx(2, 0, draft.value.txIn, [TxOut(amount, destScript.value)]));
    r := AddFeeAndChange(CoverLength(utxos, amount), unmatchedUtxos, matchedAmount, unmatchedAmount,
                         draft.value, amount, Fee(feeRate, weight), destScript.value, changeScript.value);
  }
}
