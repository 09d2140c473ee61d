/** The application's timelock test against the network's (BIP 68). */
module Liveliness {
  import opened Prelude
  import opened Ledger
  import opened Consensus
  import opened Script

  /** Both sides of the application use 52560 blocks, about a year. */
  const DEFAULT_TIMELOCK: uint32 := 52560

  /** The height BIP 68 gives to a coin: an unconfirmed one counts as in the next block. */
  function CoinHeight(status: TransactionStatus, tip: int): int {
    match status.blockHeight
    case None => tip + 1
    case Some(height) => height
  }

  /** The check says exactly when an input with the timelock as its sequence may enter the next block. */
  lemma LivelinessIsFinality(timelock: uint32, status: TransactionStatus, tip: int, coinTime: int, tipTime: int)
    requires timelock < 0x1_0000
    ensures status.NeedLivelinessCheck(timelock, tip)
       <==> InputFinal(timelock, CoinHeight(status, tip), tip, coinTime, tipTime)
  {
    PlainLock(timelock);
  }

  lemma PlainLock(timelock: uint32)
    requires timelock < 0x1_0000
    ensures !LockDisabled(timelock) && !LockByTime(timelock) && LockValue(timelock) == timelock
  {
  }

  /** The check agrees with the network at every tip, height and time. */
  ghost predicate AgreesEverywhere(timelock: uint32) {
    forall height: int, tip: int, coinTime: int, tipTime: int
      {:trigger InputFinal(timelock, height, tip, coinTime, tipTime)} ::
      TransactionStatus(true, Some(height)).NeedLivelinessCheck(timelock, tip)
      == InputFinal(timelock, height, tip, coinTime, tipTime)
  }

  /** Agreement everywhere is exactly having a timelock of at most 16 bits. */
  lemma AgreementIff(timelock: uint32)
    ensures AgreesEverywhere(timelock) <==> timelock < 0x1_0000
  {
    if timelock < 0x1_0000 {
      forall height: int, tip: int, coinTime: int, tipTime: int
        ensures TransactionStatus(true, Some(height)).NeedLivelinessCheck(timelock, tip)
             == InputFinal(timelock, height, tip, coinTime, tipTime)
      {
        LivelinessIsFinality(timelock, TransactionStatus(true, Some(height)), tip, coinTime, tipTime);
      }
    } else {
      // One more confirmation than the low 16 bits ask for, and any amount of time.
      var tip := LockValue(timelock);
      var late := LockValue(timelock) * 512;
      assert InputFinal(timelock, 0, tip, 0, late);
      assert TransactionStatus(true, Some(0)).GetConfirmations(tip) == LockValue(timelock) + 1;
      assert LockValue(timelock) < 0x1_0000 <= timelock;
      assert LockValue(timelock) + 1 != timelock;
      assert !TransactionStatus(true, Some(0)).NeedLivelinessCheck(timelock, tip);
    }
  }

  /** `blocksToLiveliness` is the number of further blocks after which the input may first be mined. */
  lemma BlocksUntilFinal(timelock: uint32, height: int, tip: int, coinTime: int, tipTime: int, more: nat)
    requires timelock < 0x1_0000
    ensures InputFinal(timelock, height, tip + more, coinTime, tipTime)
       <==> more >= TransactionStatus(true, Some(height)).BlocksToLiveliness(timelock, tip)
  {
    PlainLock(timelock);
  }

  lemma DefaultTimelockFits()
    ensures AgreesEverywhere(DEFAULT_TIMELOCK)
    ensures |ScriptNum(DEFAULT_TIMELOCK)| == 3 && NumPushLength(DEFAULT_TIMELOCK) == 4
  {
    ScriptNumSize(DEFAULT_TIMELOCK);
    AgreementIff(DEFAULT_TIMELOCK);
  }
}
