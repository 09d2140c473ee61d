/**
 A wallet whose keys are usable creates and signs, and satisfies the scripts of its coins: by
 both seeds, and by the first seed alone.
 */
module EndToEnd {
  import opened Prelude
  import opened Chain
  import opened Crypto
  import opened Bip32
  import opened Bip44
  import opened Consensus
  import opened Wallet
  import opened CoinSelection
  import opened CoinOutcome
  import opened Signing
  import opened SigningTheorems
  import opened SpendTheorems
  import KeySearch
  import WalletTheorems

  // ----- what is asked of the keys and the coins -----

  /** The entry does not end in the zero scalar. */
  ghost predicate SignsAt(c: Suite, route: Route, first: Bip44Key, second: Bip44Key, i: nat)
    requires c.n > 0
  {
    var entry := EntryAt(c, route, first, second, i);
    entry.Some? ==> FinalKey(c, entry.value.1) != 0
  }

  /** The first 700 entries can be derived and can sign. */
  ghost predicate Usable(c: Suite, route: Route, first: Bip44Key, second: Bip44Key)
    requires c.n > 0
  {
    && Reaches(c, route, first, second, 700)
    && forall i: nat :: i < 700 ==> SignsAt(c, route, first, second, i)
  }

  /** Every coin is at one of the first 700 addresses. */
  ghost predicate Owned(c: Suite, route: Route, first: Bip44Key, second: Bip44Key, coins: seq<Utxo>)
    requires c.n > 0
  {
    forall i :: 0 <= i < |coins| ==> KeySearch.AddressBelow(c, route, first, second, 700, coins[i].fromAddress)
  }

  /** Every input satisfies the script of its coin under the network's rules. */
  ghost predicate SpendsAll(c: Suite, ledger: map<OutPoint, TxOut>, signed: MsgTx)
    requires c.n > 0
  {
    && InLedger(ledger, signed)
    && forall i: nat :: i < |signed.txIn| ==> InputSpends(c, LedgerOutputs(ledger, signed), signed, i)
  }

  // ----- nothing stands in the way of signing -----

  lemma RememberedIsCoin(q: Request, coins: seq<Utxo>, o: OutPoint)
    requires q.feeRate > 0.0 && q.Run(coins).Ok? && o in q.Run(coins).value.outpointToAddr
    ensures exists coin :: coin in coins && coin.fromAddress == q.Run(coins).value.outpointToAddr[o]
  {
    hide *;
    var info, picked := q.Run(coins).value, q.Plan(coins).Picked(coins);
    Outcome(q, coins);
    var d := Draft(info.msgTx.txIn, info.outpointToAddr, info.outpointToAmt, info.outpointToScript);
    ShapedRemembers(d, picked, q.Plan(coins).cover + q.Plan(coins).topUp, o);
    var i :| 0 <= i < |picked| && Holds(d, o, picked[i]);
    HoldsAddress(d, o, picked[i]);
    PickedAreCoins(coins, q.Plan(coins), i);
  }

  lemma HoldsAddress(d: Draft, o: OutPoint, coin: Utxo)
    requires Holds(d, o, coin)
    ensures o in d.outpointToAddr && d.outpointToAddr[o] == coin.fromAddress
  {
  }

  lemma CoinsFound(c: Suite, route: Route, first: Bip44Key, second: Bip44Key, q: Request, coins: seq<Utxo>)
    requires c.n > 0 && q.feeRate > 0.0 && q.Run(coins).Ok?
    requires Usable(c, route, first, second) && Owned(c, route, first, second, coins)
    ensures KeySearch.Search(c, route, first, second, q.Run(coins).value.outpointToAddr, 0).Some?
  {
    var needed := q.Run(coins).value.outpointToAddr;
    hide Request.Run, KeySearch.Search, KeySearch.AddressBelow, Reaches, SignsAt;
    forall o | o in needed
      ensures KeySearch.AddressBelow(c, route, first, second, 700, needed[o])
    {
      RememberedIsCoin(q, coins, o);
    }
    KeySearch.FoundIffBelow700(c, route, first, second, needed);
  }

  lemma AllSign(c: Suite, route: Route, first: Bip44Key, second: Bip44Key, q: Request, coins: seq<Utxo>, tx: MsgTx)
    requires c.n > 0 && q.feeRate > 0.0 && q.Run(coins).Ok? && Usable(c, route, first, second)
    requires KeySearch.Search(c, route, first, second, q.Run(coins).value.outpointToAddr, 0).Some?
    requires SameInputs(tx, q.Run(coins).value.msgTx)
    ensures var info := q.Run(coins).value;
      Signable(c, info, KeySearch.Search(c, route, first, second, info.outpointToAddr, 0).value, tx)
  {
    var info := q.Run(coins).value;
    var keys := KeySearch.Search(c, route, first, second, info.outpointToAddr, 0).value;
    hide Request.Run, KeySearch.Search, Signable, FinalKey, EntryAt, Reaches, AllFetched;
    OnlyZeroKeysFail(c, route, first, second, q, coins, tx);
    forall i | 0 <= i < |tx.txIn|
      ensures FinalKey(c, SignerOf(info, keys, tx.txIn[i].previousOutPoint).value) != 0
    {
      var o := tx.txIn[i].previousOutPoint;
      SearchFinds(c, route, first, second, info.outpointToAddr, o);
      var k: nat :| k < 700 && EntryAt(c, route, first, second, k)
                             == Some((info.outpointToAddr[o], keys[info.outpointToAddr[o]]));
      assert SignsAt(c, route, first, second, k);
    }
  }

  lemma SignedExists(c: Suite, info: TransactionInfo, keys: map<string, Signer>, tx: MsgTx)
    requires c.n > 0 && Signable(c, info, keys, tx)
    ensures exists signed :: SignedFrom(c, info, keys, tx, signed)
  {
    hide WitnessFor, AllFetched;
    var signed := tx.(txIn := seq(|tx.txIn|, i requires 0 <= i < |tx.txIn| =>
      tx.txIn[i].(witnessStack := WitnessFor(c, info, keys, Spent(info, tx), tx, i).value)));
    assert SignedFrom(c, info, keys, tx, signed);
  }

  lemma HonestRuns(c: Suite, ledger: map<OutPoint, TxOut>, q: Request, coins: seq<Utxo>)
    requires q.feeRate > 0.0 && Honest(c, ledger, coins)
    ensures q.Run(coins).Ok? <==> Funded(q, coins)
  {
    hide Request.Run, Funded, ScriptFor;
    Outcome(q, coins);
    var picked := q.Plan(coins).Picked(coins);
    forall i | 0 <= i < |picked|
      ensures picked[i].DecodeScript().Some?
    {
      PickedAreCoins(coins, q.Plan(coins), i);
      var j :| 0 <= j < |coins| && coins[j] == picked[i];
      assert HonestCoin(c, ledger, coins[j]);
    }
  }

  // ----- both seeds -----

  /** `signed` is a possible result of signing the created transaction with both seeds. */
  ghost predicate SignedByBoth(c: Suite, timelock: uint32, first: ExtKey, second: ExtKey,
                               info: TransactionInfo, signed: MsgTx)
    requires c.n > 0
  {
    var keys := PrivateSearch(c, timelock, first, second, info.outpointToAddr);
    keys.Some? && SignedFrom(c, info, keys.value, info.msgTx, signed)
  }

  /**
   With both seeds and coins of its own, the wallet signs exactly when it has the funds:
   then keys are found, and every input of every signed result satisfies the script of its coin.
   */
  lemma WalletSpends(c: Suite, timelock: uint32, first: ExtKey, second: ExtKey, q: Request, coins: seq<Utxo>,
                     ledger: map<OutPoint, TxOut>)
    requires Lawful(c) && c.n > 0 && ValidPrivate(c, first) && ValidPrivate(c, second)
    requires KeySearch.SearchKeys(c, first, second).Some?
    requires var keys := KeySearch.SearchKeys(c, first, second).value;
      Usable(c, KeyPath(timelock), keys.0, keys.1) && Owned(c, KeyPath(timelock), keys.0, keys.1, coins)
    requires q.feeRate > 0.0 && Honest(c, ledger, coins)
    ensures q.Run(coins).Ok? <==> Funded(q, coins)
    ensures q.Run(coins).Ok? ==>
      exists signed :: SignedByBoth(c, timelock, first, second, q.Run(coins).value, signed)
    ensures q.Run(coins).Ok? ==>
      forall signed :: SignedByBoth(c, timelock, first, second, q.Run(coins).value, signed)
        ==> SpendsAll(c, ledger, signed)
  {
    hide *;
    HonestRuns(c, ledger, q, coins);
    if q.Run(coins).Ok? {
      SignedWithBoth(c, timelock, first, second, q, coins);
      forall signed | SignedByBoth(c, timelock, first, second, q.Run(coins).value, signed)
        ensures SpendsAll(c, ledger, signed)
      {
        BothSpend(c, timelock, first, second, q, coins, ledger, signed);
      }
    }
  }

  lemma SignedWithBoth(c: Suite, timelock: uint32, first: ExtKey, second: ExtKey, q: Request, coins: seq<Utxo>)
    requires c.n > 0 && q.feeRate > 0.0 && q.Run(coins).Ok? && KeySearch.SearchKeys(c, first, second).Some?
    requires var keys := KeySearch.SearchKeys(c, first, second).value;
      Usable(c, KeyPath(timelock), keys.0, keys.1) && Owned(c, KeyPath(timelock), keys.0, keys.1, coins)
    ensures exists signed :: SignedByBoth(c, timelock, first, second, q.Run(coins).value, signed)
  {
    var info, start := q.Run(coins).value, KeySearch.SearchKeys(c, first, second).value;
    var keys := PrivateSearch(c, timelock, first, second, info.outpointToAddr);
    assert keys == KeySearch.Search(c, KeyPath(timelock), start.0, start.1, info.outpointToAddr, 0);
    assert SameInputs(info.msgTx, info.msgTx);
    hide *;
    CoinsFound(c, KeyPath(timelock), start.0, start.1, q, coins);
    AllSign(c, KeyPath(timelock), start.0, start.1, q, coins, info.msgTx);
    SignedExists(c, info, keys.value, info.msgTx);
    var signed :| SignedFrom(c, info, keys.value, info.msgTx, signed);
    BothSigned(c, timelock, first, second, info, signed);
  }

  lemma BothSigned(c: Suite, timelock: uint32, first: ExtKey, second: ExtKey, info: TransactionInfo, signed: MsgTx)
    requires c.n > 0
    ensures var keys := PrivateSearch(c, timelock, first, second, info.outpointToAddr);
      SignedByBoth(c, timelock, first, second, info, signed)
      == (keys.Some? && SignedFrom(c, info, keys.value, info.msgTx, signed))
  {
    hide PrivateSearch, SignedFrom;
  }

  lemma BothSpend(c: Suite, timelock: uint32, first: ExtKey, second: ExtKey, q: Request, coins: seq<Utxo>,
                  ledger: map<OutPoint, TxOut>, signed: MsgTx)
    requires Lawful(c) && c.n > 0 && ValidPrivate(c, first) && ValidPrivate(c, second)
    requires q.feeRate > 0.0 && q.Run(coins).Ok? && Honest(c, ledger, coins)
    requires SignedByBoth(c, timelock, first, second, q.Run(coins).value, signed)
    ensures SpendsAll(c, ledger, signed)
  {
    hide Lawful, ValidPrivate, Request.Run, Honest, PrivateSearch, SignedFrom, InputSpends, LedgerOutputs, InLedger;
    BothSigned(c, timelock, first, second, q.Run(coins).value, signed);
    if signed.txIn == [] {
      NoInputs(ledger, signed);
    } else {
      KeyPathTransactionSpends(c, timelock, first, second, q, coins, ledger, signed, 0);
    }
    forall i: nat | i < |signed.txIn|
      ensures InputSpends(c, LedgerOutputs(ledger, signed), signed, i)
    {
      KeyPathTransactionSpends(c, timelock, first, second, q, coins, ledger, signed, i);
    }
  }

  lemma NoInputs(ledger: map<OutPoint, TxOut>, tx: MsgTx)
    requires tx.txIn == []
    ensures InLedger(ledger, tx)
  {
  }

  // ----- the first seed alone -----

  /** The entry's output can be opened to its leaf: it is a point and its tweak is canonical. */
  ghost predicate OpensAt(c: Suite, route: Route, first: Bip44Key, second: Bip44Key, i: nat)
    requires c.n > 0
  {
    var entry := EntryAt(c, route, first, second, i);
    entry.Some? && entry.value.1.LeafSigner? ==>
      && c.decodeAddress(entry.value.0).Some?
      && LiftX(c, c.decodeAddress(entry.value.0).value).Some?
      && CanonicalTweak(c, entry.value.1.tapscript)
  }

  ghost predicate Opens(c: Suite, route: Route, first: Bip44Key, second: Bip44Key)
    requires c.n > 0
  {
    forall i: nat :: i < 700 ==> OpensAt(c, route, first, second, i)
  }

  /** `signed` is a possible result of signing the created transaction for recovery. */
  ghost predicate SignedForRecovery(c: Suite, timelock: uint32, w: Wallet, info: TransactionInfo, signed: MsgTx)
    requires c.n > 0
  {
    var keys := RecoverySearch(c, timelock, w, info.outpointToAddr);
    keys.Some? && SignedFrom(c, info, keys.value, WithSequence(info.msgTx, timelock), signed)
  }

  lemma RecoverySigned(c: Suite, timelock: uint32, w: Wallet, info: TransactionInfo, signed: MsgTx)
    requires c.n > 0
    ensures var keys := RecoverySearch(c, timelock, w, info.outpointToAddr);
      SignedForRecovery(c, timelock, w, info, signed)
      == (keys.Some? && SignedFrom(c, info, keys.value, WithSequence(info.msgTx, timelock), signed))
  {
    hide RecoverySearch, SignedFrom, WithSequence;
  }

  /**
   With the first seed and the descriptor, the wallet signs exactly when it has the funds:
   then keys are found, and every input of every signed result carries the timelock and
   satisfies the script of its coin.
   */
  lemma RecoverySpends(c: Suite, timelock: uint32, first: ExtKey, second: ExtKey, w: Wallet,
                       q: Request, coins: seq<Utxo>, ledger: map<OutPoint, TxOut>)
    requires Lawful(c) && c.n > 0 && WalletTheorems.ValidWallet(c, first, second) && timelock != 0
    requires GetDescriptor(c, second).Some? && w == Recovery(first, GetDescriptor(c, second).value)
    requires StartKeys(c, w, 0).Some?
    requires var keys := StartKeys(c, w, 0).value;
      && Usable(c, ScriptPath(timelock), keys.0, keys.1) && Opens(c, ScriptPath(timelock), keys.0, keys.1)
      && Owned(c, ScriptPath(timelock), keys.0, keys.1, coins)
    requires q.feeRate > 0.0 && Honest(c, ledger, coins)
    ensures q.Run(coins).Ok? <==> Funded(q, coins)
    ensures q.Run(coins).Ok? ==> exists signed :: SignedForRecovery(c, timelock, w, q.Run(coins).value, signed)
    ensures q.Run(coins).Ok? ==>
      forall signed :: SignedForRecovery(c, timelock, w, q.Run(coins).value, signed) ==>
        SpendsAll(c, ledger, signed) && forall i :: 0 <= i < |signed.txIn| ==> signed.txIn[i].sequence == timelock
  {
    hide *;
    HonestRuns(c, ledger, q, coins);
    if q.Run(coins).Ok? {
      SignedAlone(c, timelock, w, q, coins);
      forall signed | SignedForRecovery(c, timelock, w, q.Run(coins).value, signed)
        ensures SpendsAll(c, ledger, signed)
        ensures forall i :: 0 <= i < |signed.txIn| ==> signed.txIn[i].sequence == timelock
      {
        AloneSpends(c, timelock, first, second, w, q, coins, ledger, signed);
      }
    }
  }

  lemma SignedAlone(c: Suite, timelock: uint32, w: Wallet, q: Request, coins: seq<Utxo>)
    requires c.n > 0 && q.feeRate > 0.0 && q.Run(coins).Ok? && StartKeys(c, w, 0).Some?
    requires var keys := StartKeys(c, w, 0).value;
      Usable(c, ScriptPath(timelock), keys.0, keys.1) && Owned(c, ScriptPath(timelock), keys.0, keys.1, coins)
    ensures exists signed :: SignedForRecovery(c, timelock, w, q.Run(coins).value, signed)
  {
    var info, start := q.Run(coins).value, StartKeys(c, w, 0).value;
    var keys := RecoverySearch(c, timelock, w, info.outpointToAddr);
    var tx := WithSequence(info.msgTx, timelock);
    assert keys == KeySearch.Search(c, ScriptPath(timelock), start.0, start.1, info.outpointToAddr, 0);
    assert SameInputs(tx, info.msgTx);
    hide *;
    CoinsFound(c, ScriptPath(timelock), start.0, start.1, q, coins);
    AllSign(c, ScriptPath(timelock), start.0, start.1, q, coins, tx);
    SignedExists(c, info, keys.value, tx);
    var signed :| SignedFrom(c, info, keys.value, tx, signed);
    RecoverySigned(c, timelock, w, info, signed);
  }

  /** Keys that open everything make every input's output one that can be opened. */
  lemma InputOpens(c: Suite, timelock: uint32, w: Wallet, q: Request, coins: seq<Utxo>, signed: MsgTx, i: nat)
    requires c.n > 0 && q.feeRate > 0.0 && q.Run(coins).Ok? && StartKeys(c, w, 0).Some?
    requires var start := StartKeys(c, w, 0).value; Opens(c, ScriptPath(timelock), start.0, start.1)
    requires SignedForRecovery(c, timelock, w, q.Run(coins).value, signed) && i < |signed.txIn|
    ensures var info := q.Run(coins).value;
      Openable(c, info, RecoverySearch(c, timelock, w, info.outpointToAddr).value, signed.txIn[i].previousOutPoint)
  {
    var info, start := q.Run(coins).value, StartKeys(c, w, 0).value;
    var keys := RecoverySearch(c, timelock, w, info.outpointToAddr).value;
    RecoverySigned(c, timelock, w, info, signed);
    assert RecoverySearch(c, timelock, w, info.outpointToAddr)
        == KeySearch.Search(c, ScriptPath(timelock), start.0, start.1, info.outpointToAddr, 0);
    hide Request.Run, StartKeys, RecoverySearch, KeySearch.Search, SignedFrom, SignedForRecovery, EntryAt,
         CanonicalTweak, LiftX;
    SequencedCopy(c, info, keys, timelock, signed);
    InputsKnown(q, coins, i);
    var o := signed.txIn[i].previousOutPoint;
    SearchFinds(c, ScriptPath(timelock), start.0, start.1, info.outpointToAddr, o);
    var k: nat :| k < 700 && EntryAt(c, ScriptPath(timelock), start.0, start.1, k)
                           == Some((info.outpointToAddr[o], keys[info.outpointToAddr[o]]));
    assert OpensAt(c, ScriptPath(timelock), start.0, start.1, k);
    ScriptEntry(c, timelock, start.0, start.1, k);
  }

  lemma ScriptEntry(c: Suite, timelock: uint32, first: Bip44Key, second: Bip44Key, i: nat)
    requires c.n > 0 && EntryAt(c, ScriptPath(timelock), first, second, i).Some?
    ensures EntryAt(c, ScriptPath(timelock), first, second, i).value.1.LeafSigner?
  {
    hide Walk;
  }

  lemma AloneSpends(c: Suite, timelock: uint32, first: ExtKey, second: ExtKey, w: Wallet,
                    q: Request, coins: seq<Utxo>, ledger: map<OutPoint, TxOut>, signed: MsgTx)
    requires Lawful(c) && c.n > 0 && WalletTheorems.ValidWallet(c, first, second) && timelock != 0
    requires GetDescriptor(c, second).Some? && w == Recovery(first, GetDescriptor(c, second).value)
    requires StartKeys(c, w, 0).Some?
    requires var start := StartKeys(c, w, 0).value; Opens(c, ScriptPath(timelock), start.0, start.1)
    requires q.feeRate > 0.0 && q.Run(coins).Ok? && Honest(c, ledger, coins)
    requires SignedForRecovery(c, timelock, w, q.Run(coins).value, signed)
    ensures SpendsAll(c, ledger, signed)
    ensures forall i :: 0 <= i < |signed.txIn| ==> signed.txIn[i].sequence == timelock
  {
    hide Lawful, WalletTheorems.ValidWallet, GetDescriptor, StartKeys, Opens, Request.Run, Honest, RecoverySearch,
         SignedFrom, WithSequence, InputSpends, LedgerOutputs, InLedger, SignedForRecovery, Openable;
    RecoverySigned(c, timelock, w, q.Run(coins).value, signed);
    if signed.txIn == [] {
      NoInputs(ledger, signed);
    } else {
      RecoveryTransactionSpends(c, timelock, first, second, w, q, coins, ledger, signed, 0);
    }
    forall i: nat | i < |signed.txIn|
      ensures InputSpends(c, LedgerOutputs(ledger, signed), signed, i)
      ensures signed.txIn[i].sequence == timelock
    {
      RecoveryTransactionSpends(c, timelock, first, second, w, q, coins, ledger, signed, i);
      InputOpens(c, timelock, w, q, coins, signed, i);
    }
  }

  /** The same coins are the wallet's own whether one looks with both seeds or with the first alone. */
  lemma OwnedEitherWay(c: Suite, timelock: uint32, first: Bip44Key, second: Bip44Key, coins: seq<Utxo>)
    requires GroupLaws(c) && WalletTheorems.PrivateLeaf(c, first) && WalletTheorems.PrivateLeaf(c, second)
    ensures c.n > 0
    ensures Owned(c, KeyPath(timelock), first, second, coins)
       <==> Owned(c, ScriptPath(timelock), first, WalletTheorems.NeuterKey(c, second), coins)
  {
    assert c.n > 0;
    var public := WalletTheorems.NeuterKey(c, second);
    forall address
      ensures KeySearch.AddressBelow(c, KeyPath(timelock), first, second, 700, address)
           == KeySearch.AddressBelow(c, ScriptPath(timelock), first, public, 700, address)
    {
      hide EntryAt, GroupLaws, WalletTheorems.PrivateLeaf, WalletTheorems.NeuterKey;
      forall i: nat
        ensures KeySearch.NamedAt(c, KeyPath(timelock), first, second, i, address)
             == KeySearch.NamedAt(c, ScriptPath(timelock), first, public, i, address)
      {
        WalletTheorems.RoutesNameSameAddress(c, timelock, first, second, i);
      }
    }
    hide GroupLaws, WalletTheorems.PrivateLeaf, WalletTheorems.NeuterKey, KeySearch.AddressBelow;
  }

  lemma NamedBothWays(c: Suite, timelock: uint32, first: Bip44Key, second: Bip44Key, k: nat, address: string)
    requires GroupLaws(c) && c.n > 0 && WalletTheorems.PrivateLeaf(c, first) && WalletTheorems.PrivateLeaf(c, second)
    requires KeySearch.NamedAt(c, KeyPath(timelock), first, second, k, address) && k < 700
    ensures KeySearch.AddressBelow(c, KeyPath(timelock), first, second, 700, address)
    ensures KeySearch.AddressBelow(c, ScriptPath(timelock), first, WalletTheorems.NeuterKey(c, second), 700, address)
  {
    hide GroupLaws, EntryAt, WalletTheorems.NeuterKey, WalletTheorems.PrivateLeaf;
    WalletTheorems.RoutesNameSameAddress(c, timelock, first, second, k);
    assert KeySearch.NamedAt(c, ScriptPath(timelock), first, WalletTheorems.NeuterKey(c, second), k, address);
  }

  /** A coin at an address the wallet lists below index 700 is one that both searches find. */
  lemma ListedIsOwned(c: Suite, timelock: uint32, first: ExtKey, second: ExtKey, s: uint32, num: byte, i: nat)
    requires Lawful(c) && c.n > 0 && WalletTheorems.ValidWallet(c, first, second)
    requires KeySearch.SearchKeys(c, first, second).Some? && i < num && s + i < 700
    requires var keys := KeySearch.SearchKeys(c, first, second).value; Reaches(c, KeyPath(timelock), keys.0, keys.1, s)
    requires AddressList(c, timelock, Full(first, second), s, num).Some?
    ensures |AddressList(c, timelock, Full(first, second), s, num).value| == num
    ensures
      var keys := KeySearch.SearchKeys(c, first, second).value;
      var address := AddressList(c, timelock, Full(first, second), s, num).value[i];
      && KeySearch.AddressBelow(c, KeyPath(timelock), keys.0, keys.1, 700, address)
      && KeySearch.AddressBelow(c, ScriptPath(timelock), keys.0, WalletTheorems.NeuterKey(c, keys.1), 700, address)
  {
    hide *;
    var keys := KeySearch.SearchKeys(c, first, second).value;
    LawfulParts(c);
    WalletMasters(c, first, second);
    SearchStart(c, first, second);
    WalletTheorems.ListingIsSearched(c, timelock, first, second, s, num);
    var address := AddressList(c, timelock, Full(first, second), s, num).value[i];
    EntryIsNamed(c, KeyPath(timelock), keys.0, keys.1, s + i, address);
    NamedBothWays(c, timelock, keys.0, keys.1, s + i, address);
  }

  lemma WalletMasters(c: Suite, first: ExtKey, second: ExtKey)
    requires c.n > 0 && WalletTheorems.ValidWallet(c, first, second)
    ensures ValidPrivate(c, first) && ValidPrivate(c, second)
  {
    hide GetBip44Key, ValidPrivate;
  }

  lemma EntryIsNamed(c: Suite, route: Route, first: Bip44Key, second: Bip44Key, k: nat, address: string)
    requires c.n > 0
    requires EntryAt(c, route, first, second, k).Some? && address == EntryAt(c, route, first, second, k).value.0
    ensures KeySearch.NamedAt(c, route, first, second, k, address)
  {
  }
}
