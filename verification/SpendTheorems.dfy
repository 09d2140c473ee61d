/** The end-to-end results: signed transactions spend the coins they were created from. */
module SpendTheorems {
  import opened Prelude
  import opened Chain
  import opened Crypto
  import opened Bip32
  import opened Bip44
  import opened Taproot
  import opened Consensus
  import opened Wallet
  import opened CoinSelection
  import opened CoinOutcome
  import opened Signing
  import opened SigningTheorems
  import Descriptor
  import KeySearch
  import Script
  import TaprootTheorems
  import WalletTheorems

  /** `tx` spends the outpoints of the created transaction, in order, perhaps with other sequences. */
  ghost predicate SameInputs(tx: MsgTx, created: MsgTx) {
    && |tx.txIn| == |created.txIn|
    && forall i :: 0 <= i < |tx.txIn| ==> tx.txIn[i].previousOutPoint == created.txIn[i].previousOutPoint
  }

  /** The wallet's idea of each spent output is the ledger's, and its address that of the ledger's script. */
  ghost predicate TrueTo(c: Suite, ledger: map<OutPoint, TxOut>, info: TransactionInfo, o: OutPoint) {
    && o in ledger && SpentBy(info, o) == Some(ledger[o])
    && o in info.outpointToAddr && ScriptFor(c, info.outpointToAddr[o]) == Some(ledger[o].pkScript)
  }

  lemma InputsTrue(c: Suite, ledger: map<OutPoint, TxOut>, q: Request, coins: seq<Utxo>, i: nat)
    requires q.feeRate > 0.0 && q.Run(coins).Ok? && i < |q.Run(coins).value.msgTx.txIn| && Honest(c, ledger, coins)
    ensures TrueTo(c, ledger, q.Run(coins).value, q.Run(coins).value.msgTx.txIn[i].previousOutPoint)
  {
    hide Request.Run, ScriptFor;
    InputsKnown(q, coins, i);
    var info := q.Run(coins).value;
    var o := info.msgTx.txIn[i].previousOutPoint;
    var coin :| coin in coins && KnownFrom(info, o, coin);
    assert HonestCoin(c, ledger, coin);
  }

  lemma SpentIsLedger(c: Suite, ledger: map<OutPoint, TxOut>, info: TransactionInfo, tx: MsgTx)
    requires forall i :: 0 <= i < |tx.txIn| ==> TrueTo(c, ledger, info, tx.txIn[i].previousOutPoint)
    ensures InLedger(ledger, tx) && AllFetched(info, tx) && Spent(info, tx) == LedgerOutputs(ledger, tx)
  {
    forall i | 0 <= i < |tx.txIn|
      ensures tx.txIn[i].previousOutPoint in ledger
           && SpentBy(info, tx.txIn[i].previousOutPoint) == Some(ledger[tx.txIn[i].previousOutPoint])
    {
      assert TrueTo(c, ledger, info, tx.txIn[i].previousOutPoint);
    }
    hide SpentBy, TrueTo;
  }

  /** What is known of one signed input before its signature is looked at. */
  ghost predicate InputFacts(c: Suite, ledger: map<OutPoint, TxOut>, info: TransactionInfo, keys: map<string, Signer>,
                             tx: MsgTx, signed: MsgTx, i: nat)
    requires c.n > 0 && i < |tx.txIn| == |signed.txIn|
  {
    var o := tx.txIn[i].previousOutPoint;
    && InLedger(ledger, tx) && InLedger(ledger, signed)
    && LedgerOutputs(ledger, signed) == LedgerOutputs(ledger, tx)
    && WithoutWitnesses(signed) == WithoutWitnesses(tx)
    && TrueTo(c, ledger, info, o)
    && SignerOf(info, keys, o).Some?
    && signed.txIn[i].sequence == tx.txIn[i].sequence
    && Some(signed.txIn[i].witnessStack)
       == Sign(c, SignerOf(info, keys, o).value,
               MessageFor(c, SignerOf(info, keys, o).value, LedgerOutputs(ledger, tx), tx, i))
  }

  lemma SignedInput(c: Suite, ledger: map<OutPoint, TxOut>, q: Request, coins: seq<Utxo>, keys: map<string, Signer>,
                    tx: MsgTx, signed: MsgTx, i: nat)
    requires c.n > 0 && q.feeRate > 0.0 && q.Run(coins).Ok? && Honest(c, ledger, coins)
    requires SameInputs(tx, q.Run(coins).value.msgTx)
    requires SignedFrom(c, q.Run(coins).value, keys, tx, signed) && i < |tx.txIn|
    ensures InputFacts(c, ledger, q.Run(coins).value, keys, tx, signed, i)
  {
    var info := q.Run(coins).value;
    hide Request.Run, TrueTo, Sign, MessageFor, Honest, SignedFrom, WithoutWitnesses, SignerOf, InLedger;
    forall j | 0 <= j < |tx.txIn|
      ensures TrueTo(c, ledger, info, tx.txIn[j].previousOutPoint)
    {
      InputsTrue(c, ledger, q, coins, j);
    }
    SpentIsLedger(c, ledger, info, tx);
    SignedSame(c, info, keys, tx, signed, i);
    SameLedger(ledger, tx, signed);
  }

  /** Signing changes witnesses only, and makes each for its own input. */
  lemma SignedSame(c: Suite, info: TransactionInfo, keys: map<string, Signer>, tx: MsgTx, signed: MsgTx, i: nat)
    requires c.n > 0 && SignedFrom(c, info, keys, tx, signed) && i < |tx.txIn|
    ensures SameInputs(signed, tx) && WithoutWitnesses(signed) == WithoutWitnesses(tx) && AllFetched(info, tx)
    ensures signed.txIn[i].sequence == tx.txIn[i].sequence
    ensures var signer := SignerOf(info, keys, tx.txIn[i].previousOutPoint);
      && signer.Some?
      && Some(signed.txIn[i].witnessStack) == Sign(c, signer.value, MessageFor(c, signer.value, Spent(info, tx), tx, i))
  {
    hide Sign, MessageFor, AllFetched, SignerOf;
    assert forall j :: 0 <= j < |tx.txIn| ==>
      signed.txIn[j].(witnessStack := []) == tx.txIn[j].(witnessStack := []);
    assert WitnessFor(c, info, keys, Spent(info, tx), tx, i).Some?;
  }

  lemma SameLedger(ledger: map<OutPoint, TxOut>, tx: MsgTx, signed: MsgTx)
    requires SameInputs(signed, tx) && InLedger(ledger, tx)
    ensures InLedger(ledger, signed) && LedgerOutputs(ledger, signed) == LedgerOutputs(ledger, tx)
  {
  }

  // ----- key path -----

  /** The keys both masters start the searches with. */
  lemma SearchStart(c: Suite, first: ExtKey, second: ExtKey)
    requires GroupLaws(c) && ValidPrivate(c, first) && ValidPrivate(c, second)
    requires KeySearch.SearchKeys(c, first, second).Some?
    ensures var keys := KeySearch.SearchKeys(c, first, second).value;
      && GetBip44Key(c, first, 0) == Some(keys.0) && GetBip44Key(c, second, 0) == Some(keys.1)
      && WalletTheorems.PrivateLeaf(c, keys.0) && WalletTheorems.PrivateLeaf(c, keys.1)
  {
    assert c.n > 0;
    hide GroupLaws, GetBip44Key, WalletTheorems.PrivateLeaf;
    WalletTheorems.KeyIsPrivate(c, first, 0);
    WalletTheorems.KeyIsPrivate(c, second, 0);
  }

  lemma KeySpendsInput(c: Suite, timelock: uint32, first: Bip44Key, second: Bip44Key, ledger: map<OutPoint, TxOut>,
                       info: TransactionInfo, keys: map<string, Signer>, signed: MsgTx, i: nat, k: nat)
    requires Lawful(c) && c.n > 0 && WalletTheorems.PrivateLeaf(c, first) && WalletTheorems.PrivateLeaf(c, second)
    requires i < |info.msgTx.txIn| == |signed.txIn|
    requires InputFacts(c, ledger, info, keys, info.msgTx, signed, i)
    requires var address := info.outpointToAddr[info.msgTx.txIn[i].previousOutPoint];
      EntryAt(c, KeyPath(timelock), first, second, k) == Some((address, keys[address]))
    ensures InputSpends(c, LedgerOutputs(ledger, signed), signed, i)
  {
    var o := info.msgTx.txIn[i].previousOutPoint;
    var address := info.outpointToAddr[o];
    var signer := keys[address];
    var message := MessageFor(c, signer, LedgerOutputs(ledger, info.msgTx), info.msgTx, i);
    hide Lawful, EntryAt, WalletTheorems.PrivateLeaf, Sign, KeyPathSpends;
    KeyEntrySpends(c, timelock, first, second, k, address, signer, message);
    var program := c.decodeAddress(address).value;
    assert ledger[o].pkScript == WitnessProgram(program) && |program| == 32;
    assert WitnessProgram(program)[..2] == [0x51, 32] && WitnessProgram(program)[2..] == program;
  }

  /**
   Every input of a key-path-signed transaction satisfies the script of its coin, for any coins
   that match the ledger, on every run that succeeds.
   */
  lemma KeyPathTransactionSpends(c: Suite, timelock: uint32, first: ExtKey, second: ExtKey,
                                 q: Request, coins: seq<Utxo>,
                                 ledger: map<OutPoint, TxOut>, signed: MsgTx, i: nat)
    requires Lawful(c) && c.n > 0 && ValidPrivate(c, first) && ValidPrivate(c, second)
    requires q.feeRate > 0.0 && q.Run(coins).Ok? && Honest(c, ledger, coins)
    requires PrivateSearch(c, timelock, first, second, q.Run(coins).value.outpointToAddr).Some?
    requires
      var info := q.Run(coins).value;
      SignedFrom(c, info, PrivateSearch(c, timelock, first, second, info.outpointToAddr).value, info.msgTx, signed)
    requires i < |signed.txIn|
    ensures InLedger(ledger, signed) && InputSpends(c, LedgerOutputs(ledger, signed), signed, i)
  {
    var info := q.Run(coins).value;
    var start := KeySearch.SearchKeys(c, first, second).value;
    var keys := PrivateSearch(c, timelock, first, second, info.outpointToAddr).value;
    assert keys == KeySearch.Search(c, KeyPath(timelock), start.0, start.1, info.outpointToAddr, 0).value;
    assert |info.msgTx.txIn| == |signed.txIn|;
    hide Lawful, Request.Run, KeySearch.SearchKeys, KeySearch.Search, SignedFrom, Honest, InputSpends, EntryAt;
    LawfulParts(c);
    SearchStart(c, first, second);
    SignedInput(c, ledger, q, coins, keys, info.msgTx, signed, i);
    var o := info.msgTx.txIn[i].previousOutPoint;
    SearchFinds(c, KeyPath(timelock), start.0, start.1, info.outpointToAddr, o);
    var k: nat :| EntryAt(c, KeyPath(timelock), start.0, start.1, k)
               == Some((info.outpointToAddr[o], keys[info.outpointToAddr[o]]));
    KeySpendsInput(c, timelock, start.0, start.1, ledger, info, keys, signed, i, k);
  }

  // ----- script path -----

  /** The input's own output is a point and its tweak a canonical scalar. */
  ghost predicate Openable(c: Suite, info: TransactionInfo, keys: map<string, Signer>, o: OutPoint) {
    && SignerOf(info, keys, o).Some? && SignerOf(info, keys, o).value.LeafSigner?
    && c.decodeAddress(info.outpointToAddr[o]).Some?
    && LiftX(c, c.decodeAddress(info.outpointToAddr[o]).value).Some?
    && CanonicalTweak(c, SignerOf(info, keys, o).value.tapscript)
  }

  lemma LeafSpendsInput(c: Suite, timelock: uint32, first: Bip44Key, second: Bip44Key, ledger: map<OutPoint, TxOut>,
                        info: TransactionInfo, keys: map<string, Signer>, signed: MsgTx, i: nat, k: nat)
    requires Lawful(c) && c.n > 0 && WalletTheorems.PrivateLeaf(c, first) && WalletTheorems.PrivateLeaf(c, second)
    requires timelock != 0 && signed.version == 2 && i < |info.msgTx.txIn| == |signed.txIn|
    requires InputFacts(c, ledger, info, keys, WithSequence(info.msgTx, timelock), signed, i)
    requires var address := info.outpointToAddr[info.msgTx.txIn[i].previousOutPoint];
      EntryAt(c, ScriptPath(timelock), first, WalletTheorems.NeuterKey(c, second), k) == Some((address, keys[address]))
    ensures InputSpends(c, LedgerOutputs(ledger, signed), signed, i)
         == Openable(c, info, keys, info.msgTx.txIn[i].previousOutPoint)
  {
    var tx := WithSequence(info.msgTx, timelock);
    var o := info.msgTx.txIn[i].previousOutPoint;
    var address := info.outpointToAddr[o];
    var signer := keys[address];
    var message := MessageFor(c, signer, LedgerOutputs(ledger, tx), tx, i);
    hide Lawful, EntryAt, WalletTheorems.PrivateLeaf, Sign, ScriptSucceeds, Commits, LiftX, CanonicalTweak, LeafHash,
         LeafVersion, WithSequence, WithoutWitnesses, InputSpends, ScriptPathSpends, WitnessProgram;
    LeafEntrySpends(c, timelock, first, second, k, address, signer, message);
    var program := c.decodeAddress(address).value;
    assert ledger[o].pkScript == WitnessProgram(program) && |program| == 32;
    var items := signed.txIn[i].witnessStack;
    SpendsByScript(c, program, LedgerOutputs(ledger, signed), signed, i);
    ScriptPathIff(c, program, items, LedgerOutputs(ledger, signed), signed, i, signer.tapscript, message, timelock);
  }

  lemma SpendsByScript(c: Suite, program: Bytes, spent: seq<TxOut>, tx: MsgTx, i: nat)
    requires c.n > 0 && i < |tx.txIn| == |spent| && |tx.txIn[i].witnessStack| == 3
    requires |program| == 32 && spent[i].pkScript == WitnessProgram(program)
    ensures InputSpends(c, spent, tx, i) == ScriptPathSpends(c, program, tx.txIn[i].witnessStack, spent, tx, i)
  {
    hide ScriptPathSpends;
    assert WitnessProgram(program)[..2] == [0x51, 32] && WitnessProgram(program)[2..] == program;
  }

  /** A three-item witness that meets the leaf's rules spends exactly when its control block opens the program. */
  lemma ScriptPathIff(c: Suite, program: Bytes, items: seq<Bytes>, spent: seq<TxOut>, tx: MsgTx, i: nat,
                      leaf: SigningData, message: Bytes, timelock: uint32)
    requires c.n > 0 && i < |tx.txIn| && |items| == 3 && items[1] == leaf.leafScript && items[2] == leaf.controlBlock
    requires leaf.controlBlock != [] && LeafVersion(leaf.controlBlock) == BASE_LEAF_VERSION
    requires tx.txIn[i].sequence == timelock && tx.version == 2
    requires message == c.sigHash(SigMessage(spent, WithoutWitnesses(tx), i,
                                             Some(LeafHash(c, BASE_LEAF_VERSION, leaf.leafScript))))
    requires ScriptSucceeds(leaf.leafScript, [items[0]], LeafContext(c, message, timelock))
    ensures ScriptPathSpends(c, program, items, spent, tx, i)
         == Commits(c, program, leaf.leafScript, leaf.controlBlock)
  {
    TaprootTheorems.LeafHashIs(c, BASE_LEAF_VERSION, leaf.leafScript);
    hide Commits, LeafHash, TapLeafHash, WithoutWitnesses;
    assert items[..1] == [items[0]];
    SameContext(leaf.leafScript, [items[0]], LeafContext(c, message, timelock),
                Context((key, signature) => |signature| == 64 && c.verify(key, message, signature),
                        tx.txIn[i].sequence, tx.version));
  }

  /** Execution depends on a context only through what it answers. */
  lemma {:induction false} SameExecution(ops: seq<Script.Op>, stack: seq<Bytes>, a: Context, b: Context)
    requires a.sequence == b.sequence && a.version == b.version
    requires forall key, signature :: a.checkSig(key, signature) == b.checkSig(key, signature)
    ensures Execute(ops, stack, a) == Execute(ops, stack, b)
    decreases |ops|
  {
    hide SequenceVerifies;
    if ops != [] {
      match ops[0]
      case Push(data) => SameExecution(ops[1..], stack + [data], a, b);
      case Code(op) =>
        if |stack| >= 2 {
          SameExecution(ops[1..], stack[..|stack| - 2], a, b);
        }
        SameExecution(ops[1..], stack, a, b);
    }
  }

  lemma SameContext(script: Bytes, stack: seq<Bytes>, a: Context, b: Context)
    requires a.sequence == b.sequence && a.version == b.version
    requires forall key, signature :: a.checkSig(key, signature) == b.checkSig(key, signature)
    ensures ScriptSucceeds(script, stack, a) == ScriptSucceeds(script, stack, b)
  {
    hide Execute, Script.Parse;
    if Script.Parse(script).Some? {
      SameExecution(Script.Parse(script).value, stack, a, b);
    }
  }

  /**
   Every input of a recovery transaction carries the timelock as its sequence and satisfies
   the script of its coin exactly when that coin's output can be opened at
   all: its key is a point and its tweak, before reduction, is below the group order. The
   second seed is not used; the wallet has the first seed and the printed descriptor.
   */
  lemma RecoveryTransactionSpends(c: Suite, timelock: uint32, first: ExtKey, second: ExtKey, w: Wallet,
                                  q: Request, coins: seq<Utxo>, ledger: map<OutPoint, TxOut>, signed: MsgTx, i: nat)
    requires Lawful(c) && c.n > 0 && WalletTheorems.ValidWallet(c, first, second) && timelock != 0
    requires GetDescriptor(c, second).Some? && w == Recovery(first, GetDescriptor(c, second).value)
    requires q.feeRate > 0.0 && q.Run(coins).Ok? && Honest(c, ledger, coins)
    requires RecoverySearch(c, timelock, w, q.Run(coins).value.outpointToAddr).Some?
    requires
      var info := q.Run(coins).value;
      SignedFrom(c, info, RecoverySearch(c, timelock, w, info.outpointToAddr).value,
                 WithSequence(info.msgTx, timelock), signed)
    requires i < |signed.txIn|
    ensures signed.txIn[i].sequence == timelock
    ensures
      var info := q.Run(coins).value;
      var keys := RecoverySearch(c, timelock, w, info.outpointToAddr).value;
      && InLedger(ledger, signed)
      && InputSpends(c, LedgerOutputs(ledger, signed), signed, i)
         == Openable(c, info, keys, signed.txIn[i].previousOutPoint)
  {
    var info := q.Run(coins).value;
    var start := StartKeys(c, w, 0).value;
    var keys := RecoverySearch(c, timelock, w, info.outpointToAddr).value;
    hide *;
    RecoverySearchIs(c, timelock, w, info.outpointToAddr);
    var tx := WithSequence(info.msgTx, timelock);
    SequencedCopy(c, info, keys, timelock, signed);
    LawfulParts(c);
    CreatedVersion(q, coins);
    RecoveryStart(c, first, second, w);
    SignedInput(c, ledger, q, coins, keys, tx, signed, i);
    var o := info.msgTx.txIn[i].previousOutPoint;
    SearchFinds(c, ScriptPath(timelock), start.0, start.1, info.outpointToAddr, o);
    var k: nat :| EntryAt(c, ScriptPath(timelock), start.0, start.1, k)
               == Some((info.outpointToAddr[o], keys[info.outpointToAddr[o]]));
    LeafSpendsInput(c, timelock, start.0, GetBip44Key(c, second, 0).value, ledger, info, keys, signed, i, k);
  }

  lemma RecoverySearchIs(c: Suite, timelock: uint32, w: Wallet, needed: map<OutPoint, string>)
    requires c.n > 0
    ensures RecoverySearch(c, timelock, w, needed)
         == match StartKeys(c, w, 0)
            case None => None
            case Some(keys) => KeySearch.Search(c, ScriptPath(timelock), keys.0, keys.1, needed, 0)
  {
    hide StartKeys, KeySearch.Search;
  }

  lemma SequencedCopy(c: Suite, info: TransactionInfo, keys: map<string, Signer>, timelock: uint32, signed: MsgTx)
    requires c.n > 0 && SignedFrom(c, info, keys, WithSequence(info.msgTx, timelock), signed)
    ensures |signed.txIn| == |info.msgTx.txIn| && signed.version == info.msgTx.version
    ensures SameInputs(WithSequence(info.msgTx, timelock), info.msgTx)
    ensures forall i :: 0 <= i < |signed.txIn| ==>
      signed.txIn[i].sequence == timelock && signed.txIn[i].previousOutPoint == info.msgTx.txIn[i].previousOutPoint
  {
    hide WitnessFor, Signable;
  }

  lemma RecoveryStart(c: Suite, first: ExtKey, second: ExtKey, w: Wallet)
    requires Lawful(c) && WalletTheorems.ValidWallet(c, first, second)
    requires GetDescriptor(c, second).Some? && w == Recovery(first, GetDescriptor(c, second).value)
    requires StartKeys(c, w, 0).Some?
    ensures GetBip44Key(c, second, 0).Some?
    ensures var start := StartKeys(c, w, 0).value; var b := GetBip44Key(c, second, 0).value;
      && WalletTheorems.PrivateLeaf(c, start.0) && WalletTheorems.PrivateLeaf(c, b)
      && start.1 == WalletTheorems.NeuterKey(c, b)
  {
    LawfulParts(c);
    hide Lawful, GetBip44Key, Descriptor.Import, GetDescriptor, WalletTheorems.NeuterKey, WalletTheorems.PrivateLeaf;
    WalletTheorems.OwnDescriptor(c, second, 0);
    WalletTheorems.KeyIsPrivate(c, first, 0);
    WalletTheorems.KeyIsPrivate(c, second, 0);
  }
}
