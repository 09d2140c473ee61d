/** Every input the wallet signs satisfies the script of its coin. */
module SigningTheorems {
  import opened Prelude
  import opened Chain
  import opened Crypto
  import opened Script
  import opened Bip32
  import opened Bip44
  import opened Taproot
  import opened Consensus
  import opened Wallet
  import opened CoinSelection
  import opened CoinOutcome
  import opened Signing
  import KeySearch
  import TaprootTheorems
  import WalletTheorems

  // ----- coins as the chain knows them -----

  /** The locking script of a Taproot address. */
  function ScriptFor(c: Suite, address: string): Option<Bytes> {
    var program :- c.decodeAddress(address);
    if |program| == 32 then Some(WitnessProgram(program)) else None
  }

  /** The coin's amount and script are the ledger's, and its address is that of the script. */
  ghost predicate HonestCoin(c: Suite, ledger: map<OutPoint, TxOut>, coin: Utxo) {
    && coin.outpoint in ledger
    && ledger[coin.outpoint].value == coin.amount
    && coin.DecodeScript() == Some(ledger[coin.outpoint].pkScript)
    && ScriptFor(c, coin.fromAddress) == Some(ledger[coin.outpoint].pkScript)
  }

  ghost predicate Honest(c: Suite, ledger: map<OutPoint, TxOut>, coins: seq<Utxo>) {
    forall i :: 0 <= i < |coins| ==> HonestCoin(c, ledger, coins[i])
  }

  ghost predicate InLedger(ledger: map<OutPoint, TxOut>, tx: MsgTx) {
    forall i :: 0 <= i < |tx.txIn| ==> tx.txIn[i].previousOutPoint in ledger
  }

  function LedgerOutputs(ledger: map<OutPoint, TxOut>, tx: MsgTx): (s: seq<TxOut>)
    requires InLedger(ledger, tx)
    ensures |s| == |tx.txIn|
  {
    seq(|tx.txIn|, i requires 0 <= i < |tx.txIn| => ledger[tx.txIn[i].previousOutPoint])
  }

  // ----- no lookup misses -----

  /** What the maps of a created transaction say about an outpoint comes from one of the coins. */
  ghost predicate KnownFrom(info: TransactionInfo, o: OutPoint, coin: Utxo) {
    && o == coin.outpoint
    && o in info.outpointToAddr && info.outpointToAddr[o] == coin.fromAddress
    && coin.DecodeScript().Some?
    && SpentBy(info, o) == Some(TxOut(coin.amount, coin.DecodeScript().value))
  }

  lemma PickedAreCoins(coins: seq<Utxo>, p: Plan, i: nat)
    requires p.Fits(coins) && i < |p.Picked(coins)|
    ensures p.Picked(coins)[i] in coins
  {
    var at := if i < p.cover + p.topUp then i else i - p.topUp;
    assert p.Picked(coins)[i] == coins[at];
  }

  lemma ShapedKnown(info: TransactionInfo, picked: seq<Utxo>, blanks: nat, i: nat)
    requires i < |info.msgTx.txIn|
    requires Shaped(Draft(info.msgTx.txIn, info.outpointToAddr, info.outpointToAmt, info.outpointToScript),
                    picked, blanks)
    ensures exists k :: 0 <= k < |picked| && KnownFrom(info, info.msgTx.txIn[i].previousOutPoint, picked[k])
  {
    hide *;
    var d := Draft(info.msgTx.txIn, info.outpointToAddr, info.outpointToAmt, info.outpointToScript);
    ShapedLength(d, picked, blanks);
    ShapedOutpoint(d, picked, blanks, i);
    var o := info.msgTx.txIn[i].previousOutPoint;
    ShapedRemembers(d, picked, blanks, o);
    var k :| 0 <= k < |picked| && Holds(d, o, picked[k]);
    HoldsKnown(info, d, o, picked[k]);
  }

  lemma ShapedLength(d: Draft, picked: seq<Utxo>, blanks: nat)
    requires Shaped(d, picked, blanks)
    ensures |d.txIn| == |picked|
  {
    hide InputFor, Remembers;
  }

  lemma HoldsKnown(info: TransactionInfo, d: Draft, o: OutPoint, coin: Utxo)
    requires Holds(d, o, coin)
    requires d == Draft(d.txIn, info.outpointToAddr, info.outpointToAmt, info.outpointToScript)
    ensures KnownFrom(info, o, coin)
  {
    hide Utxo.DecodeScript;
  }

  /** Script, amount and address of every input are found, and they are those of a coin. */
  lemma InputsKnown(q: Request, coins: seq<Utxo>, i: nat)
    requires q.feeRate > 0.0 && q.Run(coins).Ok? && i < |q.Run(coins).value.msgTx.txIn|
    ensures exists coin :: coin in coins
                        && KnownFrom(q.Run(coins).value, q.Run(coins).value.msgTx.txIn[i].previousOutPoint, coin)
  {
    hide Create, Complete, Shaped, KnownFrom, Build, Plan.Picked;
    Outcome(q, coins);
    var info, p := q.Run(coins).value, q.Plan(coins);
    ShapedKnown(info, p.Picked(coins), p.cover + p.topUp, i);
    var k :| 0 <= k < |p.Picked(coins)| && KnownFrom(info, info.msgTx.txIn[i].previousOutPoint, p.Picked(coins)[k]);
    PickedAreCoins(coins, p, k);
  }

  /** The transaction created has version 2. */
  lemma CreatedVersion(q: Request, coins: seq<Utxo>)
    requires q.feeRate > 0.0 && q.Run(coins).Ok?
    ensures q.Run(coins).value.msgTx.version == 2
  {
    hide Create, Complete, Shaped, SelectedPlan;
    Outcome(q, coins);
  }

  /** The search knows every needed address, each by one of the first 700 entries, with that very address. */
  lemma SearchFinds(c: Suite, route: Route, first: Bip44Key, second: Bip44Key,
                    needed: map<OutPoint, string>, o: OutPoint)
    requires c.n > 0 && o in needed && KeySearch.Search(c, route, first, second, needed, 0).Some?
    ensures var keys := KeySearch.Search(c, route, first, second, needed, 0).value;
      && needed[o] in keys
      && exists i: nat :: i < 700 && EntryAt(c, route, first, second, i) == Some((needed[o], keys[needed[o]]))
  {
    KeySearch.BatchesCover();
    hide KeySearch.Search, KeySearch.MappingOf, KeySearch.Covered, EntryAt, Reaches, KeySearch.AddressBelow;
    KeySearch.SearchIff(c, route, first, second, needed, 0);
    var k :| 0 <= k && KeySearch.StopsAt(c, route, first, second, needed, k)
          && KeySearch.Search(c, route, first, second, needed, 0)
             == Some(KeySearch.MappingOf(c, route, first, second, KeySearch.Covered(k + 1)));
    KeySearch.CoveredGrows(k + 1, KeySearch.BATCHES);
    KeySearch.MappingIsPrefix(c, route, first, second, KeySearch.Covered(k + 1), needed[o]);
  }

  /** The scalar that signs for an entry. */
  function FinalKey(c: Suite, signer: Signer): nat
    requires c.n > 0
  {
    match signer
    case KeySigner(key, merkleRoot) => SignerKey(c, key, WithScript(merkleRoot))
    case LeafSigner(key, _) => SignerKey(c, key, NoScript)
  }

  /**
   Signing never misses a lookup: once the keys are found, it can only fail on an input
   whose final key is the zero scalar. `tx` may differ from the created transaction in its sequences.
   */
  lemma OnlyZeroKeysFail(c: Suite, route: Route, first: Bip44Key, second: Bip44Key,
                         q: Request, coins: seq<Utxo>, tx: MsgTx)
    requires c.n > 0 && q.feeRate > 0.0 && q.Run(coins).Ok?
    requires KeySearch.Search(c, route, first, second, q.Run(coins).value.outpointToAddr, 0).Some?
    requires |tx.txIn| == |q.Run(coins).value.msgTx.txIn|
    requires forall i :: 0 <= i < |tx.txIn| ==>
      tx.txIn[i].previousOutPoint == q.Run(coins).value.msgTx.txIn[i].previousOutPoint
    ensures
      var info := q.Run(coins).value;
      var keys := KeySearch.Search(c, route, first, second, info.outpointToAddr, 0).value;
      && AllFetched(info, tx)
      && (forall i :: 0 <= i < |tx.txIn| ==> SignerOf(info, keys, tx.txIn[i].previousOutPoint).Some?)
      && (Signable(c, info, keys, tx) <==>
            forall i :: 0 <= i < |tx.txIn| ==>
              FinalKey(c, SignerOf(info, keys, tx.txIn[i].previousOutPoint).value) != 0)
  {
    var info := q.Run(coins).value;
    var keys := KeySearch.Search(c, route, first, second, info.outpointToAddr, 0).value;
    hide Create, KeySearch.Search, EntryAt, SignerKey, MessageFor;
    forall i | 0 <= i < |tx.txIn|
      ensures SpentBy(info, tx.txIn[i].previousOutPoint).Some?
      ensures SignerOf(info, keys, tx.txIn[i].previousOutPoint).Some?
    {
      InputsKnown(q, coins, i);
      SearchFinds(c, route, first, second, info.outpointToAddr, tx.txIn[i].previousOutPoint);
    }
    hide Request.Run;
    forall i | 0 <= i < |tx.txIn|
      ensures WitnessFor(c, info, keys, Spent(info, tx), tx, i).Some?
           == (FinalKey(c, SignerOf(info, keys, tx.txIn[i].previousOutPoint).value) != 0)
    {
    }
  }

  // ----- one entry signs -----

  /** A key-path entry's signature spends the output of its own address. */
  lemma KeyEntrySpends(c: Suite, timelock: uint32, first: Bip44Key, second: Bip44Key, i: nat,
                       address: string, signer: Signer, message: Bytes)
    requires Lawful(c) && WalletTheorems.PrivateLeaf(c, first) && WalletTheorems.PrivateLeaf(c, second)
    requires EntryAt(c, KeyPath(timelock), first, second, i) == Some((address, signer))
    ensures signer.KeySigner?
    ensures Sign(c, signer, message).Some? ==>
      && |Sign(c, signer, message).value| == 1
      && c.decodeAddress(address).Some?
      && KeyPathSpends(c, c.decodeAddress(address).value, Sign(c, signer, message).value[0], message)
  {
    assert c.n > 0 && GroupLaws(c);
    WalletTheorems.RoutesNameSameAddress(c, timelock, first, second, i);
    WalletTheorems.WalkNeuter(c, second, i);
    var f, s := Walk(c, first, i).value, Walk(c, second, i).value;
    TaprootTheorems.KeyPathSpendVerifies(c, timelock, s.indexKey.key.d, f.indexKey.key.d, message);
    hide Lawful, Walk, CreateTweakedAddress, CreateTweakedAddressFromPublicKey, TaprootSign, KeyPathSpends;
  }

  /** The tweak of a leaf's output is a canonical scalar. */
  predicate CanonicalTweak(c: Suite, leaf: SigningData) {
    |leaf.controlBlock| >= 33 && c.tapTweak(leaf.controlBlock[1..33] + leaf.merkleRoot) < c.n
  }

  /** The signer is that of the address created from internal scalar `k`. */
  ghost predicate LeafOf(c: Suite, timelock: uint32, k: nat, address: string, signer: Signer)
    requires c.n > 0
  {
    && IsScalar(c, k) && signer.LeafSigner?
    && CreateFromTweaked(c, timelock, c.mul(k), signer.privateKey)
       == Some(Tweaked(address, c.mul(k), signer.tapscript))
  }

  /** What a script-path entry holds, in terms of the two keys at its index. */
  lemma LeafEntry(c: Suite, timelock: uint32, first: Bip44Key, second: Bip44Key, i: nat,
                  address: string, signer: Signer)
    requires GroupLaws(c) && WalletTheorems.PrivateLeaf(c, first) && WalletTheorems.PrivateLeaf(c, second)
    requires EntryAt(c, ScriptPath(timelock), first, WalletTheorems.NeuterKey(c, second), i) == Some((address, signer))
    ensures signer.LeafSigner? && IsScalar(c, signer.privateKey)
    ensures exists k: nat :: LeafOf(c, timelock, k, address, signer)
  {
    assert c.n > 0;
    WalletTheorems.RoutesNameSameAddress(c, timelock, first, second, i);
    WalletTheorems.WalkNeuter(c, second, i);
    var f, s := Walk(c, first, i).value, Walk(c, second, i).value;
    var d1, d2 := f.indexKey.key.d, s.indexKey.key.d;
    TaprootTheorems.RoutesAgree(c, timelock, d2, d1);
    TaprootTheorems.TweaksAgree(c, d2, FirstKeyHash(c, d1));
    var k := TweakPrivate(c, d2, FirstKeyHash(c, d1));
    assert PublicPoint(c, WalletTheorems.NeuterKey(c, s).indexKey) == c.mul(d2);
    assert CreateTweakedAddressFromPublicKey(c, timelock, c.mul(d2), d1)
        == CreateFromTweaked(c, timelock, c.mul(k), d1);
    TaprootTheorems.CreatedFrom(c, timelock, k, d1);
    TaprootTheorems.InternalKeyKept(c, timelock, c.mul(k), d1);
    assert LeafOf(c, timelock, k, address, signer);
    hide GroupLaws, Walk, CreateTweakedAddress, CreateFromTweaked, TweakPublic, TweakPrivate;
  }

  /** How an input of the recovery transaction meets the network's rules for its leaf. */
  ghost predicate LeafSpends(c: Suite, address: string, items: seq<Bytes>, leaf: SigningData, ctx: Context)
    requires c.n > 0
  {
    && |items| == 3 && items[1] == leaf.leafScript && items[2] == leaf.controlBlock && leaf.controlBlock != []
    && c.decodeAddress(address).Some? && |c.decodeAddress(address).value| == 32
    && LeafVersion(leaf.controlBlock) == BASE_LEAF_VERSION
    && leaf.merkleRoot == LeafHash(c, BASE_LEAF_VERSION, leaf.leafScript)
    && ScriptSucceeds(leaf.leafScript, [items[0]], ctx)
    && (Commits(c, c.decodeAddress(address).value, leaf.leafScript, leaf.controlBlock)
        <==> LiftX(c, c.decodeAddress(address).value).Some? && CanonicalTweak(c, leaf))
  }

  /** The context in which the leaf of a recovery input runs. */
  function LeafContext(c: Suite, message: Bytes, sequence: uint32): Context {
    Context((key, signature) => |signature| == 64 && c.verify(key, message, signature), sequence, 2)
  }

  lemma ProgramReadsBack(c: Suite, k: nat)
    requires Lawful(c) && k < c.n
    ensures |XOnly(c.mul(k))| == 32 && c.decodeAddress(c.encodeAddress(XOnly(c.mul(k)))) == Some(XOnly(c.mul(k)))
    ensures LiftX(c, XOnly(c.mul(k))).Some? <==> k > 0
  {
    assert c.mul(0) == Infinity && !c.onCurve(Zeros(32));
    if k > 0 {
      ScalarPoint(c, k);
    }
  }

  lemma LeafFacts(c: Suite, timelock: uint32, k: nat, address: string, signer: Signer)
    requires GroupLaws(c) && LeafOf(c, timelock, k, address, signer)
    ensures IsScalar(c, k) && signer.LeafSigner?
    ensures var leaf, o := signer.tapscript, TaprootTheorems.OutputScalar(c, k, signer.tapscript.merkleRoot);
      && |leaf.controlBlock| == 33 && leaf.controlBlock[1..33] == XOnly(c.mul(k))
      && LeafVersion(leaf.controlBlock) == BASE_LEAF_VERSION
      && leaf.merkleRoot == LeafHash(c, BASE_LEAF_VERSION, leaf.leafScript)
      && Some(leaf.leafScript) == CreateTapscriptTimelockFromKey(c, timelock, c.mul(signer.privateKey))
      && o < c.n && address == c.encodeAddress(XOnly(c.mul(o)))
  {
    hide GroupLaws, CreateFromTweaked, CreateTapscriptTimelockFromKey, LeafHash, TaprootTheorems.OutputScalar, IsScalar;
    ScalarBelow(c, k);
    assert CreateFromTweaked(c, timelock, c.mul(k), signer.privateKey)
        == Some(Tweaked(address, c.mul(k), signer.tapscript));
    TaprootTheorems.CreatedFrom(c, timelock, k, signer.privateKey);
    ScalarPoint(c, k);
  }

  lemma ScalarBelow(c: Suite, k: nat)
    requires IsScalar(c, k)
    ensures k < c.n
  {
  }

  lemma ZeroProgram(c: Suite)
    requires GroupLaws(c)
    ensures XOnly(c.mul(0)) == Zeros(32)
  {
  }

  /** An address of the wallet opens to its leaf exactly when its output is a point and its tweak canonical. */
  lemma CommitsOrInfinite(c: Suite, timelock: uint32, k: nat, address: string, signer: Signer)
    requires Lawful(c) && LeafOf(c, timelock, k, address, signer)
    ensures var leaf := signer.tapscript;
      && c.decodeAddress(address).Some? && |c.decodeAddress(address).value| == 32
      && (Commits(c, c.decodeAddress(address).value, leaf.leafScript, leaf.controlBlock)
          <==> LiftX(c, c.decodeAddress(address).value).Some? && CanonicalTweak(c, leaf))
  {
    hide *;
    LawfulParts(c);
    LeafFacts(c, timelock, k, address, signer);
    var leaf, o := signer.tapscript, TaprootTheorems.OutputScalar(c, k, signer.tapscript.merkleRoot);
    ProgramReadsBack(c, o);
    if o > 0 {
      CommitsWhenPoint(c, timelock, k, address, signer);
    } else {
      ZeroProgram(c);
      NoPointNoCommit(c, k, leaf.leafScript, leaf.controlBlock);
    }
  }

  lemma CommitsWhenPoint(c: Suite, timelock: uint32, k: nat, address: string, signer: Signer)
    requires Lawful(c) && LeafOf(c, timelock, k, address, signer)
    requires |signer.tapscript.controlBlock| == 33 && signer.tapscript.controlBlock[1..33] == XOnly(c.mul(k))
    requires TaprootTheorems.OutputScalar(c, k, signer.tapscript.merkleRoot) > 0
    ensures
      Commits(c, XOnly(c.mul(TaprootTheorems.OutputScalar(c, k, signer.tapscript.merkleRoot))),
              signer.tapscript.leafScript, signer.tapscript.controlBlock)
      == CanonicalTweak(c, signer.tapscript)
  {
    hide Lawful, CreateFromTweaked, Commits, XOnly, TaprootTheorems.OutputScalar;
    assert CreateFromTweaked(c, timelock, c.mul(k), signer.privateKey)
        == Some(Tweaked(address, c.mul(k), signer.tapscript));
    TaprootTheorems.ControlBlockCommits(c, timelock, k, signer.privateKey);
  }

  /** Sums of multiples of the generator are on the curve, and 32 zero bytes are not. */
  lemma SumOnCurve(c: Suite, d: nat, e: nat)
    requires GroupLaws(c) && d < c.n && e < c.n
    ensures var p := c.add(c.mul(d), c.mul(e)); p.Affine? ==> p.x != Zeros(32)
  {
    GroupOrder(c);
    AddScalars(c, d, e);
    NotZeros(c);
    if (d + e) % c.n > 0 {
      ScalarPoint(c, (d + e) % c.n);
    }
    hide GroupLaws;
  }

  lemma NotZeros(c: Suite)
    requires GroupLaws(c)
    ensures !c.onCurve(Zeros(32))
  {
  }

  /** No control block for an internal key of the group opens the program of no point. */
  lemma NoPointNoCommit(c: Suite, k: nat, script: Bytes, control: Bytes)
    requires GroupLaws(c) && IsScalar(c, k) && |control| == 33 && control[1..33] == XOnly(c.mul(k))
    ensures !Commits(c, Zeros(32), script, control)
  {
    hide GroupLaws, TapLeafHash, MerklePath, TaprootTheorems.EvenScalar, LiftX, XOnly;
    TaprootTheorems.EvenScalarLifts(c, k);
    var leafHash := TapLeafHash(c, LeafVersion(control), script);
    var tweak := c.tapTweak(control[1..33] + MerklePath(c, leafHash, control[33..]));
    if tweak < c.n {
      SumOnCurve(c, TaprootTheorems.EvenScalar(c, k), tweak);
    }
  }

  /** A script-path entry's witness meets every rule for its own address. */
  lemma LeafEntrySpends(c: Suite, timelock: uint32, first: Bip44Key, second: Bip44Key, i: nat,
                        address: string, signer: Signer, message: Bytes)
    requires Lawful(c) && WalletTheorems.PrivateLeaf(c, first) && WalletTheorems.PrivateLeaf(c, second)
    requires EntryAt(c, ScriptPath(timelock), first, WalletTheorems.NeuterKey(c, second), i) == Some((address, signer))
    requires timelock != 0
    ensures signer.LeafSigner? && IsScalar(c, signer.privateKey)
    ensures Sign(c, signer, message).Some? ==>
      LeafSpends(c, address, Sign(c, signer, message).value, signer.tapscript, LeafContext(c, message, timelock))
  {
    assert c.n > 0 && GroupLaws(c);
    hide *;
    LeafEntry(c, timelock, first, second, i, address, signer);
    var k: nat :| LeafOf(c, timelock, k, address, signer);
    if Sign(c, signer, message).Some? {
      LeafWitness(c, signer, message);
      LeafRuns(c, timelock, signer.privateKey, signer.tapscript.leafScript, message);
      LeafMeetsRules(c, timelock, k, address, signer, Sign(c, signer, message).value,
                     LeafContext(c, message, timelock));
    }
  }

  lemma LeafWitness(c: Suite, signer: Signer, message: Bytes)
    requires c.n > 0 && signer.LeafSigner? && Sign(c, signer, message).Some?
    ensures SchnorrSign(c, SignerKey(c, signer.privateKey, NoScript), message).Some?
    ensures Sign(c, signer, message).value
         == [SchnorrSign(c, SignerKey(c, signer.privateKey, NoScript), message).value,
             signer.tapscript.leafScript, signer.tapscript.controlBlock]
  {
    hide SignerKey;
  }

  lemma LeafMeetsRules(c: Suite, timelock: uint32, k: nat, address: string, signer: Signer,
                       items: seq<Bytes>, ctx: Context)
    requires Lawful(c) && LeafOf(c, timelock, k, address, signer)
    requires |items| == 3 && items[1] == signer.tapscript.leafScript && items[2] == signer.tapscript.controlBlock
    requires ScriptSucceeds(signer.tapscript.leafScript, [items[0]], ctx)
    ensures LeafSpends(c, address, items, signer.tapscript, ctx)
  {
    assert GroupLaws(c);
    CommitsOrInfinite(c, timelock, k, address, signer);
    LeafFacts(c, timelock, k, address, signer);
    hide Lawful, GroupLaws, LeafOf, Commits, ScriptSucceeds, LeafHash, CanonicalTweak, LiftX, LeafVersion;
  }

  /** The first key's signature makes its leaf succeed when the sequence is the timelock. */
  lemma LeafRuns(c: Suite, timelock: uint32, d: nat, leafScript: Bytes, message: Bytes)
    requires Lawful(c) && IsScalar(c, d) && timelock != 0
    requires Some(leafScript) == CreateTapscriptTimelockFromKey(c, timelock, c.mul(d))
    ensures
      var signature := SchnorrSign(c, SignerKey(c, d, NoScript), message);
      signature.Some? ==> ScriptSucceeds(leafScript, [signature.value], LeafContext(c, message, timelock))
  {
    assert c.n > 0;
    TaprootTheorems.LeafKeySigns(c, d, message);
    TaprootTheorems.OwnTimelockPasses(timelock);
    hide Lawful, ScriptSucceeds, CreateTapscriptTimelockFromKey, SequenceVerifies, ScriptNum, TweakPublic, TweakPrivate;
    if SchnorrSign(c, SignerKey(c, d, NoScript), message).Some? {
      var signature := SchnorrSign(c, SignerKey(c, d, NoScript), message).value;
      TaprootTheorems.LeafSucceedsIff(c, timelock, c.mul(d), signature, LeafContext(c, message, timelock));
    }
  }
}
