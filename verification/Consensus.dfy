/**
 The network's rules for spending a Taproot output: section "Script validation rules" of
 BIP 341, the opcodes of the wallet's leaf under BIP 342, BIP 112 and BIP 68.
 */
module Consensus {
  import opened Prelude
  import opened Chain
  import opened Crypto
  import opened Script

  // ----- relative timelocks -----

  const SEQUENCE_DISABLE: nat := 0x8000_0000
  const SEQUENCE_TYPE: nat := 0x40_0000
  const SEQUENCE_MASK: nat := 0x1_0000

  predicate LockDisabled(sequence: nat) {
    sequence / SEQUENCE_DISABLE % 2 == 1
  }

  predicate LockByTime(sequence: nat) {
    sequence / SEQUENCE_TYPE % 2 == 1
  }

  function LockValue(sequence: nat): nat {
    sequence % SEQUENCE_MASK
  }

  /**
   BIP 68: may an input with this sequence, spending a coin of height `coinHeight`, enter
   the block after `tip`? The median times are those before the coin's block and of the tip.
   */
  predicate InputFinal(sequence: uint32, coinHeight: int, tip: int, coinTime: int, tipTime: int) {
    || LockDisabled(sequence)
    || (LockByTime(sequence) && coinTime + LockValue(sequence) * 512 - 1 < tipTime)
    || (!LockByTime(sequence) && coinHeight + LockValue(sequence) - 1 < tip + 1)
  }

  /** BIP 112: does `OP_CHECKSEQUENCEVERIFY` let the stack element pass? */
  predicate SequenceVerifies(operand: Bytes, sequence: uint32, version: int) {
    && |operand| <= 5 && MinimalNum(operand)
    && var n := DecodeNum(operand);
       && n >= 0
       && (LockDisabled(n)
           || (&& version >= 2
               && !LockDisabled(sequence)
               && LockByTime(n) == LockByTime(sequence)
               && LockValue(n) <= LockValue(sequence)))
  }

  // ----- script execution -----

  /** What execution sees of the input: a signature test for an x-only key, the sequence, the version. */
  datatype Context = Context(checkSig: (Bytes, Bytes) -> bool, sequence: uint32, version: int)

  /** The top of the stack is its last element; opcodes the wallet does not use fail. */
  function Execute(ops: seq<Op>, stack: seq<Bytes>, ctx: Context): Option<seq<Bytes>> {
    if ops == [] then Some(stack)
    else
      match ops[0]
      case Push(data) => Execute(ops[1..], stack + [data], ctx)
      case Code(op) =>
        if op == OP_CHECKSIGVERIFY then
          if |stack| < 2 then None
          else if !KeyCheck(stack[|stack| - 1], stack[|stack| - 2], ctx) then None
          else Execute(ops[1..], stack[..|stack| - 2], ctx)
        else if op == OP_CHECKSEQUENCEVERIFY then
          if stack == [] || !SequenceVerifies(stack[|stack| - 1], ctx.sequence, ctx.version) then None
          else Execute(ops[1..], stack, ctx)
        else None
  }

  /** BIP 342: empty keys fail, keys of unknown size pass, and 32-byte keys check a signature. */
  predicate KeyCheck(key: Bytes, signature: Bytes, ctx: Context) {
    key != [] && signature != [] && (|key| == 32 ==> ctx.checkSig(key, signature))
  }

  /** A stack element counts as true unless it is zero or negative zero. */
  predicate Truthy(b: Bytes) {
    exists i :: 0 <= i < |b| && b[i] != 0 && (i < |b| - 1 || b[i] != 0x80)
  }

  predicate ScriptSucceeds(script: Bytes, stack: seq<Bytes>, ctx: Context) {
    match Parse(script)
    case None => false
    case Some(ops) =>
      match Execute(ops, stack, ctx)
      case None => false
      case Some(end) => |end| == 1 && Truthy(end[0])
  }

  // ----- Taproot spends -----

  /** The low 32 bits of a number, least significant byte first. */
  function FourBytes(n: nat): Bytes {
    [n % 0x100, n / 0x100 % 0x100, n / 0x1_0000 % 0x100, n / 0x100_0000 % 0x100]
  }

  /** A length in front of the bytes it counts. */
  function SizePrefix(n: nat): Bytes {
    if n <= 252 then [n]
    else if n <= 0xFFFF then [253, n % 0x100, n / 0x100]
    else if n <= 0xFFFF_FFFF then [254] + FourBytes(n)
    else [255] + FourBytes(n) + FourBytes(n / 0x1_0000_0000)
  }

  /** BIP 341: a leaf is hashed as its version, the length of its script, and the script. */
  function TapLeafHash(c: Suite, version: byte, script: Bytes): Bytes {
    c.tapLeaf([version] + SizePrefix(|script|) + script)
  }

  /** Folds the inclusion proof into the leaf hash, the smaller of two hashes first. */
  function MerklePath(c: Suite, hash: Bytes, path: Bytes): Bytes
    decreases |path|
  {
    if |path| < 32 then hash
    else MerklePath(c, c.tapBranch(Sorted(hash, path[..32])), path[32..])
  }

  function Sorted(a: Bytes, b: Bytes): Bytes {
    if FromBE(a) < FromBE(b) then a + b else b + a
  }

  /** Does the control block show that `program` commits to `script`? */
  predicate Commits(c: Suite, program: Bytes, script: Bytes, control: Bytes)
    requires c.n > 0
  {
    && 33 <= |control| <= 33 + 32 * 128 && (|control| - 33) % 32 == 0
    && var key := control[1..33];
       var leafHash := TapLeafHash(c, LeafVersion(control), script);
       var tweak := c.tapTweak(key + MerklePath(c, leafHash, control[33..]));
       && LiftX(c, key).Some?
       && tweak < c.n
       && var output := c.add(LiftX(c, key).value, c.mul(tweak));
          output.Affine? && output.x == program && output.odd == (control[0] % 2 == 1)
  }

  function LeafVersion(control: Bytes): byte
    requires control != []
  {
    control[0] - control[0] % 2
  }

  function WitnessProgram(program: Bytes): Bytes {
    [0x51, 32] + program
  }

  /** The transaction as a signature sees it: all but the witnesses. */
  function WithoutWitnesses(tx: MsgTx): MsgTx {
    tx.(txIn := seq(|tx.txIn|, i requires 0 <= i < |tx.txIn| => tx.txIn[i].(witnessStack := [])))
  }

  predicate KeyPathSpends(c: Suite, program: Bytes, signature: Bytes, message: Bytes) {
    |signature| == 64 && LiftX(c, program).Some? && c.verify(program, message, signature)
  }

  predicate ScriptPathSpends(c: Suite, program: Bytes, items: seq<Bytes>, spent: seq<TxOut>, tx: MsgTx, i: nat)
    requires c.n > 0 && |items| >= 2 && i < |tx.txIn|
  {
    var control, script := items[|items| - 1], items[|items| - 2];
    && Commits(c, program, script, control)
    && LeafVersion(control) == 0xC0
    && var message := c.sigHash(SigMessage(spent, WithoutWitnesses(tx), i,
                                           Some(TapLeafHash(c, LeafVersion(control), script))));
       ScriptSucceeds(script, items[..|items| - 2],
                      Context((key, signature) => |signature| == 64 && c.verify(key, message, signature),
                              tx.txIn[i].sequence, tx.version))
  }

  /** Input `i` may spend `spent[i]`: by one signature, or by a script and a control block; no annex. */
  predicate InputSpends(c: Suite, spent: seq<TxOut>, tx: MsgTx, i: nat)
    requires c.n > 0 && i < |tx.txIn| == |spent|
  {
    var items, script := tx.txIn[i].witnessStack, spent[i].pkScript;
    && |script| == 34 && script[..2] == [0x51, 32]
    && if |items| == 1 then
         KeyPathSpends(c, script[2..], items[0], c.sigHash(SigMessage(spent, WithoutWitnesses(tx), i, None)))
       else |items| >= 2 && ScriptPathSpends(c, script[2..], items, spent, tx, i)
  }
}
