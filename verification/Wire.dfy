/** The bytes of a transaction (BIP 144), of which `Chain` only gives the number. */
module Wire {
  import opened Prelude
  import opened Chain
  import opened Consensus

  function EightBytes(v: int): Bytes {
    var n := v % 0x1_0000_0000_0000_0000;
    FourBytes(n) + FourBytes(n / 0x1_0000_0000)
  }

  function InputBytes(txin: TxIn): Bytes {
    txin.previousOutPoint.hash + FourBytes(txin.previousOutPoint.index) + [0] + FourBytes(txin.sequence)
  }

  function InputsBytes(ins: seq<TxIn>): Bytes {
    if ins == [] then [] else InputsBytes(ins[..|ins| - 1]) + InputBytes(ins[|ins| - 1])
  }

  function Counted(b: Bytes): Bytes {
    SizePrefix(|b|) + b
  }

  function OutputBytes(o: TxOut): Bytes {
    EightBytes(o.value) + Counted(o.pkScript)
  }

  function OutputsBytes(outs: seq<TxOut>): Bytes {
    if outs == [] then [] else OutputsBytes(outs[..|outs| - 1]) + OutputBytes(outs[|outs| - 1])
  }

  function ItemsBytes(items: seq<Bytes>): Bytes {
    if items == [] then [] else ItemsBytes(items[..|items| - 1]) + Counted(items[|items| - 1])
  }

  function WitnessesBytes(ins: seq<TxIn>): Bytes {
    if ins == [] then []
    else
      var items := ins[|ins| - 1].witnessStack;
      WitnessesBytes(ins[..|ins| - 1]) + (SizePrefix(|items|) + ItemsBytes(items))
  }

  function Body(tx: MsgTx): Bytes {
    SizePrefix(|tx.txIn|) + InputsBytes(tx.txIn) + SizePrefix(|tx.txOut|) + OutputsBytes(tx.txOut)
  }

  /** Without witnesses, as before BIP 144. */
  function Stripped(tx: MsgTx): Bytes {
    FourBytes(tx.version % 0x1_0000_0000) + Body(tx) + FourBytes(tx.lockTime)
  }

  /** With a marker, a flag and the witnesses when some input has one. */
  function Serialized(tx: MsgTx): Bytes {
    if HasWitness(tx)
    then FourBytes(tx.version % 0x1_0000_0000) + [0, 1] + Body(tx) + WitnessesBytes(tx.txIn) + FourBytes(tx.lockTime)
    else Stripped(tx)
  }

  lemma PrefixSize(n: nat)
    ensures |SizePrefix(n)| == VarIntSize(n)
  {
  }

  lemma {:induction false} InputsSize(ins: seq<TxIn>)
    requires forall i :: 0 <= i < |ins| ==> |ins[i].previousOutPoint.hash| == 32
    ensures |InputsBytes(ins)| == 41 * |ins|
  {
    if ins != [] {
      InputsSize(ins[..|ins| - 1]);
      hide FourBytes;
    }
  }

  lemma {:induction false} OutputsLength(outs: seq<TxOut>)
    ensures |OutputsBytes(outs)| == OutputsSize(outs)
  {
    if outs != [] {
      OutputsLength(outs[..|outs| - 1]);
      PrefixSize(|outs[|outs| - 1].pkScript|);
      hide SizePrefix, VarIntSize;
    }
  }

  lemma {:induction false} ItemsLength(items: seq<Bytes>)
    ensures |ItemsBytes(items)| == ItemsSize(items)
  {
    if items != [] {
      ItemsLength(items[..|items| - 1]);
      PrefixSize(|items[|items| - 1]|);
      hide SizePrefix, VarIntSize;
    }
  }

  lemma {:induction false} WitnessesLength(ins: seq<TxIn>)
    ensures |WitnessesBytes(ins)| == WitnessesSize(ins)
  {
    if ins != [] {
      WitnessesLength(ins[..|ins| - 1]);
      ItemsLength(ins[|ins| - 1].witnessStack);
      PrefixSize(|ins[|ins| - 1].witnessStack|);
      hide SizePrefix, VarIntSize, ItemsBytes, ItemsSize;
    }
  }

  /**
   The sizes are those of the bytes, the weight is three times the bytes without witnesses plus all bytes, and
   the virtual size is the least whole number of bytes that four times over weighs as much.
   */
  lemma SizesAreLengths(tx: MsgTx)
    requires forall i :: 0 <= i < |tx.txIn| ==> |tx.txIn[i].previousOutPoint.hash| == 32
    ensures |Stripped(tx)| == StrippedSize(tx) && |Serialized(tx)| == SerializeSize(tx)
    ensures Weight(tx) == 3 * |Stripped(tx)| + |Serialized(tx)|
    ensures forall n :: VSize(Weight(tx)) <= n <==> Weight(tx) <= 4 * n
  {
    InputsSize(tx.txIn);
    OutputsLength(tx.txOut);
    WitnessesLength(tx.txIn);
    PrefixSize(|tx.txIn|);
    PrefixSize(|tx.txOut|);
    hide SizePrefix, VarIntSize, InputsBytes, OutputsBytes, WitnessesBytes, OutputsSize, WitnessesSize;
  }
}
