/** Transactions as the wallet builds them, and their weight (section "Transaction size calculations" of BIP 141). */
module Chain {
  import opened Prelude

  datatype OutPoint = OutPoint(hash: Bytes, index: uint32)

  /** The signature script of every input is empty. */
  datatype TxIn = TxIn(previousOutPoint: OutPoint, sequence: uint32, witnessStack: seq<Bytes>)

  datatype TxOut = TxOut(value: int, pkScript: Bytes)

  datatype MsgTx = MsgTx(version: int, lockTime: uint32, txIn: seq<TxIn>, txOut: seq<TxOut>)

  function OutputSum(outs: seq<TxOut>): int {
    if outs == [] then 0 else OutputSum(outs[..|outs| - 1]) + outs[|outs| - 1].value
  }

  // ----- sizes -----

  function VarIntSize(n: nat): nat {
    if n < 0xFD then 1 else if n <= 0xFFFF then 3 else if n <= 0xFFFF_FFFF then 5 else 9
  }

  function OutputSize(o: TxOut): nat {
    8 + VarIntSize(|o.pkScript|) + |o.pkScript|
  }

  function OutputsSize(outs: seq<TxOut>): nat {
    if outs == [] then 0 else OutputsSize(outs[..|outs| - 1]) + OutputSize(outs[|outs| - 1])
  }

  function ItemsSize(items: seq<Bytes>): nat {
    if items == [] then 0
    else ItemsSize(items[..|items| - 1]) + VarIntSize(|items[|items| - 1]|) + |items[|items| - 1]|
  }

  function WitnessSize(witnessStack: seq<Bytes>): nat {
    VarIntSize(|witnessStack|) + ItemsSize(witnessStack)
  }

  function WitnessesSize(ins: seq<TxIn>): nat {
    if ins == [] then 0 else WitnessesSize(ins[..|ins| - 1]) + WitnessSize(ins[|ins| - 1].witnessStack)
  }

  predicate HasWitness(tx: MsgTx) {
    exists i :: 0 <= i < |tx.txIn| && tx.txIn[i].witnessStack != []
  }

  const INPUT_SIZE: nat := 41
  const WITNESS_SCALE_FACTOR: nat := 4

  function StrippedSize(tx: MsgTx): nat {
    8 + VarIntSize(|tx.txIn|) + VarIntSize(|tx.txOut|) + INPUT_SIZE * |tx.txIn| + OutputsSize(tx.txOut)
  }

  function SerializeSize(tx: MsgTx): nat {
    StrippedSize(tx) + if HasWitness(tx) then 2 + WitnessesSize(tx.txIn) else 0
  }

  function Weight(tx: MsgTx): nat {
    StrippedSize(tx) * (WITNESS_SCALE_FACTOR - 1) + SerializeSize(tx)
  }

  function VSize(weight: nat): nat {
    (weight + (WITNESS_SCALE_FACTOR - 1)) / WITNESS_SCALE_FACTOR
  }

  lemma OutputsSnoc(outs: seq<TxOut>, last: TxOut)
    ensures OutputsSize(outs + [last]) == OutputsSize(outs) + OutputSize(last)
    ensures OutputSum(outs + [last]) == OutputSum(outs) + last.value
  {
    assert (outs + [last])[..|outs|] == outs;
  }

  lemma OneOutput(out: TxOut)
    ensures OutputsSize([out]) == OutputSize(out) && OutputSum([out]) == out.value
  {
    OutputsSnoc([], out);
    assert [] + [out] == [out];
  }

  /** Every input carries a witness of the same serialized size. */
  ghost predicate UniformWitness(ins: seq<TxIn>, size: nat) {
    forall i :: 0 <= i < |ins| ==> ins[i].witnessStack != [] && WitnessSize(ins[i].witnessStack) == size
  }

  lemma {:induction false} UniformWitnessSize(ins: seq<TxIn>, size: nat)
    requires UniformWitness(ins, size)
    ensures WitnessesSize(ins) == size * |ins|
  {
    if ins == [] {
    } else {
      UniformWitnessSize(ins[..|ins| - 1], size);
      assert size * |ins| == size * (|ins| - 1) + size;
      hide WitnessSize;
    }
  }

  /** The weight of a transaction whose inputs all carry equally large witnesses. */
  lemma UniformWeight(tx: MsgTx, size: nat)
    requires UniformWitness(tx.txIn, size)
    ensures Weight(tx) == 4 * StrippedSize(tx) + if tx.txIn == [] then 0 else 2 + size * |tx.txIn|
  {
    UniformWitnessSize(tx.txIn, size);
    if tx.txIn != [] {
      assert tx.txIn[0].witnessStack != [];
    }
  }

  lemma ItemsSizeSnoc(items: seq<Bytes>, last: Bytes)
    ensures ItemsSize(items + [last]) == ItemsSize(items) + VarIntSize(|last|) + |last|
  {
    assert (items + [last])[..|items|] == items;
  }

  lemma OneItemWitness(item: Bytes)
    ensures WitnessSize([item]) == 1 + VarIntSize(|item|) + |item|
  {
    ItemsSizeSnoc([], item);
    assert [] + [item] == [item];
  }

  lemma ThreeItemWitness(a: Bytes, b: Bytes, c: Bytes)
    ensures WitnessSize([a, b, c])
         == 1 + VarIntSize(|a|) + |a| + VarIntSize(|b|) + |b| + VarIntSize(|c|) + |c|
  {
    OneItemWitness(a);
    ItemsSizeSnoc([a], b);
    ItemsSizeSnoc([a, b], c);
    assert [a] + [b] == [a, b] && [a, b] + [c] == [a, b, c];
  }
}
