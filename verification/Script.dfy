/** Scripts as the wallet writes them and as the network reads them. */
module Script {
  import opened Prelude

  const OP_0: byte := 0x00
  const OP_FALSE: byte := 0x00
  const OP_PUSHDATA1: byte := 0x4C
  const OP_PUSHDATA2: byte := 0x4D
  const OP_PUSHDATA4: byte := 0x4E
  const OP_1NEGATE: byte := 0x4F
  const OP_1: byte := 0x51
  const OP_16: byte := 0x60
  const OP_IF: byte := 0x63
  const OP_ENDIF: byte := 0x68
  const OP_CHECKSIGVERIFY: byte := 0xAD
  const OP_CHECKSEQUENCEVERIFY: byte := 0xB2

  const MAX_SCRIPT_SIZE: nat := 10000
  const MAX_SCRIPT_ELEMENT_SIZE: nat := 520

  // ----- numbers -----

  /** Minimal little-endian digits. */
  function LE(m: nat): (b: Bytes)
    ensures m > 0 ==> |b| > 0 && b[|b| - 1] > 0
  {
    if m == 0 then [] else [m % 0x100] + LE(m / 0x100)
  }

  function FromLE(b: Bytes): nat {
    if b == [] then 0 else b[0] + 0x100 * FromLE(b[1..])
  }

  /** The sign-and-magnitude encoding of a script number. */
  function ScriptNum(v: int): Bytes {
    var b := LE(if v < 0 then -v else v);
    if v == 0 then []
    else if b[|b| - 1] >= 0x80 then b + [if v < 0 then 0x80 else 0]
    else if v < 0 then b[|b| - 1 := b[|b| - 1] + 0x80]
    else b
  }

  function DecodeNum(b: Bytes): int {
    if b == [] then 0
    else if b[|b| - 1] >= 0x80 then -(FromLE(b[|b| - 1 := b[|b| - 1] - 0x80]) as int)
    else FromLE(b)
  }

  /** No shorter encoding exists: the top byte carries more than a sign, or is needed for it. */
  predicate MinimalNum(b: Bytes) {
    b == [] || b[|b| - 1] % 0x80 != 0 || (|b| > 1 && b[|b| - 2] >= 0x80)
  }

  lemma {:induction false} LERoundTrip(m: nat)
    ensures FromLE(LE(m)) == m
  {
    if m > 0 {
      LERoundTrip(m / 0x100);
      assert LE(m)[1..] == LE(m / 0x100);
    }
  }

  lemma {:induction false} FromLEPadded(b: Bytes)
    ensures FromLE(b + [0]) == FromLE(b)
  {
    if b == [] {
      assert ([] + [0])[1..] == [];
    } else {
      FromLEPadded(b[1..]);
      assert (b + [0])[1..] == b[1..] + [0];
    }
  }

  lemma LastTwo(b: Bytes, last: byte)
    requires b != []
    ensures var s := b + [last]; |s| == |b| + 1 > 1 && s[|s| - 1] == last && s[|s| - 2] == b[|b| - 1]
    ensures (b + [last])[|b| := 0] == b + [0]
  {
  }

  /** A sign byte behind the digits. */
  lemma PaddedReads(b: Bytes, negative: bool)
    requires b != [] && b[|b| - 1] >= 0x80
    ensures var s := b + [if negative then 0x80 else 0];
      DecodeNum(s) == (if negative then -(FromLE(b) as int) else FromLE(b)) && MinimalNum(s)
  {
    hide FromLE;
    FromLEPadded(b);
    LastTwo(b, if negative then 0x80 else 0);
  }

  /** The sign in the top digit. */
  lemma SignedReads(b: Bytes)
    requires b != [] && 0 < b[|b| - 1] < 0x80
    ensures var s := b[|b| - 1 := b[|b| - 1] + 0x80]; DecodeNum(s) == -(FromLE(b) as int) && MinimalNum(s)
  {
    assert b[|b| - 1 := b[|b| - 1] + 0x80][|b| - 1 := b[|b| - 1]] == b;
    hide FromLE;
  }

  lemma PlainReads(b: Bytes)
    requires b != [] && 0 < b[|b| - 1] < 0x80
    ensures DecodeNum(b) == FromLE(b) && MinimalNum(b)
  {
    hide FromLE;
  }

  /** Every number is read back, and its encoding is minimal. */
  lemma ScriptNumRoundTrip(v: int)
    ensures DecodeNum(ScriptNum(v)) == v
    ensures MinimalNum(ScriptNum(v))
  {
    var m := if v < 0 then -v else v;
    var b := LE(m);
    LERoundTrip(m);
    if v != 0 {
      hide LE, FromLE, DecodeNum, MinimalNum;
      if b[|b| - 1] >= 0x80 {
        PaddedReads(b, v < 0);
      } else if v < 0 {
        SignedReads(b);
      } else {
        PlainReads(b);
      }
    }
  }

  /** How many bytes encode a number of 32 bits. */
  function NumLength(v: uint32): nat {
    if v == 0 then 0
    else if v < 0x80 then 1
    else if v < 0x8000 then 2
    else if v < 0x80_0000 then 3
    else if v < 0x8000_0000 then 4
    else 5
  }

  lemma LEOne(m: nat)
    requires 0 < m < 0x100
    ensures LE(m) == [m]
  {
    assert LE(m / 0x100) == [];
  }

  lemma LEMore(m: nat)
    requires m >= 0x100
    ensures |LE(m)| == 1 + |LE(m / 0x100)| && LE(m)[|LE(m)| - 1] == LE(m / 0x100)[|LE(m / 0x100)| - 1]
  {
  }

  /** The digits of a number below 2^(8k), and its top digit. */
  lemma LESize(m: nat)
    requires 0 < m < 0x1_0000_0000
    ensures var top := LE(m)[|LE(m)| - 1];
      if m < 0x100 then |LE(m)| == 1 && top == m
      else if m < 0x1_0000 then |LE(m)| == 2 && top == m / 0x100
      else if m < 0x100_0000 then |LE(m)| == 3 && top == m / 0x1_0000
      else |LE(m)| == 4 && top == m / 0x100_0000
  {
    hide LE;
    if m < 0x100 {
      LEOne(m);
    } else {
      LEMore(m);
      LESize(m / 0x100);
    }
  }

  lemma ScriptNumSize(v: uint32)
    ensures |ScriptNum(v)| == NumLength(v)
  {
    if v > 0 {
      LESize(v);
    }
    hide LE;
  }

  // ----- writing -----

  /** The shortest push of `data` (txscript's `addData`). */
  function PushBytes(data: Bytes): (s: Bytes)
    ensures |s| > 0
  {
    if data == [] || data == [0] then [OP_0]
    else if |data| == 1 && data[0] <= 16 then [OP_1 - 1 + data[0]]
    else if |data| == 1 && data[0] == 0x81 then [OP_1NEGATE]
    else if |data| < OP_PUSHDATA1 as nat then [|data| as byte] + data
    else if |data| <= 0xFF then [OP_PUSHDATA1, |data| as byte] + data
    else if |data| <= 0xFFFF then [OP_PUSHDATA2, (|data| % 0x100) as byte, (|data| / 0x100) as byte] + data
    else [OP_PUSHDATA4, (|data| % 0x100) as byte, (|data| / 0x100 % 0x100) as byte,
          (|data| / 0x1_0000 % 0x100) as byte, (|data| / 0x100_0000 % 0x100) as byte] + data
  }

  /** A builder that, once it has failed, ignores what follows. */
  datatype ScriptBuilder = ScriptBuilder(bytes: Bytes, failed: bool) {
    function AddOp(op: byte): ScriptBuilder {
      if failed || |bytes| + 1 > MAX_SCRIPT_SIZE then this.(failed := true)
      else this.(bytes := bytes + [op])
    }

    function AddData(data: Bytes): ScriptBuilder {
      if failed || |data| > MAX_SCRIPT_ELEMENT_SIZE || |bytes| + |PushBytes(data)| > MAX_SCRIPT_SIZE
      then this.(failed := true)
      else this.(bytes := bytes + PushBytes(data))
    }

    function AddInt64(v: int): ScriptBuilder {
      if failed || |bytes| + 1 > MAX_SCRIPT_SIZE then this.(failed := true)
      else if v == 0 then this.(bytes := bytes + [OP_0])
      else if v == -1 || 1 <= v <= 16 then this.(bytes := bytes + [OP_1 - 1 + v])
      else AddData(ScriptNum(v))
    }

    function Script(): Option<Bytes> {
      if failed then None else Some(bytes)
    }
  }

  function NewScriptBuilder(): ScriptBuilder {
    ScriptBuilder([], false)
  }

  /** A builder fails for good on an element of more than 520 bytes or a script of more than 10000. */
  lemma BuilderLimits(b: ScriptBuilder, data: Bytes, op: byte)
    ensures b.AddData(data).failed <==> b.failed || |data| > 520 || |b.bytes| + |PushBytes(data)| > 10000
    ensures b.AddOp(op).failed <==> b.failed || |b.bytes| >= 10000
    ensures !b.AddData(data).failed ==> b.AddData(data).Script() == Some(b.bytes + PushBytes(data))
    ensures !b.AddOp(op).failed ==> b.AddOp(op).Script() == Some(b.bytes + [op])
    ensures b.failed ==> b.AddData(data) == b.AddOp(op) == b && b.Script().None?
  {
    hide PushBytes;
  }

  // ----- reading -----

  datatype Op = Push(data: Bytes) | Code(op: byte)

  /** The length of the data pushed by the opcode at the head, and where that data starts. */
  function PushHeader(s: Bytes): Option<(nat, nat)>
    requires s != []
  {
    var op := s[0];
    if op < OP_PUSHDATA1 then Some((1, op as nat))
    else if op == OP_PUSHDATA1 then if |s| < 2 then None else Some((2, s[1]))
    else if op == OP_PUSHDATA2 then if |s| < 3 then None else Some((3, FromLE(s[1..3])))
    else if op == OP_PUSHDATA4 then
      if |s| < 5 then None else Some((5, FromLE(s[1..5])))
    else Some((1, 0))
  }

  /** What an opcode above `OP_PUSHDATA4` stands for. */
  function PlainOp(op: byte): Op {
    if op == OP_1NEGATE then Push([0x81])
    else if OP_1 <= op <= OP_16 then Push([op - OP_1 + 1])
    else Code(op)
  }

  /** Splits a script into pushes and other opcodes; fails on a truncated push. */
  function Parse(s: Bytes): Option<seq<Op>>
    decreases |s|
  {
    if s == [] then Some([])
    else
      var (start, length) :- PushHeader(s);
      if start + length > |s| then None
      else
        var rest :- Parse(s[start + length..]);
        Some([if s[0] <= OP_PUSHDATA4 then Push(s[start..start + length]) else PlainOp(s[0])] + rest)
  }

  /** The stack element that the shortest push of `data` leaves: a lone zero byte becomes empty. */
  function Pushed(data: Bytes): Bytes {
    if data == [0] then [] else data
  }

  function Prepend(op: Op, rest: Option<seq<Op>>): Option<seq<Op>> {
    match rest
    case None => None
    case Some(ops) => Some([op] + ops)
  }

  lemma FromLETwo(b: Bytes)
    requires |b| == 2
    ensures FromLE(b) == b[0] as int + 0x100 * b[1] as int
  {
    assert FromLE(b[1..]) == b[1] as int + 0x100 * FromLE(b[1..][1..]);
  }

  /** The bytes before the data in a push of the longer forms. */
  function PushHead(data: Bytes): (head: Bytes)
    requires 0 < |data| <= 0xFFFF_FFFF
  {
    if |data| < OP_PUSHDATA1 as nat then [|data| as byte]
    else if |data| <= 0xFF then [OP_PUSHDATA1, |data| as byte]
    else if |data| <= 0xFFFF then [OP_PUSHDATA2, (|data| % 0x100) as byte, (|data| / 0x100) as byte]
    else [OP_PUSHDATA4, (|data| % 0x100) as byte, (|data| / 0x100 % 0x100) as byte,
          (|data| / 0x1_0000 % 0x100) as byte, (|data| / 0x100_0000) as byte]
  }

  lemma FromLEFour(b: Bytes)
    requires |b| == 4
    ensures FromLE(b) == b[0] as int + 0x100 * b[1] as int + 0x1_0000 * b[2] as int + 0x100_0000 * b[3] as int
  {
    assert FromLE(b) == b[0] as int + 0x100 * FromLE(b[1..]);
    assert FromLE(b[1..]) == b[1] as int + 0x100 * FromLE(b[2..]) by {
      assert b[1..][1..] == b[2..];
    }
    FromLETwo(b[2..]);
  }

  lemma FourParts(n: nat)
    requires n <= 0xFFFF_FFFF
    ensures n == n % 0x100 + 0x100 * (n / 0x100 % 0x100) + 0x1_0000 * (n / 0x1_0000 % 0x100)
                 + 0x100_0000 * (n / 0x100_0000)
  {
  }

  lemma HeadReads(data: Bytes, tail: Bytes)
    requires 0 < |data| <= 0xFFFF_FFFF
    ensures var s := PushHead(data) + tail;
      PushHeader(s) == Some((|PushHead(data)|, |data|)) && s[0] <= OP_PUSHDATA4
  {
    var s := PushHead(data) + tail;
    if |data| > 0xFFFF {
      FromLEFour(s[1..5]);
      FourParts(|data|);
    } else if |data| > 0xFF {
      FromLETwo(s[1..3]);
    }
    hide FromLE;
  }

  lemma SliceOut(head: Bytes, data: Bytes, rest: Bytes)
    ensures var s := head + (data + rest);
      && s[|head|..|head| + |data|] == data && s[|head| + |data|..] == rest
  {
  }

  /** One step of the parser over a push. */
  lemma ParseStep(s: Bytes, start: nat, data: Bytes, rest: Bytes)
    requires s != [] && s[0] <= OP_PUSHDATA4 && PushHeader(s) == Some((start, |data|)) && start > 0
    requires start + |data| <= |s| && s[start..start + |data|] == data && s[start + |data|..] == rest
    ensures Parse(s) == Prepend(Push(data), Parse(rest))
  {
    hide PushHeader;
  }

  lemma ParseLong(data: Bytes, rest: Bytes)
    requires 0 < |data| <= 0xFFFF_FFFF
    ensures Parse(PushHead(data) + (data + rest)) == Prepend(Push(data), Parse(rest))
  {
    HeadReads(data, data + rest);
    SliceOut(PushHead(data), data, rest);
    HeadSome(data);
    hide *;
    ParseStep(PushHead(data) + (data + rest), |PushHead(data)|, data, rest);
  }

  lemma HeadSome(data: Bytes)
    requires 0 < |data| <= 0xFFFF_FFFF
    ensures |PushHead(data)| > 0
  {
  }

  lemma ParseShort(op: byte, rest: Bytes)
    requires op == OP_0 || op == OP_1NEGATE || OP_1 <= op <= OP_16
    ensures Parse([op] + rest) == Prepend(if op == OP_0 then Push([]) else PlainOp(op), Parse(rest))
  {
    var s := [op] + rest;
    assert s[1..] == rest && s[1..1] == [];
  }

  lemma ParsePush(data: Bytes, rest: Bytes)
    requires |data| <= 0xFFFF_FFFF
    ensures Parse(PushBytes(data) + rest) == Prepend(Push(Pushed(data)), Parse(rest))
  {
    hide Parse;
    if data == [] || data == [0] {
      ParseShort(OP_0, rest);
    } else if |data| == 1 && (data[0] <= 16 || data[0] == 0x81) {
      assert data == [data[0]];
      ParseShort(if data[0] == 0x81 then OP_1NEGATE else OP_1 - 1 + data[0], rest);
    } else {
      assert PushBytes(data) == PushHead(data) + data;
      hide PushBytes, PushHead;
      ParseLong(data, rest);
      assert PushHead(data) + data + rest == PushHead(data) + (data + rest);
    }
  }

  lemma ParseCode(op: byte, rest: Bytes)
    requires op > OP_16
    ensures Parse([op] + rest) == Prepend(Code(op), Parse(rest))
  {
    assert ([op] + rest)[1..] == rest;
  }

  // ----- no shorter push -----

  /** The only operation of a script that starts with a push takes up the whole script. */
  lemma LonePush(s: Bytes, op: Op)
    requires Parse(s) == Some([op])
    ensures s != [] && PushHeader(s).Some?
    ensures var header := PushHeader(s).value;
      && |s| == header.0 + header.1
      && op == if s[0] <= OP_PUSHDATA4 then Push(s[header.0..|s|]) else PlainOp(s[0])
  {
    var header := PushHeader(s).value;
    var rest := Parse(s[header.0 + header.1..]);
    var first := if s[0] <= OP_PUSHDATA4 then Push(s[header.0..header.0 + header.1]) else PlainOp(s[0]);
    assert rest.Some? && [op] == [first] + rest.value;
    assert |[op]| == 1 + |rest.value| && ([first] + rest.value)[0] == first;
    OnlyNothing(s[header.0 + header.1..]);
  }

  lemma OnlyNothing(s: Bytes)
    requires Parse(s) == Some([])
    ensures s == []
  {
  }

  /** The length of a push, by what is pushed: the small elements take one byte. */
  lemma PushLength(data: Bytes)
    ensures var n := |data|;
      |PushBytes(data)|
      == if n == 0 || (n == 1 && (data[0] <= 16 || data[0] == 0x81)) then 1
         else if n <= 75 then 1 + n
         else if n <= 0xFF then 2 + n
         else if n <= 0xFFFF then 3 + n
         else 5 + n
  {
  }

  /** How many bytes stand in front of pushed data, by its length. */
  lemma HeaderShape(s: Bytes)
    requires s != [] && PushHeader(s).Some?
    ensures var (start, length) := PushHeader(s).value;
      if s[0] > OP_PUSHDATA4 then start == 1 && length == 0
      else || (start == 1 && length <= 75) || (start == 2 && length <= 0xFF)
           || (start == 3 && length <= 0xFFFF) || start == 5
  {
    if s[0] == OP_PUSHDATA2 {
      FromLETwo(s[1..3]);
    }
    hide FromLE;
  }

  lemma PlainPush(op: byte, d: Bytes)
    requires PlainOp(op) == Push(d)
    ensures |d| == 1 && (d[0] <= 16 || d[0] == 0x81)
  {
  }

  /** How long a script is that pushes `d` and nothing else. */
  lemma PushedBy(s: Bytes, d: Bytes)
    requires Parse(s) == Some([Push(d)])
    ensures || (|s| == |d| + 1 && |d| <= 75)
            || (|s| == |d| + 2 && |d| <= 0xFF)
            || (|s| == |d| + 3 && |d| <= 0xFFFF)
            || |s| == |d| + 5
            || (|s| == 1 && |d| == 1 && (d[0] <= 16 || d[0] == 0x81))
  {
    hide *;
    LonePush(s, Push(d));
    HeaderShape(s);
    if s[0] > OP_PUSHDATA4 {
      PlainPush(s[0], d);
    }
  }

  /** Every script that pushes the same element and nothing else is at least as long. */
  lemma PushIsShortest(data: Bytes, s: Bytes)
    requires |data| <= 0xFFFF_FFFF && Parse(s) == Some([Push(Pushed(data))])
    ensures |PushBytes(data)| <= |s|
  {
    PushLength(data);
    hide Parse, PushBytes;
    PushedBy(s, Pushed(data));
  }

  /** How many bytes push a number of 32 bits. */
  function NumPushLength(v: uint32): nat {
    if v <= 16 then 1 else 1 + NumLength(v)
  }

  /** A number reads back as the push of its encoding, small or not. */
  lemma ParseInt64(b: ScriptBuilder, v: uint32, rest: Bytes)
    requires !b.failed && |b.bytes| <= MAX_SCRIPT_SIZE - 6
    ensures var r := b.AddInt64(v);
      && !r.failed && b.bytes <= r.bytes
      && |r.bytes| == |b.bytes| + |r.bytes[|b.bytes|..]|
      && Parse(r.bytes[|b.bytes|..] + rest) == Prepend(Push(ScriptNum(v)), Parse(rest))
      && |r.bytes| == |b.bytes| + NumPushLength(v)
  {
    ScriptNumSize(v);
    var num := ScriptNum(v);
    var r := b.AddInt64(v);
    if v <= 16 {
      SmallNum(v);
      var op: byte := if v == 0 then OP_0 else OP_1 - 1 + v;
      hide Parse, ScriptNum;
      assert r.bytes[|b.bytes|..] == [op];
      ParseShort(op, rest);
    } else {
      LargeNumPush(v);
      hide Parse, ScriptNum, PushBytes;
      assert r.bytes[|b.bytes|..] == PushBytes(num);
      ParsePush(num, rest);
    }
  }

  lemma SmallNum(v: uint32)
    requires v <= 16
    ensures ScriptNum(v) == if v == 0 then [] else [v]
  {
    if v > 0 {
      LEOne(v);
    }
  }

  /** The encoding of a larger number is pushed as it is, behind its length. */
  lemma LargeNumPush(v: uint32)
    requires v > 16
    ensures Pushed(ScriptNum(v)) == ScriptNum(v) && |PushBytes(ScriptNum(v))| == 1 + |ScriptNum(v)|
  {
    ScriptNumSize(v);
    var num := ScriptNum(v);
    if v < 0x100 {
      LEOne(v);
    }
    hide LE;
  }
}
