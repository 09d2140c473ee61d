/** Inscription envelopes: data wrapped in a branch that never runs (script.go, `Inscribe`). */
module Inscription {
  import opened Prelude
  import opened Script

  /** Every piece fits one stack element. */
  predicate Small(chunks: seq<Bytes>) {
    forall chunk :: chunk in chunks ==> |chunk| <= MAX_SCRIPT_ELEMENT_SIZE
  }

  /** Consecutive pieces of 520 bytes, the last one shorter. */
  function Chunks(data: Bytes): (chunks: seq<Bytes>)
    ensures Small(chunks) && [] !in chunks
  {
    if data == [] then []
    else if |data| <= MAX_SCRIPT_ELEMENT_SIZE then [data]
    else [data[..MAX_SCRIPT_ELEMENT_SIZE]] + Chunks(data[MAX_SCRIPT_ELEMENT_SIZE..])
  }

  function Join(parts: seq<Bytes>): Bytes {
    if parts == [] then [] else parts[0] + Join(parts[1..])
  }

  lemma ChunksNext(rest: Bytes)
    requires rest != []
    ensures var m := if |rest| <= MAX_SCRIPT_ELEMENT_SIZE then |rest| else MAX_SCRIPT_ELEMENT_SIZE;
      Chunks(rest) == [rest[..m]] + Chunks(rest[m..])
  {
    if |rest| <= MAX_SCRIPT_ELEMENT_SIZE {
      assert rest[..|rest|] == rest && [rest] + [] == [rest];
    }
  }

  lemma NextPiece(data: Bytes, i: nat, end: nat)
    requires i < |data|
    requires end == if i + MAX_SCRIPT_ELEMENT_SIZE > |data| then |data| else i + MAX_SCRIPT_ELEMENT_SIZE
    ensures Chunks(data[i..]) == [data[i..end]] + Chunks(data[end..])
  {
    hide Chunks;
    ChunksNext(data[i..]);
    SliceParts(data, i, end);
  }

  /** One piece taken from position `i` on leaves the pieces from `end` on. */
  lemma SplitNext(data: Bytes, i: nat, end: nat, splits: seq<Bytes>)
    requires i < |data| && splits + Chunks(data[i..]) == Chunks(data)
    requires end == if i + MAX_SCRIPT_ELEMENT_SIZE > |data| then |data| else i + MAX_SCRIPT_ELEMENT_SIZE
    ensures splits + [data[i..end]] + Chunks(data[end..]) == Chunks(data)
  {
    hide *;
    NextPiece(data, i, end);
    Moved(splits, data[i..end], Chunks(data[i..]), Chunks(data[end..]), Chunks(data));
  }

  lemma Moved(done: seq<Bytes>, piece: Bytes, before: seq<Bytes>, after: seq<Bytes>, all: seq<Bytes>)
    requires done + before == all && before == [piece] + after
    ensures done + [piece] + after == all
  {
  }

  lemma SliceParts(data: Bytes, i: nat, end: nat)
    requires i <= end <= |data|
    ensures data[i..][..end - i] == data[i..end] && data[i..][end - i..] == data[end..]
  {
  }

  method SplitForInscription(data: Bytes) returns (splits: seq<Bytes>)
    ensures splits == Chunks(data)
  {
    splits := [];
    var i := 0;
    assert data[0..] == data && data[|data|..] == [] && Chunks([]) == [];
    hide Chunks;
    ghost var reached := 0;
    while i < |data|
      invariant reached == if i <= |data| then i else |data|
      invariant splits + Chunks(data[reached..]) == Chunks(data)
    {
      var end := i + MAX_SCRIPT_ELEMENT_SIZE;
      if end > |data| {
        end := |data|;
      }
      SplitNext(data, i, end, splits);
      splits := splits + [data[i..end]];
      i := i + MAX_SCRIPT_ELEMENT_SIZE;
      reached := end;
    }
  }

  lemma {:induction false} JoinChunks(data: Bytes)
    ensures Join(Chunks(data)) == data
    ensures |Chunks(data)| == (|data| + 519) / 520
  {
    if |data| > MAX_SCRIPT_ELEMENT_SIZE {
      JoinChunks(data[MAX_SCRIPT_ELEMENT_SIZE..]);
    } else if data != [] {
      assert Join([data]) == data + Join([data][1..]);
    }
  }

  /** The pushes of the pieces, one after another. */
  function Pushes(chunks: seq<Bytes>): Bytes {
    if chunks == [] then [] else PushBytes(chunks[0]) + Pushes(chunks[1..])
  }

  function Envelope(data: Bytes): Bytes {
    [OP_FALSE, OP_IF] + Pushes(Chunks(data)) + [OP_ENDIF]
  }

  lemma {:induction false} PushesNext(chunks: seq<Bytes>, n: nat)
    requires n < |chunks|
    ensures Pushes(chunks[..n + 1]) == Pushes(chunks[..n]) + PushBytes(chunks[n])
  {
    hide PushBytes;
    if n > 0 {
      PushesNext(chunks[1..], n - 1);
      assert chunks[..n + 1][1..] == chunks[1..][..n] && chunks[..n][1..] == chunks[1..][..n - 1];
    } else {
      assert chunks[..1][1..] == [];
    }
  }

  lemma {:induction false} PushesGrow(chunks: seq<Bytes>, n: nat)
    requires n <= |chunks|
    ensures |Pushes(chunks[..n])| <= |Pushes(chunks)|
    decreases |chunks| - n
  {
    if n < |chunks| {
      PushesNext(chunks, n);
      PushesGrow(chunks, n + 1);
    } else {
      assert chunks[..n] == chunks;
    }
  }

  /** The builder after `n` of the pieces. */
  ghost predicate Added(start: ScriptBuilder, splits: seq<Bytes>, n: nat, builder: ScriptBuilder)
    requires n <= |splits|
  {
    if builder.failed then n > 0 && |start.bytes| + |Pushes(splits)| > MAX_SCRIPT_SIZE
    else builder.bytes == start.bytes + Pushes(splits[..n]) && (n > 0 ==> |builder.bytes| <= MAX_SCRIPT_SIZE)
  }

  lemma AddNext(start: ScriptBuilder, splits: seq<Bytes>, n: nat, builder: ScriptBuilder)
    requires Small(splits) && n < |splits| && Added(start, splits, n, builder)
    ensures Added(start, splits, n + 1, builder.AddData(splits[n]))
  {
    hide Pushes, PushBytes;
    PushesNext(splits, n);
    PushesGrow(splits, n + 1);
    var before, push := Pushes(splits[..n]), PushBytes(splits[n]);
    assert start.bytes + before + push == start.bytes + (before + push);
  }

  /** Adds one push per piece; fails exactly when they do not all fit. */
  method AddPushes(start: ScriptBuilder, splits: seq<Bytes>) returns (builder: ScriptBuilder)
    requires !start.failed && Small(splits)
    ensures builder.failed <==> splits != [] && |start.bytes| + |Pushes(splits)| > MAX_SCRIPT_SIZE
    ensures !builder.failed ==> builder.bytes == start.bytes + Pushes(splits)
  {
    builder := start;
    assert splits[..0] == [] && Pushes([]) == [] && start.bytes + [] == start.bytes;
    assert splits[..|splits|] == splits;
    for n := 0 to |splits|
      invariant Added(start, splits, n, builder)
    {
      AddNext(start, splits, n, builder);
      builder := builder.AddData(splits[n]);
    }
  }

  /** Succeeds exactly when the whole envelope fits the script size limit. */
  method Inscribe(data: Bytes) returns (script: Option<Bytes>)
    ensures script == if |Envelope(data)| <= 10000 then Some(Envelope(data)) else None
  {
    var scriptBuilder := NewScriptBuilder().AddOp(OP_FALSE).AddOp(OP_IF);
    var splits := SplitForInscription(data);
    assert scriptBuilder.bytes == [OP_FALSE, OP_IF];
    assert splits == [] ==> Pushes(splits) == [];
    hide Pushes, Chunks;
    scriptBuilder := AddPushes(scriptBuilder, splits);
    scriptBuilder := scriptBuilder.AddOp(OP_ENDIF);
    script := scriptBuilder.Script();
  }

  // ----- reading an envelope back -----

  function PushOps(chunks: seq<Bytes>): (ops: seq<Op>)
    ensures |ops| == |chunks|
    ensures forall i :: 0 <= i < |ops| ==> ops[i] == Push(Pushed(chunks[i]))
  {
    seq(|chunks|, i requires 0 <= i < |chunks| => Push(Pushed(chunks[i])))
  }

  lemma PushesCons(chunk: Bytes, chunks: seq<Bytes>)
    ensures Pushes([chunk] + chunks) == PushBytes(chunk) + Pushes(chunks)
    ensures PushOps([chunk] + chunks) == [Push(Pushed(chunk))] + PushOps(chunks)
  {
    hide PushBytes, Pushed;
    assert ([chunk] + chunks)[1..] == chunks;
  }

  lemma SmallTail(chunks: seq<Bytes>)
    requires Small(chunks) && chunks != []
    ensures |chunks[0]| <= MAX_SCRIPT_ELEMENT_SIZE && Small(chunks[1..])
  {
  }

  /** Reading a piece's push leaves the pushes of the other pieces. */
  lemma ParseOneMore(head: Bytes, tail: seq<Bytes>, rest: Bytes)
    requires |head| <= MAX_SCRIPT_ELEMENT_SIZE && Parse(rest).Some?
    requires Parse(Pushes(tail) + rest) == Some(PushOps(tail) + Parse(rest).value)
    ensures Parse(Pushes([head] + tail) + rest) == Some(PushOps([head] + tail) + Parse(rest).value)
  {
    hide *;
    PushesCons(head, tail);
    FitsPush();
    ParsePush(head, Pushes(tail) + rest);
    PrependSome(Push(Pushed(head)), PushOps(tail) + Parse(rest).value);
    assert PushBytes(head) + Pushes(tail) + rest == PushBytes(head) + (Pushes(tail) + rest);
    assert [Push(Pushed(head))] + (PushOps(tail) + Parse(rest).value)
        == [Push(Pushed(head))] + PushOps(tail) + Parse(rest).value;
  }

  lemma FitsPush()
    ensures MAX_SCRIPT_ELEMENT_SIZE <= 0xFFFF
  {
  }

  lemma PrependSome(op: Op, ops: seq<Op>)
    ensures Prepend(op, Some(ops)) == Some([op] + ops)
  {
  }

  lemma ParseNoPushes(rest: Bytes)
    requires Parse(rest).Some?
    ensures Parse(Pushes([]) + rest) == Some(PushOps([]) + Parse(rest).value)
  {
    hide Parse;
    assert Pushes([]) + rest == rest && PushOps([]) + Parse(rest).value == Parse(rest).value;
  }

  lemma {:induction false} ParsePushes(chunks: seq<Bytes>, rest: Bytes)
    requires Small(chunks)
    requires Parse(rest).Some?
    ensures Parse(Pushes(chunks) + rest) == Some(PushOps(chunks) + Parse(rest).value)
  {
    hide *;
    if chunks == [] {
      ParseNoPushes(rest);
    } else {
      SmallTail(chunks);
      ParsePushes(chunks[1..], rest);
      ParseOneMore(chunks[0], chunks[1..], rest);
      assert chunks == [chunks[0]] + chunks[1..];
    }
  }

  /** The envelope as the network reads it: a dead branch around one push per piece. */
  lemma EnvelopeOps(data: Bytes)
    ensures Parse(Envelope(data))
         == Some([Push([]), Code(OP_IF)] + PushOps(Chunks(data)) + [Code(OP_ENDIF)])
  {
    var chunks := Chunks(data);
    var body := Pushes(chunks) + [OP_ENDIF];
    EnvelopeBytes(data);
    BodyOps(chunks);
    hide Parse, Pushes, PushBytes, Chunks, Envelope, PushOps;
    ParseCode(OP_IF, body);
    ParsePush([], [OP_IF] + body);
    Regroup(Push([]), Code(OP_IF), PushOps(chunks), Code(OP_ENDIF));
  }

  lemma EnvelopeBytes(data: Bytes)
    ensures Envelope(data) == PushBytes([]) + ([OP_IF] + (Pushes(Chunks(data)) + [OP_ENDIF]))
  {
    hide Chunks, Pushes;
  }

  lemma BodyOps(chunks: seq<Bytes>)
    requires Small(chunks)
    ensures Parse(Pushes(chunks) + [OP_ENDIF]) == Some(PushOps(chunks) + [Code(OP_ENDIF)])
  {
    ParseEndif();
    hide Parse, Pushes, PushOps;
    ParsePushes(chunks, [OP_ENDIF]);
  }

  lemma ParseEndif()
    ensures Parse([OP_ENDIF]) == Some([Code(OP_ENDIF)])
  {
    assert Parse([]) == Some([]);
    ParseCode(OP_ENDIF, []);
    hide Parse;
    assert [OP_ENDIF] + [] == [OP_ENDIF] && [Code(OP_ENDIF)] + [] == [Code(OP_ENDIF)];
  }

  lemma Regroup(a: Op, b: Op, middle: seq<Op>, c: Op)
    ensures [a] + ([b] + (middle + [c])) == [a, b] + middle + [c]
  {
  }

  /** The pushes of an envelope, in order. */
  function EnvelopePushes(script: Bytes): Option<seq<Bytes>> {
    var ops :- Parse(script);
    PushesWithin(ops)
  }

  function PushesWithin(ops: seq<Op>): Option<seq<Bytes>> {
    if |ops| < 3 || ops[0] != Push([]) || ops[1] != Code(OP_IF) || ops[|ops| - 1] != Code(OP_ENDIF) then None
    else
      var body := ops[2..|ops| - 1];
      if exists i :: 0 <= i < |body| && body[i].Code? then None
      else Some(seq(|body|, i requires 0 <= i < |body| => body[i].data))
  }

  function PushedAll(chunks: seq<Bytes>): (p: seq<Bytes>)
    ensures |p| == |chunks|
  {
    seq(|chunks|, i requires 0 <= i < |chunks| => Pushed(chunks[i]))
  }

  /** One push of at most 520 bytes for every piece; a lone zero byte is pushed as nothing. */
  lemma EnvelopePushesAre(data: Bytes)
    ensures EnvelopePushes(Envelope(data)) == Some(PushedAll(Chunks(data)))
    ensures |PushedAll(Chunks(data))| == (|data| + 519) / 520
    ensures forall i :: 0 <= i < |Chunks(data)| ==> |PushedAll(Chunks(data))[i]| <= 520
    ensures Envelope(data)[..2] == [0x00, 0x63] && Envelope(data)[|Envelope(data)| - 1] == 0x68
  {
    EnvelopeEnds(data);
    hide Parse, Envelope, Chunks, PushOps, PushesWithin;
    EnvelopeOps(data);
    JoinChunks(data);
    WithinEnvelope(Chunks(data));
  }

  lemma EnvelopeEnds(data: Bytes)
    ensures Envelope(data)[..2] == [0x00, 0x63] && Envelope(data)[|Envelope(data)| - 1] == 0x68
  {
    hide Pushes, Chunks;
  }

  lemma WithinEnvelope(chunks: seq<Bytes>)
    ensures PushesWithin([Push([]), Code(OP_IF)] + PushOps(chunks) + [Code(OP_ENDIF)]) == Some(PushedAll(chunks))
  {
    var ops := [Push([]), Code(OP_IF)] + PushOps(chunks) + [Code(OP_ENDIF)];
    assert ops[2..|ops| - 1] == PushOps(chunks);
    assert seq(|chunks|, i requires 0 <= i < |chunks| => PushOps(chunks)[i].data) == PushedAll(chunks);
  }

  /** The last piece is a single zero byte. */
  predicate EndsInLoneZero(data: Bytes) {
    |data| % 520 == 1 && data[|data| - 1] == 0
  }

  lemma JoinCons(chunk: Bytes, chunks: seq<Bytes>)
    ensures Join([chunk] + chunks) == chunk + Join(chunks)
    ensures PushedAll([chunk] + chunks) == [Pushed(chunk)] + PushedAll(chunks)
  {
    hide Pushed;
    assert ([chunk] + chunks)[1..] == chunks;
  }

  /** Joined pushes of one piece and the pieces after it. */
  lemma JoinOneMore(data: Bytes, m: nat)
    requires data != [] && m == if |data| <= MAX_SCRIPT_ELEMENT_SIZE then |data| else MAX_SCRIPT_ELEMENT_SIZE
    ensures Join(PushedAll(Chunks(data))) == Pushed(data[..m]) + Join(PushedAll(Chunks(data[m..])))
  {
    ChunksNext(data);
    hide *;
    JoinCons(data[..m], Chunks(data[m..]));
    JoinCons(Pushed(data[..m]), PushedAll(Chunks(data[m..])));
  }

  /** The data without its last byte when that is a piece of its own and zero. */
  function WithoutLoneZero(data: Bytes): Bytes {
    if EndsInLoneZero(data) then data[..|data| - 1] else data
  }

  lemma LastPiece(data: Bytes)
    requires 0 < |data| <= MAX_SCRIPT_ELEMENT_SIZE
    ensures Pushed(data) == WithoutLoneZero(data)
  {
    assert |data| == 1 ==> data == [data[0]];
  }

  lemma EarlierPiece(data: Bytes)
    requires |data| > MAX_SCRIPT_ELEMENT_SIZE
    ensures Pushed(data[..MAX_SCRIPT_ELEMENT_SIZE]) + WithoutLoneZero(data[MAX_SCRIPT_ELEMENT_SIZE..])
         == WithoutLoneZero(data)
  {
    var head, rest := data[..MAX_SCRIPT_ELEMENT_SIZE], data[MAX_SCRIPT_ELEMENT_SIZE..];
    assert |rest| % MAX_SCRIPT_ELEMENT_SIZE == |data| % MAX_SCRIPT_ELEMENT_SIZE;
    assert data == head + rest && head + rest[..|rest| - 1] == data[..|data| - 1];
  }

  lemma JoinNothing()
    ensures Join(PushedAll(Chunks([]))) == [] == WithoutLoneZero([])
  {
  }

  lemma {:induction false} JoinPushed(data: Bytes)
    ensures Join(PushedAll(Chunks(data))) == WithoutLoneZero(data)
  {
    hide Join, PushedAll, Chunks, Pushed, WithoutLoneZero;
    JoinNothing();
    if data == [] {
    } else if |data| <= MAX_SCRIPT_ELEMENT_SIZE {
      JoinOneMore(data, |data|);
      LastPiece(data);
      assert data[..|data|] == data && data[|data|..] == [];
    } else {
      JoinOneMore(data, MAX_SCRIPT_ELEMENT_SIZE);
      JoinPushed(data[MAX_SCRIPT_ELEMENT_SIZE..]);
      EarlierPiece(data);
    }
  }

  /**
   Joining the pushes gives back the data exactly when the last piece is not a lone zero
   byte; the shortest push of that byte is `OP_0`, which pushes nothing.
   */
  lemma InscriptionRoundTrip(data: Bytes)
    ensures EnvelopePushes(Envelope(data)).Some?
    ensures Join(EnvelopePushes(Envelope(data)).value) == data <==> !EndsInLoneZero(data)
  {
    hide Envelope, EnvelopePushes, Join, Chunks;
    EnvelopePushesAre(data);
    JoinPushed(data);
    assert EndsInLoneZero(data) ==> WithoutLoneZero(data) != data;
  }

  /** A reader that knows no piece is empty takes an empty push for a zero byte. */
  function Restored(pushes: seq<Bytes>): seq<Bytes> {
    seq(|pushes|, i requires 0 <= i < |pushes| => if pushes[i] == [] then [0] else pushes[i])
  }

  /** No information is lost: the data is a function of the script, for all data. */
  lemma EnvelopeDeterminesData(data: Bytes, other: Bytes)
    ensures EnvelopePushes(Envelope(data)).Some?
    ensures Join(Restored(EnvelopePushes(Envelope(data)).value)) == data
    ensures Envelope(data) == Envelope(other) ==> data == other
  {
    RestoredChunks(data);
    RestoredChunks(other);
  }

  lemma RestoredChunks(data: Bytes)
    ensures EnvelopePushes(Envelope(data)).Some?
    ensures Join(Restored(EnvelopePushes(Envelope(data)).value)) == data
  {
    hide Parse, Envelope, EnvelopePushes, Chunks, Join;
    EnvelopePushesAre(data);
    JoinChunks(data);
    assert Restored(PushedAll(Chunks(data))) == Chunks(data);
  }

  /** The smallest input that does not come back: one zero byte. */
  lemma LoneZeroIsLost()
    ensures EnvelopePushes(Envelope([0])).Some? && Join(EnvelopePushes(Envelope([0])).value) == []
  {
    EnvelopePushesAre([0]);
    JoinPushed([0]);
  }
}
