/**
 The capped output buffer of one child stream: a reader thread appends chunks, callers take
 what is new since the previous read. Text is kept as bytes; the lossy UTF-8 rendering of a
 taken slice is not part of the model.
 */
module StreamBuffer {
  import opened Basics

  type Byte = b: int | 0 <= b < 256

  const MAX_STREAM_BYTES: nat := 256 * 1024

  function SaturatingSub(a: nat, b: nat): nat {
    if a < b then 0 else a - b
  }

  /** The value of a buffer between two operations. */
  datatype Contents = Contents(data: seq<Byte>, readCursor: nat, truncated: bool)

  const EMPTY := Contents([], 0, false)

  predicate Wf(c: Contents) {
    c.readCursor <= |c.data| <= MAX_STREAM_BYTES
  }

  /** `bytes` cut at the cap: what a full run of appends may keep. */
  function Capped(bytes: seq<Byte>): seq<Byte> {
    bytes[..Min(|bytes|, MAX_STREAM_BYTES)]
  }

  /** What one append does: keep the oldest bytes up to the cap and flag anything dropped. */
  function Appended(c: Contents, chunk: seq<Byte>): Contents {
    Contents(Capped(c.data + chunk), c.readCursor,
             c.truncated || |c.data| + |chunk| > MAX_STREAM_BYTES || |c.data| == MAX_STREAM_BYTES)
  }

  function TakeEnd(c: Contents, maxBytes: nat): nat {
    Min(c.readCursor + maxBytes, |c.data|)
  }

  function Taken(c: Contents, maxBytes: nat): seq<Byte>
    requires Wf(c)
  {
    c.data[c.readCursor..TakeEnd(c, maxBytes)]
  }

  function Advanced(c: Contents, maxBytes: nat): Contents {
    c.(readCursor := TakeEnd(c, maxBytes))
  }

  class StreamBuffer {
    var data: seq<Byte>
    var readCursor: nat
    var truncated: bool

    ghost function View(): Contents
      reads this
    {
      Contents(data, readCursor, truncated)
    }

    constructor ()
      ensures View() == EMPTY
    {
      data, readCursor, truncated := [], 0, false;
    }

    method Append(chunk: seq<Byte>)
      requires Wf(View())
      modifies this
      ensures View() == Appended(old(View()), chunk) && Wf(View())
    {
      var remaining := SaturatingSub(MAX_STREAM_BYTES, |data|);
      if remaining == 0 {
        truncated := true;
        assert Capped(data + chunk) == data;
        return;
      }
      if |chunk| > remaining {
        data := data + chunk[..remaining];
        truncated := true;
      } else {
        data := data + chunk;
      }
    }

    method TakeNew(maxBytes: Usize) returns (slice: seq<Byte>, wasTruncated: bool)
      requires Wf(View())
      modifies this
      ensures slice == Taken(old(View()), maxBytes) && wasTruncated == old(truncated)
      ensures View() == Advanced(old(View()), maxBytes) && Wf(View())
    {
      var end := Min(SaturatingAdd(readCursor, maxBytes), |data|);
      slice := data[readCursor..end];
      readCursor := end;
      wasTruncated := truncated;
    }
  }

  // ----- Whole runs of appends and reads -----

  datatype Op = Write(chunk: seq<Byte>) | Read(maxBytes: nat)

  /** The contents after a run, what the child wrote in it, and what the reads returned. */
  function Run(ops: seq<Op>): Contents {
    if ops == [] then EMPTY
    else
      var c := Run(ops[..|ops| - 1]);
      match ops[|ops| - 1]
      case Write(chunk) => Appended(c, chunk)
      case Read(maxBytes) => Advanced(c, maxBytes)
  }

  function Written(ops: seq<Op>): seq<Byte> {
    if ops == [] then []
    else
      var op := ops[|ops| - 1];
      Written(ops[..|ops| - 1]) + (if op.Write? then op.chunk else [])
  }

  lemma {:induction false} RunWf(ops: seq<Op>)
    ensures Wf(Run(ops))
  {
    if ops != [] {
      RunWf(ops[..|ops| - 1]);
    }
  }

  function Delivered(ops: seq<Op>): seq<Byte> {
    if ops == [] then []
    else
      var before := ops[..|ops| - 1];
      var op := ops[|ops| - 1];
      RunWf(before);
      Delivered(before) + (if op.Read? then Taken(Run(before), op.maxBytes) else [])
  }

  predicate NoEmptyWrite(ops: seq<Op>) {
    forall i :: 0 <= i < |ops| && ops[i].Write? ==> ops[i].chunk != []
  }

  /** What a buffer owes its clients, given everything written to it and everything read from it. */
  ghost predicate Faithful(c: Contents, written: seq<Byte>, delivered: seq<Byte>) {
    && Wf(c)
    && c.data == Capped(written)
    && delivered == c.data[..c.readCursor]
  }

  lemma AppendFaithful(c: Contents, written: seq<Byte>, delivered: seq<Byte>, chunk: seq<Byte>)
    requires Faithful(c, written, delivered)
    ensures Faithful(Appended(c, chunk), written + chunk, delivered)
    ensures chunk != [] && (c.truncated <==> |written| > MAX_STREAM_BYTES) ==>
              (Appended(c, chunk).truncated <==> |written + chunk| > MAX_STREAM_BYTES)
  {
    CappedAppend(written, chunk);
    assert Appended(c, chunk).data[..c.readCursor] == c.data[..c.readCursor];
  }

  lemma TakeFaithful(c: Contents, written: seq<Byte>, delivered: seq<Byte>, maxBytes: nat)
    requires Faithful(c, written, delivered)
    ensures Faithful(Advanced(c, maxBytes), written, delivered + Taken(c, maxBytes))
  {
    assert c.data[..TakeEnd(c, maxBytes)] == c.data[..c.readCursor] + Taken(c, maxBytes);
  }

  /**
   Exactly-once delivery for every mix of appends and reads: the buffer holds the first
   bytes written regardless of how they were chunked, and the reads together returned
   exactly the bytes before the cursor. The flag is set exactly when bytes were dropped, given
   that no append is empty (the reader thread stops instead of appending an empty chunk).
   */
  lemma {:induction false} ExactlyOnce(ops: seq<Op>)
    ensures Faithful(Run(ops), Written(ops), Delivered(ops))
    ensures NoEmptyWrite(ops) ==> (Run(ops).truncated <==> |Written(ops)| > MAX_STREAM_BYTES)
  {
    if ops != [] {
      var before, op := ops[..|ops| - 1], ops[|ops| - 1];
      ExactlyOnce(before);
      match op {
        case Write(chunk) => AppendFaithful(Run(before), Written(before), Delivered(before), chunk);
        case Read(maxBytes) =>
          TakeFaithful(Run(before), Written(before), Delivered(before), maxBytes);
          assert Written(ops) == Written(before);
      }
    }
  }

  lemma CappedAppend(bytes: seq<Byte>, chunk: seq<Byte>)
    ensures Capped(Capped(bytes) + chunk) == Capped(bytes + chunk)
  {
    if |bytes| > MAX_STREAM_BYTES {
      assert Capped(bytes + chunk) == bytes[..MAX_STREAM_BYTES];
    }
  }

  /** Some append of nothing came after the buffer was full. */
  ghost predicate EmptyWriteWhenFull(ops: seq<Op>) {
    exists i :: 0 <= i < |ops| && ops[i] == Write([]) && |Written(ops[..i])| >= MAX_STREAM_BYTES
  }

  lemma EmptyWriteMore(ops: seq<Op>)
    requires ops != []
    ensures var front, last := ops[..|ops| - 1], ops[|ops| - 1];
            EmptyWriteWhenFull(ops) <==>
            EmptyWriteWhenFull(front) || (last == Write([]) && |Written(front)| >= MAX_STREAM_BYTES)
  {
    var front := ops[..|ops| - 1];
    assert forall i :: 0 <= i < |front| ==> front[i] == ops[i] && front[..i] == ops[..i];
  }

  lemma FlagStep(c: Contents, written: seq<Byte>, chunk: seq<Byte>)
    requires Wf(c) && c.data == Capped(written)
    ensures Appended(c, chunk).truncated <==>
            c.truncated || |written + chunk| > MAX_STREAM_BYTES || (chunk == [] && |written| >= MAX_STREAM_BYTES)
  {
  }

  /** What the flag means for any appends: too much was written, or nothing was, to a full buffer. */
  lemma {:induction false} FlagIff(ops: seq<Op>)
    ensures Run(ops).truncated <==> |Written(ops)| > MAX_STREAM_BYTES || EmptyWriteWhenFull(ops)
  {
    if ops != [] {
      var front, last := ops[..|ops| - 1], ops[|ops| - 1];
      FlagIff(front);
      ExactlyOnce(front);
      EmptyWriteMore(ops);
      if last.Write? {
        FlagStep(Run(front), Written(front), last.chunk);
      } else {
        assert Written(ops) == Written(front);
      }
    }
  }

  /** An empty append to a full buffer raises the flag although nothing was dropped. */
  lemma EmptyAppendRaisesFlag(c: Contents)
    requires |c.data| == MAX_STREAM_BYTES && !c.truncated
    ensures Appended(c, []).truncated && Appended(c, []).data == c.data
  {
    assert c.data + [] == c.data;
  }

  function Sum(ms: seq<nat>): nat {
    if ms == [] then 0 else ms[0] + Sum(ms[1..])
  }

  /** The slices returned by reads that follow the last append, joined. */
  function Reads(c: Contents, ms: seq<nat>): seq<Byte>
    requires Wf(c)
    decreases |ms|
  {
    if ms == [] then [] else Taken(c, ms[0]) + Reads(Advanced(c, ms[0]), ms[1..])
  }

  /**
   After the last append, reads return the rest in order: together they cover exactly as many
   bytes as they asked for, so they deliver everything if and only if they asked for enough.
   */
  lemma {:induction false} ReadsDeliverTheRest(c: Contents, ms: seq<nat>)
    requires Wf(c)
    ensures Reads(c, ms) == c.data[c.readCursor..Min(c.readCursor + Sum(ms), |c.data|)]
    ensures Reads(c, ms) == c.data[c.readCursor..] <==> c.readCursor + Sum(ms) >= |c.data|
    decreases |ms|
  {
    if ms != [] {
      ReadsDeliverTheRest(Advanced(c, ms[0]), ms[1..]);
    }
  }

  /** As many positive-size reads as there are bytes left always suffice. */
  lemma {:induction false} PositiveReadsSuffice(c: Contents, ms: seq<nat>)
    requires Wf(c)
    requires forall i :: 0 <= i < |ms| ==> ms[i] > 0
    requires |ms| >= |c.data| - c.readCursor
    ensures Reads(c, ms) == c.data[c.readCursor..]
  {
    SumAtLeastLength(ms);
    ReadsDeliverTheRest(c, ms);
  }

  lemma {:induction false} SumAtLeastLength(ms: seq<nat>)
    requires forall i :: 0 <= i < |ms| ==> ms[i] > 0
    ensures Sum(ms) >= |ms|
  {
    if ms != [] {
      SumAtLeastLength(ms[1..]);
    }
  }
}
