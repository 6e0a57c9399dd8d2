/**
 Delivery of output over every run: whatever `output` calls overlap, the slices they take from a
 stream, in the order they take them, are the bytes the child wrote, each once and in order.
 */
module BackgroundDelivery {
  import opened Basics
  import opened StreamBuffer
  import opened BackgroundProcesses
  import opened BackgroundInvariant
  import opened BackgroundTheorems
  import opened BackgroundReports

  /** The caller is inside `take_new` on this stream. */
  predicate TakesFrom(pc: Pc, id: Id, st: StreamId) {
    (pc.TakingOut? && st == Out && pc.id == id) || (pc.TakingErr? && st == Err && pc.id == id)
  }

  /** The bytes that one step takes from a stream. */
  ghost function TakenBy(s: State, a: Action, id: Id, st: StreamId): seq<Byte>
    requires Enabled(s, a)
  {
    if a.Take? && TakesFrom(s.callers[a.t], id, st) then
      Taken(s.entries[id].At(st).buffer, s.callers[a.t].maxBytes)
    else []
  }

  /** All the slices taken from a stream, joined in step order. */
  ghost function Delivered(n: nat, trace: seq<Action>, id: Id, st: StreamId): seq<Byte>
    requires Exec(n, trace).Some?
  {
    if trace == [] then []
    else
      var front := trace[..|trace| - 1];
      Delivered(n, front, id, st) + TakenBy(Exec(n, front).value, trace[|trace| - 1], id, st)
  }

  function Consumed(c: Contents): seq<Byte>
    requires Wf(c)
  {
    c.data[..c.readCursor]
  }

  lemma AppendConsumes(c: Contents, chunk: seq<Byte>)
    requires Wf(c)
    ensures Wf(Appended(c, chunk)) && Consumed(Appended(c, chunk)) == Consumed(c)
  {
    assert c.data <= c.data + chunk;
  }

  lemma TakeConsumes(c: Contents, maxBytes: nat)
    requires Wf(c)
    ensures Wf(Advanced(c, maxBytes)) && Consumed(Advanced(c, maxBytes)) == Consumed(c) + Taken(c, maxBytes)
  {
  }

  lemma CallerConsumes(s: State, pc: Pc, a: Action, id: Id, st: StreamId)
    requires Fresh(s) && CallerEnabled(s, pc, a) && id in s.entries && Wf(s.entries[id].At(st).buffer)
    ensures var s', b := CallerApply(s, pc, a), s.entries[id].At(st).buffer;
            && id in s'.entries
            && s'.entries[id].At(st).buffer ==
               if a.Take? && TakesFrom(pc, id, st) then Advanced(b, pc.maxBytes) else b
  {
  }

  lemma EntryConsumes(s: State, a: Action, id: Id, st: StreamId)
    requires OnEntry(a) && EntryEnabled(s, a) && id in s.entries && Wf(s.entries[id].At(st).buffer)
    ensures var s', b := EntryApply(s, a), s.entries[id].At(st).buffer;
            && id in s'.entries && Wf(s'.entries[id].At(st).buffer)
            && Consumed(s'.entries[id].At(st).buffer) == Consumed(b)
  {
    var p := s.entries[id].At(st);
    if a == Append(id, st) {
      AppendConsumes(p.buffer, p.reader.chunk);
    }
  }

  /** Every step adds to what has been consumed exactly what it takes. */
  lemma StepConsumes(s: State, a: Action, id: Id, st: StreamId)
    requires Fresh(s) && Enabled(s, a) && id in s.entries && Wf(s.entries[id].At(st).buffer)
    ensures id in Apply(s, a).entries && Wf(Apply(s, a).entries[id].At(st).buffer)
    ensures Consumed(Apply(s, a).entries[id].At(st).buffer) ==
            Consumed(s.entries[id].At(st).buffer) + TakenBy(s, a, id, st)
  {
    var b := s.entries[id].At(st).buffer;
    assert Consumed(b) + [] == Consumed(b);
    if OnEntry(a) {
      EntryConsumes(s, a, id, st);
    } else if !a.Acquire? {
      CallerConsumes(s, s.callers[a.t], a, id, st);
      if a.Take? {
        TakeConsumes(b, s.callers[a.t].maxBytes);
      }
    }
  }

  lemma CallerStarts(s: State, pc: Pc, a: Action, id: Id, st: StreamId)
    requires CallerEnabled(s, pc, a) && id !in s.entries
    ensures !(a.Take? && TakesFrom(pc, id, st))
    ensures id in CallerApply(s, pc, a).entries ==> CallerApply(s, pc, a).entries[id].At(st).buffer == EMPTY
  {
  }

  /** An entry that a step brings in has not been read from. */
  lemma StepStarts(s: State, a: Action, id: Id, st: StreamId)
    requires Enabled(s, a) && id !in s.entries
    ensures TakenBy(s, a, id, st) == []
    ensures id in Apply(s, a).entries ==> Apply(s, a).entries[id].At(st).buffer == EMPTY
  {
    if !a.Acquire? && !OnEntry(a) {
      CallerStarts(s, s.callers[a.t], a, id, st);
    }
  }

  lemma {:induction false} RunConsumes(n: nat, trace: seq<Action>, id: Id, st: StreamId)
    requires Exec(n, trace).Some?
    ensures var s := Exec(n, trace).value;
            if id in s.entries then
              Wf(s.entries[id].At(st).buffer) && Delivered(n, trace, id, st) == Consumed(s.entries[id].At(st).buffer)
            else Delivered(n, trace, id, st) == []
  {
    if trace != [] {
      var front, a := trace[..|trace| - 1], trace[|trace| - 1];
      RunConsumes(n, front, id, st);
      RunKeepsInv(n, front);
      if id in Exec(n, front).value.entries {
        StepConsumes(Exec(n, front).value, a, id, st);
      } else {
        StepStarts(Exec(n, front).value, a, id, st);
      }
    }
  }

  lemma BufferIsPrefix(p: Pipe, child: Child)
    requires PipeOk(p, child)
    ensures p.buffer.data <= p.written
  {
  }

  /**
   In every run, the slices taken from a stream, joined, are the part of its buffer before the
   cursor and a prefix of what the child wrote.
   */
  lemma DeliveredOnce(n: nat, trace: seq<Action>, id: Id, st: StreamId)
    requires Exec(n, trace).Some? && id in Exec(n, trace).value.entries
    ensures var p := Exec(n, trace).value.entries[id].At(st);
            && p.buffer.readCursor <= |p.buffer.data|
            && Delivered(n, trace, id, st) == p.buffer.data[..p.buffer.readCursor]
            && Delivered(n, trace, id, st) <= p.written
  {
    RunConsumes(n, trace, id, st);
    RunKeepsInv(n, trace);
    var e := Exec(n, trace).value.entries[id];
    assert EntryOk(e);
    BufferIsPrefix(e.At(st), e.child);
  }

  // ----- All of the output, after the exit -----

  /** The bounds of the reads of a stream from step `k` on. */
  ghost function ReadsFrom(n: nat, trace: seq<Action>, k: nat, id: Id, st: StreamId): seq<nat>
    requires Exec(n, trace).Some?
  {
    if |trace| <= k then []
    else
      var front, a := trace[..|trace| - 1], trace[|trace| - 1];
      ReadsFrom(n, front, k, id, st) + BoundOf(Exec(n, front).value, a, id, st)
  }

  function BoundOf(s: State, a: Action, id: Id, st: StreamId): seq<nat> {
    if a.Take? && a.t < |s.callers| && TakesFrom(s.callers[a.t], id, st) then [s.callers[a.t].maxBytes] else []
  }

  lemma {:induction false} SumConcat(a: seq<nat>, b: seq<nat>)
    ensures Sum(a + b) == Sum(a) + Sum(b)
  {
    if a == [] {
      assert a + b == b;
    } else {
      SumConcat(a[1..], b);
      assert (a + b)[1..] == a[1..] + b;
    }
  }

  /** The stream is complete and nobody will write to it again. */
  predicate Complete(e: Entry, st: StreamId) {
    StreamDrained(e.At(st)) && e.child.Gone? && Wf(e.At(st).buffer)
  }

  function AdvancedBy(c: Contents, bounds: seq<nat>): Contents {
    c.(readCursor := Min(c.readCursor + Sum(bounds), |c.data|))
  }

  lemma AdvancedMore(c: Contents, a: seq<nat>, b: seq<nat>)
    ensures AdvancedBy(c, a + b) == AdvancedBy(AdvancedBy(c, a), b)
  {
    SumConcat(a, b);
  }

  lemma AdvancedOnce(c: Contents, b: seq<nat>)
    requires Wf(c) && |b| <= 1
    ensures AdvancedBy(c, b) == if b == [] then c else Advanced(c, b[0])
  {
    if b != [] {
      assert b[1..] == [];
      assert Sum(b) == b[0];
    }
  }

  lemma CallerLeavesComplete(s: State, pc: Pc, a: Action, id: Id, st: StreamId)
    requires Fresh(s) && CallerEnabled(s, pc, a) && id in s.entries && Complete(s.entries[id], st)
    ensures var s' := CallerApply(s, pc, a);
            && id in s'.entries && s'.entries[id].child == s.entries[id].child
            && s'.entries[id].At(st).written == s.entries[id].At(st).written
            && s'.entries[id].At(st).reader == s.entries[id].At(st).reader
  {
    if Writes(a) {
      ReadersUntouched(s.entries[pc.id], pc, a, st);
    }
  }

  lemma EntryLeavesComplete(s: State, a: Action, id: Id, st: StreamId)
    requires OnEntry(a) && EntryEnabled(s, a) && id in s.entries && Complete(s.entries[id], st)
    ensures var s' := EntryApply(s, a);
            && id in s'.entries && s'.entries[id].child == s.entries[id].child
            && s'.entries[id].At(st) == s.entries[id].At(st)
  {
  }

  /** Once complete, a stream changes only in its cursor, and only by reads. */
  lemma StepComplete(s: State, a: Action, id: Id, st: StreamId)
    requires Fresh(s) && Enabled(s, a) && id in s.entries && Complete(s.entries[id], st)
    ensures id in Apply(s, a).entries && Complete(Apply(s, a).entries[id], st)
    ensures var p, p' := s.entries[id].At(st), Apply(s, a).entries[id].At(st);
            p'.written == p.written && p'.buffer == AdvancedBy(p.buffer, BoundOf(s, a, id, st))
  {
    AdvancedOnce(s.entries[id].At(st).buffer, BoundOf(s, a, id, st));
    if OnEntry(a) {
      EntryLeavesComplete(s, a, id, st);
    } else if !a.Acquire? {
      CallerLeavesComplete(s, s.callers[a.t], a, id, st);
      CallerConsumes(s, s.callers[a.t], a, id, st);
    }
  }

  ghost predicate CompleteAt(n: nat, trace: seq<Action>, k: nat, id: Id, st: StreamId) {
    && k <= |trace| && Exec(n, trace[..k]).Some?
    && id in Exec(n, trace[..k]).value.entries && Complete(Exec(n, trace[..k]).value.entries[id], st)
  }

  ghost function PipeAt(n: nat, trace: seq<Action>, k: nat, id: Id, st: StreamId): Pipe
    requires CompleteAt(n, trace, k, id, st)
  {
    Exec(n, trace[..k]).value.entries[id].At(st)
  }

  lemma {:induction false} StaysComplete(n: nat, trace: seq<Action>, k: nat, id: Id, st: StreamId)
    requires Exec(n, trace).Some? && CompleteAt(n, trace, k, id, st)
    ensures id in Exec(n, trace).value.entries && Complete(Exec(n, trace).value.entries[id], st)
    ensures var p, p' := PipeAt(n, trace, k, id, st), Exec(n, trace).value.entries[id].At(st);
            p'.written == p.written && p'.buffer == AdvancedBy(p.buffer, ReadsFrom(n, trace, k, id, st))
  {
    if k == |trace| {
      assert trace[..k] == trace;
    } else {
      var front, a := trace[..|trace| - 1], trace[|trace| - 1];
      assert front[..k] == trace[..k];
      StaysComplete(n, front, k, id, st);
      RunKeepsInv(n, front);
      var s := Exec(n, front).value;
      StepComplete(s, a, id, st);
      var c := PipeAt(n, trace, k, id, st).buffer;
      AdvancedMore(c, ReadsFrom(n, front, k, id, st), BoundOf(s, a, id, st));
    }
  }

  /**
   Once a stream is complete, at step `k`, its callers have been given all of it, up to the cap,
   if and only if the bounds of the reads since then reach the end.
   */
  lemma DeliveredAllIff(n: nat, trace: seq<Action>, k: nat, id: Id, st: StreamId)
    requires Exec(n, trace).Some? && CompleteAt(n, trace, k, id, st)
    ensures var p := PipeAt(n, trace, k, id, st);
            Delivered(n, trace, id, st) == Capped(p.written) <==>
            p.buffer.readCursor + Sum(ReadsFrom(n, trace, k, id, st)) >= |p.buffer.data|
  {
    StaysComplete(n, trace, k, id, st);
    DeliveredOnce(n, trace, id, st);
    var c := Exec(n, trace).value.entries[id].At(st).buffer;
    assert c.data[..c.readCursor] == c.data <==> c.readCursor == |c.data|;
  }

  lemma {:induction false} PrefixNeverOverlaps(n: nat, trace: seq<Action>, k: nat)
    requires KillsNeverOverlap(n, trace) && k <= |trace|
    ensures KillsNeverOverlap(n, trace[..k])
  {
    if k == |trace| {
      assert trace[..k] == trace;
    } else {
      PrefixNeverOverlaps(n, trace[..|trace| - 1], k);
      assert trace[..|trace| - 1][..k] == trace[..k];
    }
  }

  lemma ExitedIsComplete(n: nat, trace: seq<Action>, k: nat, id: Id, info: ExitInfo, st: StreamId)
    requires Exec(n, trace).Some? && KillsNeverOverlap(n, trace) && PublishedAt(n, trace, k, id, info)
    ensures CompleteAt(n, trace, k, id, st)
  {
    PrefixNeverOverlaps(n, trace, k);
    ExitedMeansDrained(n, trace[..k], id);
    RunKeepsInv(n, trace[..k]);
    assert EntryOk(Exec(n, trace[..k]).value.entries[id]);
  }

  /**
   The promise of `output`, end to end: in a run whose kills overlap no other call, after the exit
   of a process was published, the callers have been given exactly the first bytes the child
   wrote, up to the cap, once they have read to the end; and as many positive reads as there were
   unread bytes get there.
   */
  lemma OutputIsComplete(n: nat, trace: seq<Action>, k: nat, id: Id, info: ExitInfo, st: StreamId)
    requires Exec(n, trace).Some? && KillsNeverOverlap(n, trace) && PublishedAt(n, trace, k, id, info)
    ensures CompleteAt(n, trace, k, id, st) && id in Exec(n, trace).value.entries
    ensures var p := Exec(n, trace).value.entries[id].At(st);
            Delivered(n, trace, id, st) == Capped(p.written) <==> p.buffer.readCursor == |p.buffer.data|
    ensures var p, bounds := PipeAt(n, trace, k, id, st), ReadsFrom(n, trace, k, id, st);
            |bounds| >= |p.buffer.data| - p.buffer.readCursor && (forall i :: 0 <= i < |bounds| ==> bounds[i] > 0) ==>
              Delivered(n, trace, id, st) == Capped(Exec(n, trace).value.entries[id].At(st).written)
  {
    ExitedIsComplete(n, trace, k, id, info, st);
    StaysComplete(n, trace, k, id, st);
    DeliveredAllIff(n, trace, k, id, st);
    var bounds := ReadsFrom(n, trace, k, id, st);
    if forall i :: 0 <= i < |bounds| ==> bounds[i] > 0 {
      SumAtLeastLength(bounds);
    }
  }

  // ----- What a call returns is what it took -----

  /** The next unread bytes, and whether the stream has lost any. */
  function SliceOf(c: Contents, maxBytes: nat): Slice
    requires Wf(c)
  {
    Slice(c.data[c.readCursor..Min(c.readCursor + maxBytes, |c.data|)], c.truncated)
  }

  /** Step `i` is the latest read of caller `t`, in its present call, and took this slice of the stream. */
  ghost predicate LatestTake(n: nat, trace: seq<Action>, i: nat, t: nat, id: Id, st: StreamId, slice: Slice) {
    && i < |trace| && trace[i] == Take(t) && Exec(n, trace[..i]).Some?
    && Enabled(Exec(n, trace[..i]).value, trace[i])
    && TakesFrom(Exec(n, trace[..i]).value.callers[t], id, st)
    && TakenBy(Exec(n, trace[..i]).value, trace[i], id, st) == slice.bytes
    && slice.truncated == Exec(n, trace[..i]).value.entries[id].At(st).buffer.truncated
    && forall m :: i < m < |trace| ==> trace[m] != Take(t) && trace[m] != Return(t)
  }

  lemma LatestTakeMore(n: nat, trace: seq<Action>, i: nat, t: nat, id: Id, st: StreamId, slice: Slice)
    requires trace != [] && LatestTake(n, trace[..|trace| - 1], i, t, id, st, slice)
    requires trace[|trace| - 1] != Take(t) && trace[|trace| - 1] != Return(t)
    ensures LatestTake(n, trace, i, t, id, st, slice)
  {
    var front := trace[..|trace| - 1];
    assert front[..i] == trace[..i] && front[i] == trace[i];
    assert forall m :: i < m < |front| ==> front[m] == trace[m];
  }

  /** How a caller comes to carry its first slice. */
  lemma CarriesBecause(s: State, pc: Pc, a: Action)
    requires CallerEnabled(s, pc, a) && PcAfter(s, pc, a).TakeErr?
    ensures a.Take? && pc.TakingOut?
    ensures pc.id == PcAfter(s, pc, a).id
    ensures PcAfter(s, pc, a).got == SliceOf(s.entries[pc.id].out.buffer, pc.maxBytes)
  {
  }

  lemma NeverBackToCarrying(s: State, pc: Pc, a: Action)
    requires CallerEnabled(s, pc, a)
    ensures !PcAfter(s, pc, a).TakingErr?
  {
  }

  predicate Carrying(pc: Pc) {
    pc.TakeErr? || pc.TakingErr?
  }

  /** A read that the run ends with is the latest one. */
  lemma JustTaken(n: nat, trace: seq<Action>, t: nat, id: Id, st: StreamId)
    requires Exec(n, trace).Some? && trace != [] && trace[|trace| - 1] == Take(t)
    requires TakesFrom(Exec(n, trace[..|trace| - 1]).value.callers[t], id, st)
    ensures var s := Exec(n, trace[..|trace| - 1]).value;
            LatestTake(n, trace, |trace| - 1, t, id, st, SliceOf(s.entries[id].At(st).buffer, s.callers[t].maxBytes))
  {
  }

  /** Step `i` took the slice that the caller carries. */
  ghost predicate TookFirst(n: nat, trace: seq<Action>, i: nat, t: nat, pc: Pc) {
    Carrying(pc) && LatestTake(n, trace, i, t, pc.id, Out, pc.got)
  }

  lemma TookFirstNow(n: nat, trace: seq<Action>, t: nat)
    requires Exec(n, trace).Some? && trace != [] && trace[|trace| - 1] == Take(t)
    requires t < |Exec(n, trace).value.callers| && Exec(n, trace).value.callers[t].TakeErr?
    ensures TookFirst(n, trace, |trace| - 1, t, Exec(n, trace).value.callers[t])
  {
    var s := Exec(n, trace[..|trace| - 1]).value;
    CarriesBecause(s, s.callers[t], Take(t));
    JustTaken(n, trace, t, s.callers[t].id, Out);
  }

  /** A caller carries a slice because it did before, or because it has just read. */
  lemma CarryingStep(s: State, a: Action, t: nat)
    requires Enabled(s, a) && t < |Apply(s, a).callers| && Carrying(Apply(s, a).callers[t])
    ensures t < |s.callers|
    ensures (a == Take(t) && Apply(s, a).callers[t].TakeErr?) ||
            (a != Take(t) && a != Return(t) && Carrying(s.callers[t]) &&
             s.callers[t].id == Apply(s, a).callers[t].id && s.callers[t].got == Apply(s, a).callers[t].got)
  {
    CallersKept(s, a, t);
    if Actor(a) == Caller(t) && !a.Acquire? {
      NeverBackToCarrying(s, s.callers[t], a);
      CarriesBecause(s, s.callers[t], a);
    }
  }

  lemma {:induction false} FirstSliceTaken(n: nat, trace: seq<Action>, t: nat) returns (i: nat)
    requires Exec(n, trace).Some? && t < |Exec(n, trace).value.callers| && Carrying(Exec(n, trace).value.callers[t])
    ensures TookFirst(n, trace, i, t, Exec(n, trace).value.callers[t])
  {
    assert trace != [];
    var front, a := trace[..|trace| - 1], trace[|trace| - 1];
    CarryingStep(Exec(n, front).value, a, t);
    if a == Take(t) {
      TookFirstNow(n, trace, t);
      i := |front|;
    } else {
      i := FirstSliceTaken(n, front, t);
      var pc := Exec(n, trace).value.callers[t];
      LatestTakeMore(n, trace, i, t, pc.id, Out, pc.got);
    }
  }

  predicate ReturnsOutput(pc: Pc) {
    pc.Returning? && pc.result.OutputWas?
  }

  lemma ReturnsOutputBecause(s: State, pc: Pc, a: Action)
    requires CallerEnabled(s, pc, a) && ReturnsOutput(PcAfter(s, pc, a))
    ensures a.Take? && pc.TakingErr? && pc.id == PcAfter(s, pc, a).result.id
    ensures PcAfter(s, pc, a).result.out == pc.got
    ensures PcAfter(s, pc, a).result.err == SliceOf(s.entries[pc.id].err.buffer, pc.maxBytes)
  {
  }

  /** Steps `i` and `j` took the two slices of this result. */
  ghost predicate TookBoth(n: nat, trace: seq<Action>, i: nat, j: nat, t: nat, r: Result) {
    && r.OutputWas? && i < j < |trace|
    && LatestTake(n, trace[..j], i, t, r.id, Out, r.out)
    && LatestTake(n, trace, j, t, r.id, Err, r.err)
  }

  lemma TookBothMore(n: nat, trace: seq<Action>, i: nat, j: nat, t: nat, r: Result)
    requires trace != [] && TookBoth(n, trace[..|trace| - 1], i, j, t, r)
    requires trace[|trace| - 1] != Take(t) && trace[|trace| - 1] != Return(t)
    ensures TookBoth(n, trace, i, j, t, r)
  {
    assert trace[..|trace| - 1][..j] == trace[..j];
    LatestTakeMore(n, trace, j, t, r.id, Err, r.err);
  }

  lemma TookBothNow(n: nat, trace: seq<Action>, t: nat) returns (i: nat)
    requires Exec(n, trace).Some? && trace != [] && trace[|trace| - 1] == Take(t)
    requires t < |Exec(n, trace).value.callers| && ReturnsOutput(Exec(n, trace).value.callers[t])
    ensures TookBoth(n, trace, i, |trace| - 1, t, Exec(n, trace).value.callers[t].result)
  {
    var front := trace[..|trace| - 1];
    var s := Exec(n, front).value;
    ReturnsOutputBecause(s, s.callers[t], Take(t));
    i := FirstSliceTaken(n, front, t);
    JustTaken(n, trace, t, s.callers[t].id, Err);
  }

  /**
   The slices an `output` call returns, bytes and truncation flags, are those its last two reads
   took, first from the standard output and then from the standard error of that process.
   */
  lemma {:induction false} OutputReturnsTaken(n: nat, trace: seq<Action>, t: nat) returns (i: nat, j: nat)
    requires Exec(n, trace).Some? && t < |Exec(n, trace).value.callers|
    requires ReturnsOutput(Exec(n, trace).value.callers[t])
    ensures TookBoth(n, trace, i, j, t, Exec(n, trace).value.callers[t].result)
  {
    assert trace != [];
    var front, a := trace[..|trace| - 1], trace[|trace| - 1];
    var s := Exec(n, front).value;
    CallersKept(s, a, t);
    if Actor(a) == Caller(t) && !a.Acquire? {
      ReturnsOutputBecause(s, s.callers[t], a);
      i := TookBothNow(n, trace, t);
      j := |front|;
    } else {
      i, j := OutputReturnsTaken(n, front, t);
      TookBothMore(n, trace, i, j, t, s.callers[t].result);
    }
  }
}
