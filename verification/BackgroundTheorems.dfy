/**
 What the background-process store promises over every interleaving: when a published exit
 means the output is complete, and that no reachable state is a deadlock.
 */
module BackgroundTheorems {
  import opened Basics
  import opened StreamBuffer
  import opened BackgroundProcesses
  import opened BackgroundInvariant

  // ----- Exited means drained -----

  predicate StreamDrained(p: Pipe) {
    && Over(p.reader)
    && p.buffer.data == Capped(p.written)
    && (p.buffer.truncated <==> |p.written| > MAX_STREAM_BYTES)
  }

  predicate Drained(e: Entry) {
    StreamDrained(e.out) && StreamDrained(e.err)
  }

  /** Some caller took the reader handles and is still waiting for an unfinished reader. */
  ghost predicate JoinPending(s: State, id: Id)
    requires id in s.entries
  {
    exists t, st :: WillJoin(s, t, id, st) && !Over(s.entries[id].At(st).reader)
  }

  lemma OverMeansDrained(p: Pipe, child: Child)
    requires PipeOk(p, child) && Over(p.reader)
    ensures StreamDrained(p)
  {
    assert p.written[..|p.written|] == p.written;
  }

  /**
   The exact condition, in every reachable state: once a status is published, the output of
   both streams is complete if and only if no overlapping call is still joining a reader.
   */
  lemma PublishedDrainedIff(n: nat, trace: seq<Action>, id: Id)
    requires Exec(n, trace).Some?
    requires id in Exec(n, trace).value.entries && Exec(n, trace).value.entries[id].finished.Some?
    ensures Drained(Exec(n, trace).value.entries[id]) <==> !JoinPending(Exec(n, trace).value, id)
  {
    RunKeepsInv(n, trace);
    var s := Exec(n, trace).value;
    var e := s.entries[id];
    assert EntryOk(e);
    assert Covered(s, id, Out) && Covered(s, id, Err);
    if !JoinPending(s, id) {
      OverMeansDrained(e.out, e.child);
      OverMeansDrained(e.err, e.child);
    }
  }

  /** The caller is inside a `kill` of this entry. */
  predicate InKill(pc: Pc, id: Id) {
    match pc
    case KillStart(i) => i == id
    case Killing(i) => i == id
    case Waiting(i) => i == id
    case Draining(i, drain) => i == id && drain.OnKill?
    case Collecting(i, drain) => i == id && drain.OnKill?
    case Joining(i, drain, _) => i == id && drain.OnKill?
    case Settling(i) => i == id
    case Sealing(i) => i == id
    case _ => false
  }

  /** The caller is working on this entry, in any call. */
  predicate WorksOn(pc: Pc, id: Id) {
    || InKill(pc, id)
    || match pc
       case Refresh(i, _) => i == id
       case Checking(i, _) => i == id
       case Polling(i, _) => i == id
       case TryWait(i, _) => i == id
       case Draining(i, _) => i == id
       case Collecting(i, _) => i == id
       case Joining(i, _, _) => i == id
       case TakeOut(i, _, _) => i == id
       case TakingOut(i, _, _) => i == id
       case TakeErr(i, _, _, _) => i == id
       case TakingErr(i, _, _, _) => i == id
       case _ => false
  }

  ghost predicate KillsAlone(s: State) {
    forall t, u, id :: 0 <= t < |s.callers| && 0 <= u < |s.callers| && t != u && InKill(s.callers[t], id) ==>
      !WorksOn(s.callers[u], id)
  }

  /** No `kill` of the run ever overlaps another call on the same entry. */
  ghost predicate KillsNeverOverlap(n: nat, trace: seq<Action>) {
    && (Exec(n, trace).Some? ==> KillsAlone(Exec(n, trace).value))
    && (trace != [] ==> KillsNeverOverlap(n, trace[..|trace| - 1]))
  }

  ghost predicate UnpublishedWhileJoining(s: State) {
    forall t, id, st :: id in s.entries && WillJoin(s, t, id, st) && !Over(s.entries[id].At(st).reader) ==>
      s.entries[id].finished.None?
  }

  lemma FinishedHolderWorks(pc: Pc, id: Id)
    ensures FinishedOf(id) in PcHolds(pc) ==> WorksOn(pc, id)
  {
  }

  /** While a caller joins readers of an entry, nobody else holds its status. */
  lemma JoinerKeepsStatus(s: State, t: nat, id: Id, st: StreamId, u: nat)
    requires MutualExclusion(s) && KillsAlone(s) && WillJoin(s, t, id, st) && u != t
    ensures FinishedOf(id) !in Held(s, Caller(u))
  {
    var pc := s.callers[t];
    if pc.drain.OnRefresh? {
      assert FinishedOf(id) in Held(s, Caller(t));
    } else {
      assert InKill(pc, id);
      if u < |s.callers| {
        FinishedHolderWorks(s.callers[u], id);
      }
    }
  }

  lemma NobodyElsePublishes(s: State, a: Action, t: nat, id: Id, st: StreamId)
    requires MutualExclusion(s) && Fresh(s) && CallersOk(s) && KillsAlone(s) && Enabled(s, a)
    requires id in s.entries && WillJoin(s, t, id, st) && s.entries[id].finished.None?
    ensures Actor(a) != Caller(t) ==> Apply(s, a).entries[id].finished.None?
  {
    EntryStepsForward(s, a, id);
    if Actor(a).Caller? && Actor(a) != Caller(t) {
      JoinerKeepsStatus(s, t, id, st, Actor(a).t);
    }
  }

  lemma StepUnpublished(s: State, a: Action, t: nat, id: Id, st: StreamId)
    requires Inv(s) && KillsAlone(s) && UnpublishedWhileJoining(s) && Enabled(s, a)
    requires id in Apply(s, a).entries && WillJoin(Apply(s, a), t, id, st)
    requires !Over(Apply(s, a).entries[id].At(st).reader)
    ensures Apply(s, a).entries[id].finished.None?
  {
    CallersKept(s, a, t);
    if Actor(a) != Caller(t) {
      assert CallerOk(s, s.callers[t]);
      ReadersStayOver(s, a, id, st);
      assert WillJoin(s, t, id, st) && !Over(s.entries[id].At(st).reader);
      NobodyElsePublishes(s, a, t, id, st);
    } else {
      assert id in s.entries ==> EntryOk(s.entries[id]);
      OwnerUnpublished(s, a, t, id, st);
    }
  }

  /** A caller that now waits for a reader has just collected its handle, or waited for it already. */
  lemma WaitsBecause(s: State, pc: Pc, a: Action, id: Id, st: StreamId)
    requires CallerEnabled(s, pc, a)
    requires PcAfter(s, pc, a).Joining? && PcAfter(s, pc, a).id == id && st in PcAfter(s, pc, a).pending
    ensures pc.id == id && id in s.entries
    ensures (a.Join? && pc.Joining? && st in pc.pending) || (a.Collect? && st in s.entries[id].handles)
  {
  }

  lemma OwnerUnpublished(s: State, a: Action, t: nat, id: Id, st: StreamId)
    requires UnpublishedWhileJoining(s) && Enabled(s, a) && Actor(a) == Caller(t) && t < |s.callers|
    requires id in s.entries ==> EntryOk(s.entries[id])
    requires id in Apply(s, a).entries && WillJoin(Apply(s, a), t, id, st)
    requires !Over(Apply(s, a).entries[id].At(st).reader)
    ensures Apply(s, a).entries[id].finished.None?
  {
    var pc := s.callers[t];
    assert !a.Acquire?;
    WaitsBecause(s, pc, a, id, st);
    if a.Join? {
      assert WillJoin(s, t, id, st);
    }
  }

  lemma {:induction false} RunUnpublished(n: nat, trace: seq<Action>)
    requires Exec(n, trace).Some? && KillsNeverOverlap(n, trace)
    ensures UnpublishedWhileJoining(Exec(n, trace).value)
  {
    if trace != [] {
      var front, a := trace[..|trace| - 1], trace[|trace| - 1];
      RunUnpublished(n, front);
      RunKeepsInv(n, front);
      var s, s' := Exec(n, front).value, Exec(n, trace).value;
      forall t, id, st | id in s'.entries && WillJoin(s', t, id, st) && !Over(s'.entries[id].At(st).reader)
        ensures s'.entries[id].finished.None?
      {
        StepUnpublished(s, a, t, id, st);
      }
    }
  }

  /**
   The join-before-publish contract: in every interleaving of `output`, `list`, readers and
   children, with any `kill` that overlaps no other call on its entry, a published exit means
   both readers are over and each buffer holds exactly the first bytes the child wrote.
   */
  lemma ExitedMeansDrained(n: nat, trace: seq<Action>, id: Id)
    requires Exec(n, trace).Some? && KillsNeverOverlap(n, trace)
    requires id in Exec(n, trace).value.entries && Exec(n, trace).value.entries[id].finished.Some?
    ensures Drained(Exec(n, trace).value.entries[id])
  {
    RunUnpublished(n, trace);
    PublishedDrainedIff(n, trace, id);
  }

  // ----- No deadlock -----

  /** Steps the system must be able to take by itself; a signalled child exits eventually. */
  predicate Internal(s: State, a: Action) {
    && !a.Spawn? && !a.CallOn? && !a.CallList? && !a.ChildWrites?
    && (a.ChildExits? ==> a.id in s.entries && s.entries[a.id].child == Alive(true))
  }

  /** `o` is blocked by `h`: it wants a lock `h` holds, or it joins the reader `h`. */
  ghost predicate WaitsFor(s: State, o: Owner, h: Owner) {
    || (Wants(s, o).Some? && Wants(s, o).value in Held(s, h))
    || (o.Caller? && h.ReaderOf? && h.id in s.entries && WillJoin(s, o.t, h.id, h.st)
        && !Over(s.entries[h.id].At(h.st).reader))
  }

  ghost predicate Chain(s: State, c: seq<Owner>) {
    c != [] && forall i :: 0 <= i < |c| - 1 ==> WaitsFor(s, c[i], c[i + 1])
  }

  /** `a` is an enabled step of `o` itself, or the exit of the signalled child that `o` waits on. */
  ghost predicate Moves(s: State, o: Owner, a: Action) {
    && Internal(s, a) && Enabled(s, a)
    && (if a.ChildExits? then o.Caller? && o.t < |s.callers| && s.callers[o.t] == Waiting(a.id) else Actor(a) == o)
  }

  /** From `o`, following who waits for whom leads to a thread that can move. */
  ghost predicate Unblocked(s: State, o: Owner, c: seq<Owner>, a: Action) {
    Chain(s, c) && c[0] == o && Moves(s, c[|c| - 1], a)
  }

  lemma Extend(s: State, o: Owner, h: Owner, c: seq<Owner>, a: Action)
    requires WaitsFor(s, o, h) && Unblocked(s, h, c, a)
    ensures Unblocked(s, o, [o] + c, a)
  {
  }

  /** The lock order: a thread only ever waits for a lock below every lock it holds. */
  function Level(l: Lock): nat {
    match l
    case Processes => 4
    case FinishedOf(_) => 3
    case ChildOf(_) => 2
    case ReadersOf(_) => 1
    case BufferOf(_, _) => 0
  }

  function Rank(pc: Pc): nat {
    if PcWants(pc).Some? then Level(PcWants(pc).value) + 2 else if pc.Joining? then 1 else 0
  }

  lemma LockOrder(pc: Pc, l: Lock)
    requires l in PcHolds(pc)
    ensures PcWants(pc).Some? ==> Level(PcWants(pc).value) < Level(l)
    ensures Rank(pc) < Level(l) + 2
  {
  }

  /** A reader of an exited child, or one with bytes in hand, is never stuck. */
  lemma ReaderMoves(s: State, id: Id, st: StreamId) returns (c: seq<Owner>, a: Action)
    requires Inv(s) && id in s.entries && !Over(s.entries[id].At(st).reader) && s.entries[id].child.Gone?
    ensures Unblocked(s, ReaderOf(id, st), c, a)
  {
    var p, o := s.entries[id].At(st), ReaderOf(id, st);
    assert EntryOk(s.entries[id]);
    c := [o];
    match p.reader {
      case Reading => a := if p.taken == |p.written| then ReadEof(id, st) else ReadChunk(id, st, 1);
      case Carrying(_) => c, a := BufferMoves(s, o, id, st);
      case Appending(_) => a := Append(id, st);
    }
  }

  lemma BufferCallerMoves(s: State, pc: Pc, t: nat, id: Id, st: StreamId)
    requires CallerOk(s, pc) && BufferOf(id, st) in PcHolds(pc)
    requires pc.TakingOut? || pc.TakingErr? ==> EntryOk(s.entries[pc.id])
    ensures CallerEnabled(s, pc, Take(t))
  {
  }

  lemma BufferHolderMoves(s: State, h: Owner, id: Id, st: StreamId) returns (a: Action)
    requires CallersOk(s) && (forall i :: i in s.entries ==> EntryOk(s.entries[i]))
    requires BufferOf(id, st) in Held(s, h)
    ensures Moves(s, h, a)
  {
    if h.ReaderOf? {
      a := Append(h.id, h.st);
    } else {
      assert CallerOk(s, s.callers[h.t]);
      BufferCallerMoves(s, s.callers[h.t], h.t, id, st);
      a := Take(h.t);
    }
  }

  /** Whoever waits for a buffer: it is free, or its holder is about to release it. */
  lemma BufferMoves(s: State, o: Owner, id: Id, st: StreamId) returns (c: seq<Owner>, a: Action)
    requires Inv(s) && Wants(s, o) == Some(BufferOf(id, st))
    ensures Unblocked(s, o, c, a)
  {
    var l := BufferOf(id, st);
    if Free(s, l) {
      assert o.Caller? ==> CallerOk(s, s.callers[o.t]);
      c, a := [o], Acquire(o);
    } else {
      var h :| l in Held(s, h);
      a := BufferHolderMoves(s, h, id, st);
      c := [o, h];
    }
  }

  /** The step of a caller that wants no lock and joins nobody. */
  ghost function OwnStep(s: State, pc: Pc, t: nat): Action
    requires Known(s, pc)
  {
    match pc
    case LookingUp(_, _) => Look(t)
    case Inserting(_) => Insert(t)
    case InList(seen) =>
      if s.registered <= seen.Keys then ListDone(t) else var id :| id in s.registered && id !in seen.Keys; Pick(t, id)
    case Checking(_, _) => Check(t)
    case TryWait(id, _) => if s.entries[id].child.Gone? then PollHit(t) else PollMiss(t)
    case Collecting(_, _) => Collect(t)
    case Killing(_) => Signal(t)
    case Waiting(id) => if s.entries[id].child.Gone? then WaitDone(t) else ChildExits(id, None)
    case Sealing(_) => Seal(t)
    case TakingOut(_, _, _) => Take(t)
    case TakingErr(_, _, _, _) => Take(t)
    case _ => Return(t)
  }

  lemma OwnStepEnabled(s: State, pc: Pc, t: nat)
    requires CallerOk(s, pc) && !pc.Idle? && Rank(pc) == 0
    requires pc.TakingOut? || pc.TakingErr? ==> EntryOk(s.entries[pc.id])
    ensures var a := OwnStep(s, pc, t);
            && Internal(s, a)
            && (if a.ChildExits? then EntryEnabled(s, a) else Actor(a) == Caller(t) && CallerEnabled(s, pc, a))
  {
  }

  /** A caller that joins readers: it is done, or can join one, or waits for one that moves. */
  lemma JoinerSteps(s: State, pc: Pc, t: nat, st: StreamId)
    requires CallerOk(s, pc) && pc.Joining?
    ensures pc.pending == {} ==> CallerEnabled(s, pc, Publish(t))
    ensures st in pc.pending && Over(s.entries[pc.id].At(st).reader) ==> CallerEnabled(s, pc, Join(t, st))
  {
  }

  lemma JoinerMoves(s: State, t: nat) returns (c: seq<Owner>, a: Action)
    requires Inv(s) && t < |s.callers| && s.callers[t].Joining?
    ensures Unblocked(s, Caller(t), c, a)
  {
    var pc := s.callers[t];
    assert CallerOk(s, pc);
    if pc.pending == {} {
      JoinerSteps(s, pc, t, Out);
      c, a := [Caller(t)], Publish(t);
    } else {
      var st :| st in pc.pending;
      JoinerSteps(s, pc, t, st);
      if Over(s.entries[pc.id].At(st).reader) {
        c, a := [Caller(t)], Join(t, st);
      } else {
        c, a := ReaderMoves(s, pc.id, st);
        Extend(s, Caller(t), ReaderOf(pc.id, st), c, a);
        c := [Caller(t)] + c;
      }
    }
  }

  /** Follow the chain of waiting: each holder waits for a strictly lower lock, so the chain ends. */
  lemma {:induction false} CallerMoves(s: State, t: nat) returns (c: seq<Owner>, a: Action)
    requires Inv(s) && t < |s.callers| && !s.callers[t].Idle?
    ensures Unblocked(s, Caller(t), c, a)
    decreases Rank(s.callers[t])
  {
    var pc := s.callers[t];
    assert CallerOk(s, pc);
    if Rank(pc) == 0 {
      if pc.TakingOut? || pc.TakingErr? {
        assert EntryOk(s.entries[pc.id]);
      }
      OwnStepEnabled(s, pc, t);
      c, a := [Caller(t)], OwnStep(s, pc, t);
    } else if pc.Joining? {
      c, a := JoinerMoves(s, t);
    } else {
      var l := PcWants(pc).value;
      if Free(s, l) {
        c, a := [Caller(t)], Acquire(Caller(t));
      } else if l.BufferOf? {
        c, a := BufferMoves(s, Caller(t), l.id, l.st);
      } else {
        var h :| l in Held(s, h);
        LockOrder(s.callers[h.t], l);
        c, a := CallerMoves(s, h.t);
        Extend(s, Caller(t), h, c, a);
        c := [Caller(t)] + c;
      }
    }
  }

  /**
   No reachable state is a deadlock, whatever calls overlap: from every pending call, following
   who waits for whom leads to a thread with an enabled step.
   */
  lemma NoDeadlock(n: nat, trace: seq<Action>, t: nat) returns (c: seq<Owner>, a: Action)
    requires Exec(n, trace).Some? && t < |Exec(n, trace).value.callers|
    requires !Exec(n, trace).value.callers[t].Idle?
    ensures Unblocked(Exec(n, trace).value, Caller(t), c, a)
  {
    RunKeepsInv(n, trace);
    c, a := CallerMoves(Exec(n, trace).value, t);
  }
}
