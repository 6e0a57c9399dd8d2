/**
 The invariant of the background-process store, kept by every step: locks exclude each other,
 every program point knows what it needs of its entry, the buffers hold what left the pipes,
 and the handle of every unfinished reader is somewhere a caller will join it.
 */
module BackgroundInvariant {
  import opened Basics
  import opened StreamBuffer
  import opened BackgroundProcesses

  ghost predicate MutualExclusion(s: State) {
    forall o1, o2, l :: o1 != o2 && l in Held(s, o1) ==> l !in Held(s, o2)
  }

  /** The buffer holds the first `k` bytes written, cut at the cap. */
  predicate Stored(p: Pipe, k: nat)
    requires k <= |p.written|
  {
    p.buffer.data == Capped(p.written[..k]) && (p.buffer.truncated <==> k > MAX_STREAM_BYTES)
  }

  predicate InFlight(p: Pipe, chunk: seq<Byte>)
    requires p.taken <= |p.written|
  {
    && 0 < |chunk| <= p.taken
    && chunk == p.written[p.taken - |chunk|..p.taken]
    && Stored(p, p.taken - |chunk|)
  }

  predicate PipeOk(p: Pipe, child: Child) {
    && Wf(p.buffer)
    && p.taken <= |p.written|
    && match p.reader
       case Absent => p.written == [] && Stored(p, 0)
       case Reading => Stored(p, p.taken)
       case Carrying(chunk) => InFlight(p, chunk)
       case Appending(chunk) => InFlight(p, chunk)
       case Finished => p.taken == |p.written| && Stored(p, p.taken) && child.Gone?
  }

  /** A published exit is the child's own, or that of a kill. */
  predicate ExitOk(finished: Option<ExitInfo>, child: Child) {
    finished.Some? ==>
      child.Gone? && (finished.value == ExitInfo(child.code, false) || finished.value == ExitInfo(None, true))
  }

  predicate EntryOk(e: Entry) {
    && PipeOk(e.out, e.child)
    && PipeOk(e.err, e.child)
    && ExitOk(e.finished, e.child)
    && (e.finished.Some? ==> e.handles == {})
  }

  predicate StatusOk(s: State, id: Id, status: Status) {
    id in s.entries && (status.Exited? ==> s.entries[id].finished == Some(status.info))
  }

  predicate SeenOk(s: State, seen: map<Id, Status>) {
    forall id :: id in seen ==> StatusOk(s, id, seen[id])
  }

  predicate GoalOk(s: State, goal: Goal) {
    goal.ForList? ==> SeenOk(s, goal.seen)
  }

  predicate DrainOk(s: State, id: Id, drain: Drain)
    requires id in s.entries
  {
    && s.entries[id].child.Gone?
    && (drain.OnRefresh? ==>
          GoalOk(s, drain.goal) && s.entries[id].finished.None? && s.entries[id].child.code == drain.code)
  }

  predicate ResultOk(s: State, r: Result) {
    match r
    case Unknown => true
    case SpawnedAs(id) => id in s.entries
    case OutputWas(id, status, _, _) => StatusOk(s, id, status)
    case Listed(seen) => SeenOk(s, seen)
    case KillWas(id, status) => StatusOk(s, id, status) && status.Exited?
  }

  predicate CallerOk(s: State, pc: Pc) {
    Known(s, pc) &&
    match pc
    case InList(seen) => SeenOk(s, seen)
    case Refresh(_, goal) => GoalOk(s, goal)
    case Checking(_, goal) => GoalOk(s, goal)
    case Polling(id, goal) => GoalOk(s, goal) && s.entries[id].finished.None?
    case TryWait(id, goal) => GoalOk(s, goal) && s.entries[id].finished.None?
    case Draining(id, drain) => DrainOk(s, id, drain)
    case Collecting(id, drain) => DrainOk(s, id, drain)
    case Joining(id, drain, _) => DrainOk(s, id, drain) && s.entries[id].handles == {}
    case Waiting(id) => s.entries[id].child.Gone? || s.entries[id].child.signalled
    case Settling(id) => s.entries[id].child.Gone? && s.entries[id].handles == {}
    case Sealing(id) => s.entries[id].child.Gone? && s.entries[id].handles == {}
    case TakeOut(id, _, status) => StatusOk(s, id, status)
    case TakingOut(id, _, status) => StatusOk(s, id, status)
    case TakeErr(id, _, status, _) => StatusOk(s, id, status)
    case TakingErr(id, _, status, _) => StatusOk(s, id, status)
    case Returning(r) => ResultOk(s, r)
    case _ => true
  }

  /** Caller `t` has taken the handle of this reader and has not joined it yet. */
  predicate WillJoin(s: State, t: nat, id: Id, st: StreamId) {
    t < |s.callers| && s.callers[t].Joining? && s.callers[t].id == id && st in s.callers[t].pending
  }

  ghost predicate Covered(s: State, id: Id, st: StreamId)
    requires id in s.entries
  {
    Over(s.entries[id].At(st).reader) || st in s.entries[id].handles || exists t :: WillJoin(s, t, id, st)
  }

  ghost predicate Inv(s: State) {
    && MutualExclusion(s)
    && s.registered <= s.entries.Keys
    && Fresh(s)
    && (forall id :: id in s.entries ==> EntryOk(s.entries[id]))
    && CallersOk(s)
    && (forall id, st :: id in s.entries ==> Covered(s, id, st))
  }

  lemma InitInv(n: nat)
    ensures Inv(Init(n))
  {
  }

  // ----- What a step may change -----

  function Actor(a: Action): Owner {
    match a
    case Acquire(o) => o
    case ReadChunk(id, st, _) => ReaderOf(id, st)
    case ReadEof(id, st) => ReaderOf(id, st)
    case Append(id, st) => ReaderOf(id, st)
    case ChildWrites(id, st, _) => ReaderOf(id, st)
    case ChildExits(id, _) => ReaderOf(id, Out)
    case _ => Caller(a.t)
  }

  lemma CallersKept(s: State, a: Action, t: nat)
    requires Enabled(s, a)
    ensures |Apply(s, a).callers| == |s.callers|
    ensures t < |s.callers| && Actor(a) != Caller(t) ==> Apply(s, a).callers[t] == s.callers[t]
  {
  }

  predicate Fresh(s: State) {
    forall id :: id in s.entries ==> id < s.nextId
  }

  lemma PcHoldsLess(s: State, pc: Pc, a: Action)
    requires CallerEnabled(s, pc, a)
    ensures PcHolds(PcAfter(s, pc, a)) <= PcHolds(pc)
  {
  }

  lemma EnteredHolds(pc: Pc)
    requires PcWants(pc).Some?
    ensures PcHolds(Entered(pc)) == PcHolds(pc) + {PcWants(pc).value}
  {
  }

  lemma ReadersUntouched(e: Entry, pc: Pc, a: Action, st: StreamId)
    ensures EntryAfter(e, pc, a).At(st).reader == e.At(st).reader
    ensures EntryAfter(e, pc, a).At(st).written == e.At(st).written
  {
  }

  /** A step changes only its own thread's locks, and gains one only by acquiring it. */
  lemma HeldChange(s: State, a: Action, o: Owner)
    requires Fresh(s) && Enabled(s, a)
    ensures o != Actor(a) ==> Held(Apply(s, a), o) == Held(s, o)
    ensures o == Actor(a) ==>
              Held(Apply(s, a), o) <= Held(s, o) + (if a.Acquire? then {Wants(s, o).value} else {})
  {
    match o {
      case Caller(t) =>
        CallersKept(s, a, t);
        if o == Actor(a) {
          if a.Acquire? {
            EnteredHolds(s.callers[t]);
          } else {
            PcHoldsLess(s, s.callers[t], a);
          }
        }
      case ReaderOf(id, st) => ReaderHeldChange(s, a, id, st);
    }
  }

  /** Whether this reader holds its buffer. */
  predicate Appends(s: State, id: Id, st: StreamId) {
    id in s.entries && s.entries[id].At(st).reader.Appending?
  }

  lemma CallerLeavesReaders(s: State, pc: Pc, a: Action, id: Id, st: StreamId)
    requires Fresh(s) && CallerEnabled(s, pc, a)
    ensures Appends(CallerApply(s, pc, a), id, st) == Appends(s, id, st)
    ensures id in s.entries ==>
              id in CallerApply(s, pc, a).entries &&
              CallerApply(s, pc, a).entries[id].At(st).reader == s.entries[id].At(st).reader
  {
    if Writes(a) {
      ReadersUntouched(s.entries[pc.id], pc, a, st);
    }
  }

  lemma EntryStepReaders(s: State, a: Action, id: Id, st: StreamId)
    requires OnEntry(a) && EntryEnabled(s, a)
    ensures Appends(EntryApply(s, a), id, st) ==> Appends(s, id, st)
    ensures Actor(a) != ReaderOf(id, st) ==> Appends(EntryApply(s, a), id, st) == Appends(s, id, st)
  {
  }

  lemma ReaderHeldChange(s: State, a: Action, id: Id, st: StreamId)
    requires Fresh(s) && Enabled(s, a)
    ensures var o := ReaderOf(id, st);
            && (o != Actor(a) ==> Held(Apply(s, a), o) == Held(s, o))
            && Held(Apply(s, a), o) <= Held(s, o) + (if a == Acquire(o) then {Wants(s, o).value} else {})
  {
    if OnEntry(a) {
      EntryStepReaders(s, a, id, st);
    } else if !a.Acquire? {
      CallerLeavesReaders(s, s.callers[a.t], a, id, st);
      assert Apply(s, a).entries == CallerApply(s, s.callers[a.t], a).entries;
    }
  }

  lemma ExclusionKept(s: State, a: Action)
    requires MutualExclusion(s) && Fresh(s) && Enabled(s, a)
    ensures MutualExclusion(Apply(s, a))
  {
    forall o1, o2, l | o1 != o2 && l in Held(Apply(s, a), o1)
      ensures l !in Held(Apply(s, a), o2)
    {
      HeldChange(s, a, o1);
      HeldChange(s, a, o2);
    }
  }

  /** Entries only move forward: exits, published statuses and collected handles are final. */
  predicate EntryForward(e: Entry, e': Entry) {
    && (e.child.Gone? ==> e'.child == e.child)
    && (e.child.Alive? && e.child.signalled ==> e'.child.Gone? || e'.child.signalled)
    && (e.finished.Some? ==> e'.finished == e.finished)
    && e'.handles <= e.handles
  }

  predicate Forward(s: State, s': State) {
    forall id :: id in s.entries ==> id in s'.entries && EntryForward(s.entries[id], s'.entries[id])
  }

  ghost predicate CallersOk(s: State) {
    forall t :: 0 <= t < |s.callers| ==> CallerOk(s, s.callers[t])
  }

  /** Only a caller that holds `finished` writes it, and only when it is empty. */
  lemma EntryAfterForward(s: State, pc: Pc, a: Action)
    requires CallerOk(s, pc) && CallerEnabled(s, pc, a) && Writes(a)
    ensures EntryForward(s.entries[pc.id], EntryAfter(s.entries[pc.id], pc, a))
    ensures EntryAfter(s.entries[pc.id], pc, a).finished != s.entries[pc.id].finished ==>
              FinishedOf(pc.id) in PcHolds(pc)
  {
  }

  lemma CallerForward(s: State, pc: Pc, a: Action, id: Id)
    requires Fresh(s) && CallerOk(s, pc) && CallerEnabled(s, pc, a) && id in s.entries
    ensures var s' := CallerApply(s, pc, a);
            && id in s'.entries && EntryForward(s.entries[id], s'.entries[id])
            && (s'.entries[id].finished != s.entries[id].finished ==> FinishedOf(id) in PcHolds(pc))
  {
    if Writes(a) {
      EntryAfterForward(s, pc, a);
    }
  }

  /** The steps of readers and children publish nothing and collect nothing. */
  lemma OnEntryForward(s: State, a: Action, id: Id)
    requires OnEntry(a) && EntryEnabled(s, a) && id in s.entries
    ensures var s' := EntryApply(s, a);
            && id in s'.entries && EntryForward(s.entries[id], s'.entries[id])
            && s'.entries[id].finished == s.entries[id].finished
  {
  }

  lemma AcquireForward(s: State, o: Owner, id: Id)
    requires Enabled(s, Acquire(o)) && id in s.entries
    ensures var s' := Apply(s, Acquire(o));
            && id in s'.entries && EntryForward(s.entries[id], s'.entries[id])
            && s'.entries[id].finished == s.entries[id].finished
  {
  }

  lemma EntryStepsForward(s: State, a: Action, id: Id)
    requires Fresh(s) && CallersOk(s) && Enabled(s, a) && id in s.entries
    ensures id in Apply(s, a).entries && EntryForward(s.entries[id], Apply(s, a).entries[id])
    ensures Apply(s, a).entries[id].finished != s.entries[id].finished ==>
              Actor(a).Caller? && FinishedOf(id) in Held(s, Actor(a))
  {
    if a.Acquire? {
      AcquireForward(s, a.o, id);
    } else if OnEntry(a) {
      OnEntryForward(s, a, id);
    } else {
      var pc := s.callers[a.t];
      assert CallerOk(s, pc);
      assert Apply(s, a).entries == CallerApply(s, pc, a).entries;
      CallerForward(s, pc, a, id);
    }
  }

  lemma StepForward(s: State, a: Action)
    requires Fresh(s) && CallersOk(s) && Enabled(s, a)
    ensures Forward(s, Apply(s, a))
    ensures forall id :: id in s.entries && Apply(s, a).entries[id].finished != s.entries[id].finished ==>
              Actor(a).Caller? && FinishedOf(id) in Held(s, Actor(a))
  {
    var s' := Apply(s, a);
    forall id | id in s.entries
      ensures id in s'.entries && EntryForward(s.entries[id], s'.entries[id])
      ensures s'.entries[id].finished != s.entries[id].finished ==>
                Actor(a).Caller? && FinishedOf(id) in Held(s, Actor(a))
    {
      EntryStepsForward(s, a, id);
    }
  }

  /** A program point stays justified while others move, as long as nobody writes a status it has locked. */
  lemma CallerStaysOk(s: State, s': State, pc: Pc)
    requires CallerOk(s, pc) && Forward(s, s')
    requires forall id :: id in s.entries && FinishedOf(id) in PcHolds(pc) ==>
               s'.entries[id].finished == s.entries[id].finished
    ensures CallerOk(s', pc)
  {
    SeenStaysOk(s, s');
  }

  lemma SeenStaysOk(s: State, s': State)
    requires Forward(s, s')
    ensures forall id, status :: StatusOk(s, id, status) ==> StatusOk(s', id, status)
    ensures forall seen :: SeenOk(s, seen) ==> SeenOk(s', seen)
  {
  }

  lemma OthersStayOk(s: State, a: Action, t: nat)
    requires MutualExclusion(s) && Fresh(s) && CallersOk(s)
    requires Enabled(s, a) && t < |s.callers| && Actor(a) != Caller(t)
    ensures CallerOk(Apply(s, a), s.callers[t])
  {
    StepForward(s, a);
    var s' := Apply(s, a);
    assert CallerOk(s, s.callers[t]);
    forall id | id in s.entries && FinishedOf(id) in PcHolds(s.callers[t])
      ensures s'.entries[id].finished == s.entries[id].finished
    {
      assert FinishedOf(id) in Held(s, Caller(t));
    }
    CallerStaysOk(s, s', s.callers[t]);
  }

  lemma ResumeOk(s: State, id: Id, goal: Goal, status: Status)
    requires GoalOk(s, goal) && StatusOk(s, id, status)
    ensures CallerOk(s, Resume(id, goal, status))
  {
  }

  lemma ReadingPcOk(s: State, pc: Pc, a: Action)
    requires CallerOk(s, pc) && CallerEnabled(s, pc, a) && s.registered <= s.entries.Keys
    requires !a.Spawn? && !Writes(a)
    ensures CallerOk(s, PcAfter(s, pc, a))
  {
    if a.Check? && s.entries[pc.id].finished.Some? {
      ResumeOk(s, pc.id, pc.goal, Exited(s.entries[pc.id].finished.value));
    } else if a.PollMiss? {
      ResumeOk(s, pc.id, pc.goal, Running);
    }
  }

  lemma GoalStaysOk(s: State, s': State, goal: Goal)
    requires GoalOk(s, goal) && Forward(s, s')
    ensures GoalOk(s', goal)
  {
  }

  lemma CollectPcOk(s: State, pc: Pc, a: Action, s': State)
    requires CallerOk(s, pc) && CallerEnabled(s, pc, a) && a.Collect? && Forward(s, s')
    requires s'.entries == CallerApply(s, pc, a).entries
    ensures CallerOk(s', PcAfter(s, pc, a))
  {
    if pc.drain.OnRefresh? {
      GoalStaysOk(s, s', pc.drain.goal);
    }
  }

  lemma PublishPcOk(s: State, pc: Pc, a: Action, s': State)
    requires CallerOk(s, pc) && CallerEnabled(s, pc, a) && a.Publish? && Forward(s, s')
    requires s'.entries == CallerApply(s, pc, a).entries
    ensures CallerOk(s', PcAfter(s, pc, a))
  {
    if pc.drain.OnRefresh? {
      GoalStaysOk(s, s', pc.drain.goal);
      ResumeOk(s', pc.id, pc.drain.goal, Exited(ExitInfo(pc.drain.code, false)));
    }
  }

  lemma WritingPcOk(s: State, pc: Pc, a: Action, s': State)
    requires CallerOk(s, pc) && CallerEnabled(s, pc, a) && Writes(a) && Forward(s, s')
    requires s'.entries == CallerApply(s, pc, a).entries
    ensures CallerOk(s', PcAfter(s, pc, a))
  {
    if a.Collect? {
      CollectPcOk(s, pc, a, s');
    } else if a.Publish? {
      PublishPcOk(s, pc, a, s');
    }
  }

  /** The caller that moves is justified at its next program point. */
  lemma PcAfterOk(s: State, pc: Pc, a: Action, s': State)
    requires CallerOk(s, pc) && CallerEnabled(s, pc, a) && Forward(s, s') && s.registered <= s.entries.Keys
    requires !a.Spawn? && s'.entries == CallerApply(s, pc, a).entries
    ensures CallerOk(s', PcAfter(s, pc, a))
  {
    if Writes(a) {
      WritingPcOk(s, pc, a, s');
    } else {
      ReadingPcOk(s, pc, a);
      assert s'.entries == s.entries;
    }
  }

  lemma EnteredOk(s: State, pc: Pc)
    requires CallerOk(s, pc)
    ensures CallerOk(s, Entered(pc))
  {
  }

  lemma ActorStaysOk(s: State, a: Action, t: nat)
    requires Inv(s) && Enabled(s, a) && t < |s.callers| && Actor(a) == Caller(t)
    ensures CallerOk(Apply(s, a), Apply(s, a).callers[t])
  {
    var pc, s' := s.callers[t], Apply(s, a);
    assert CallerOk(s, pc);
    if a.Acquire? {
      EnteredOk(s, pc);
      CallerStaysOk(s, s', Entered(pc));
    } else if !a.Spawn? {
      StepForward(s, a);
      PcAfterOk(s, pc, a, s');
    }
  }

  // ----- Pipes and buffers -----

  lemma AppendStep(p: Pipe, child: Child, a: Action)
    requires PipeOk(p, child) && a.Append? && p.reader.Appending?
    ensures PipeOk(PipeApply(p, a), child)
  {
    var chunk := p.reader.chunk;
    var k := p.taken - |chunk|;
    assert p.written[..k] + chunk == p.written[..p.taken];
    CappedAppend(p.written[..k], chunk);
    AppendFlag(p, k, chunk);
  }

  lemma WriteStep(p: Pipe, child: Child, a: Action)
    requires PipeOk(p, child) && a.ChildWrites? && child.Alive? && !p.reader.Absent?
    ensures PipeOk(PipeApply(p, a), child)
  {
    var w, w' := p.written, PipeApply(p, a).written;
    assert w'[..p.taken] == w[..p.taken];
    if p.reader.Carrying? || p.reader.Appending? {
      var k := p.taken - |p.reader.chunk|;
      assert w'[..k] == w[..k] && w'[k..p.taken] == w[k..p.taken];
    }
  }

  lemma ReadStep(p: Pipe, child: Child, a: Action)
    requires PipeOk(p, child) && p.reader.Reading?
    requires (a.ReadChunk? && 1 <= a.n && p.taken + a.n <= |p.written|) ||
             (a.ReadEof? && p.taken == |p.written| && child.Gone?)
    ensures PipeOk(PipeApply(p, a), child)
  {
  }

  lemma AppendFlag(p: Pipe, k: nat, chunk: seq<Byte>)
    requires k <= |p.written| && Wf(p.buffer) && Stored(p, k) && chunk != []
    ensures Appended(p.buffer, chunk).truncated <==> k + |chunk| > MAX_STREAM_BYTES
    ensures Wf(Appended(p.buffer, chunk))
  {
  }

  lemma TakeStep(p: Pipe, child: Child, maxBytes: nat)
    requires PipeOk(p, child)
    ensures PipeOk(p.(buffer := Advanced(p.buffer, maxBytes)), child)
  {
  }

  lemma EntryAfterOk(s: State, pc: Pc, a: Action)
    requires CallerOk(s, pc) && CallerEnabled(s, pc, a) && Writes(a) && EntryOk(s.entries[pc.id])
    ensures EntryOk(EntryAfter(s.entries[pc.id], pc, a))
  {
    var e := s.entries[pc.id];
    if a.Take? {
      TakeStep(e.out, e.child, pc.maxBytes);
      TakeStep(e.err, e.child, pc.maxBytes);
    }
  }

  lemma OnEntryOk(s: State, a: Action)
    requires OnEntry(a) && EntryEnabled(s, a) && EntryOk(s.entries[a.id])
    ensures EntryOk(EntryApply(s, a).entries[a.id])
  {
    var e := s.entries[a.id];
    if a.Append? {
      AppendStep(e.At(a.st), e.child, a);
    } else if a.ChildWrites? {
      WriteStep(e.At(a.st), e.child, a);
    } else if !a.ChildExits? {
      ReadStep(e.At(a.st), e.child, a);
    }
  }

  lemma AcquireEntryOk(s: State, id: Id, st: StreamId)
    requires Wants(s, ReaderOf(id, st)).Some? && EntryOk(s.entries[id])
    ensures var p := s.entries[id].At(st);
            EntryOk(s.entries[id].With(st, p.(reader := Appending(p.reader.chunk))))
  {
  }

  lemma CallerEntriesOk(s: State, pc: Pc, a: Action, id: Id)
    requires CallerOk(s, pc) && CallerEnabled(s, pc, a) && id in CallerApply(s, pc, a).entries
    requires id in s.entries ==> EntryOk(s.entries[id])
    ensures EntryOk(CallerApply(s, pc, a).entries[id])
  {
    if Writes(a) && pc.id == id {
      EntryAfterOk(s, pc, a);
    }
  }

  lemma EntriesStayOk(s: State, a: Action, id: Id)
    requires CallersOk(s) && Enabled(s, a) && id in Apply(s, a).entries
    requires id in s.entries ==> EntryOk(s.entries[id])
    ensures EntryOk(Apply(s, a).entries[id])
  {
    if OnEntry(a) {
      if a.id == id {
        OnEntryOk(s, a);
      }
    } else if a.Acquire? {
      if a.o.ReaderOf? && a.o.id == id {
        AcquireEntryOk(s, id, a.o.st);
      }
    } else {
      var pc := s.callers[a.t];
      assert CallerOk(s, pc);
      assert Apply(s, a).entries == CallerApply(s, pc, a).entries;
      CallerEntriesOk(s, pc, a, id);
    }
  }

  lemma EntryStepOver(s: State, a: Action, id: Id, st: StreamId)
    requires OnEntry(a) && EntryEnabled(s, a) && id in s.entries && Over(s.entries[id].At(st).reader)
    ensures id in EntryApply(s, a).entries && Over(EntryApply(s, a).entries[id].At(st).reader)
  {
  }

  lemma ReadersStayOver(s: State, a: Action, id: Id, st: StreamId)
    requires Fresh(s) && Enabled(s, a) && id in s.entries
    ensures id in Apply(s, a).entries
    ensures Over(s.entries[id].At(st).reader) ==> Over(Apply(s, a).entries[id].At(st).reader)
  {
    if OnEntry(a) {
      if Over(s.entries[id].At(st).reader) {
        EntryStepOver(s, a, id, st);
      }
    } else if !a.Acquire? {
      CallerLeavesReaders(s, s.callers[a.t], a, id, st);
      assert Apply(s, a).entries == CallerApply(s, s.callers[a.t], a).entries;
    }
  }

  /** A handle leaves the vector only into its collector's hands, and those only by a join of a finished reader. */
  lemma HandleKept(s: State, a: Action, id: Id, st: StreamId)
    requires Fresh(s) && Enabled(s, a) && id in s.entries && st in s.entries[id].handles
    ensures id in Apply(s, a).entries
    ensures st in Apply(s, a).entries[id].handles || exists t :: WillJoin(Apply(s, a), t, id, st)
  {
    if a.Collect? && s.callers[a.t].id == id {
      assert WillJoin(Apply(s, a), a.t, id, st);
    }
  }

  lemma JoinerKept(s: State, a: Action, id: Id, st: StreamId, t: nat)
    requires Enabled(s, a) && id in s.entries && WillJoin(s, t, id, st)
    ensures WillJoin(Apply(s, a), t, id, st) || Over(s.entries[id].At(st).reader)
  {
    CallersKept(s, a, t);
  }

  lemma HandlesStayCovered(s: State, a: Action, id: Id, st: StreamId)
    requires Fresh(s) && Enabled(s, a) && id in Apply(s, a).entries
    requires id in s.entries ==> Covered(s, id, st)
    ensures Covered(Apply(s, a), id, st)
  {
    if id in s.entries {
      ReadersStayOver(s, a, id, st);
      if st in s.entries[id].handles {
        HandleKept(s, a, id, st);
      } else if !Over(s.entries[id].At(st).reader) {
        var t :| WillJoin(s, t, id, st);
        JoinerKept(s, a, id, st, t);
      }
    }
  }

  lemma StepKeepsInv(s: State, a: Action)
    requires Inv(s) && Enabled(s, a)
    ensures Inv(Apply(s, a))
  {
    var s' := Apply(s, a);
    ExclusionKept(s, a);
    StepForward(s, a);
    forall id | id in s'.entries ensures EntryOk(s'.entries[id]) {
      EntriesStayOk(s, a, id);
    }
    forall t | 0 <= t < |s'.callers| ensures CallerOk(s', s'.callers[t]) {
      CallersKept(s, a, t);
      if Actor(a) == Caller(t) {
        ActorStaysOk(s, a, t);
      } else {
        OthersStayOk(s, a, t);
      }
    }
    forall id, st | id in s'.entries ensures Covered(s', id, st) {
      HandlesStayCovered(s, a, id, st);
    }
    RegistryKept(s, a);
  }

  lemma CallerKeepsRegistry(s: State, pc: Pc, a: Action)
    requires Fresh(s) && s.registered <= s.entries.Keys && CallerOk(s, pc) && CallerEnabled(s, pc, a)
    ensures var s' := CallerApply(s, pc, a); Fresh(s') && s'.registered <= s'.entries.Keys
  {
  }

  lemma RegistryKept(s: State, a: Action)
    requires Fresh(s) && s.registered <= s.entries.Keys && CallersOk(s) && Enabled(s, a)
    ensures Apply(s, a).registered <= Apply(s, a).entries.Keys
    ensures Fresh(Apply(s, a))
  {
    if !a.Acquire? && !OnEntry(a) {
      assert CallerOk(s, s.callers[a.t]);
      CallerKeepsRegistry(s, s.callers[a.t], a);
    }
  }

  lemma {:induction false} RunKeepsInv(n: nat, trace: seq<Action>)
    requires Exec(n, trace).Some?
    ensures Inv(Exec(n, trace).value)
    ensures |Exec(n, trace).value.callers| == n
  {
    if trace == [] {
      InitInv(n);
    } else {
      var front := trace[..|trace| - 1];
      RunKeepsInv(n, front);
      StepKeepsInv(Exec(n, front).value, trace[|trace| - 1]);
      CallersKept(Exec(n, front).value, trace[|trace| - 1], 0);
    }
  }
}
