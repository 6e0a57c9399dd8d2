/**
 Two concrete runs that mark the edges of the store's promises: a `kill` that overlaps an
 `output` lets an exit be published before the output is complete, and a call that overlaps
 the publication may still report `Running` afterwards.
 */
module BackgroundRaces {
  import opened Basics
  import opened StreamBuffer
  import opened BackgroundProcesses
  import opened BackgroundReports
  import opened BackgroundTheorems

  /** Two callers and one registered child, whose readers have not taken anything yet. */
  function Two(e: Entry, p: Pc, q: Pc): State {
    State(2, map[1 := e], {1}, [p, q])
  }

  function Process(child: Child, finished: Option<ExitInfo>, handles: set<StreamId>): Entry {
    Entry(child, finished, handles, Pipe([7], 0, Reading, EMPTY), Pipe([], 0, Reading, EMPTY))
  }

  lemma Step(trace: seq<Action>, s: State, a: Action, s': State) returns (longer: seq<Action>)
    requires Exec(2, trace) == Some(s) && Enabled(s, a) && Apply(s, a) == s'
    ensures longer == trace + [a] && Exec(2, longer) == Some(s')
  {
    longer := trace + [a];
    assert longer[..|longer| - 1] == trace;
  }

  /** The first caller takes a step of its own. */
  lemma First(trace: seq<Action>, e: Entry, p: Pc, q: Pc, a: Action, e': Entry, p': Pc) returns (longer: seq<Action>)
    requires Exec(2, trace) == Some(Two(e, p, q)) && CallerEnabled(Two(e, p, q), p, a)
    requires !a.Acquire? && !OnEntry(a) && !a.Spawn? && !a.Insert? && a.t == 0 && (Writes(a) ==> p.id == 1)
    requires e' == EntryAfter(e, p, a) && p' == PcAfter(Two(e, p, q), p, a)
    ensures longer == trace + [a]
    ensures Exec(2, longer) == Some(Two(e', p', q))
  {
    assert Apply(Two(e, p, q), a).entries == map[1 := e'];
    assert Apply(Two(e, p, q), a).callers == [p', q];
    longer := Step(trace, Two(e, p, q), a, Two(e', p', q));
  }

  lemma Second(trace: seq<Action>, e: Entry, p: Pc, q: Pc, a: Action, e': Entry, q': Pc) returns (longer: seq<Action>)
    requires Exec(2, trace) == Some(Two(e, p, q)) && CallerEnabled(Two(e, p, q), q, a)
    requires !a.Acquire? && !OnEntry(a) && !a.Spawn? && !a.Insert? && a.t == 1 && (Writes(a) ==> q.id == 1)
    requires e' == EntryAfter(e, q, a) && q' == PcAfter(Two(e, p, q), q, a)
    ensures longer == trace + [a]
    ensures Exec(2, longer) == Some(Two(e', p, q'))
  {
    assert Apply(Two(e, p, q), a).entries == map[1 := e'];
    assert Apply(Two(e, p, q), a).callers == [p, q'];
    longer := Step(trace, Two(e, p, q), a, Two(e', p, q'));
  }

  predicate Quiet(e: Entry) {
    !e.out.reader.Appending? && !e.err.reader.Appending?
  }

  /** The first caller takes the lock it wants, which the other does not hold. */
  lemma FirstEnters(trace: seq<Action>, e: Entry, p: Pc, q: Pc) returns (longer: seq<Action>)
    requires Exec(2, trace) == Some(Two(e, p, q)) && Quiet(e) && Known(Two(e, p, q), p)
    requires PcWants(p).Some? && PcWants(p).value !in PcHolds(p) + PcHolds(q)
    ensures Exec(2, longer) == Some(Two(e, Entered(p), q))
  {
    assert Free(Two(e, p, q), PcWants(p).value);
    assert Apply(Two(e, p, q), Acquire(Caller(0))).callers == [Entered(p), q];
    longer := Step(trace, Two(e, p, q), Acquire(Caller(0)), Two(e, Entered(p), q));
  }

  lemma SecondEnters(trace: seq<Action>, e: Entry, p: Pc, q: Pc) returns (longer: seq<Action>)
    requires Exec(2, trace) == Some(Two(e, p, q)) && Quiet(e) && Known(Two(e, p, q), q)
    requires PcWants(q).Some? && PcWants(q).value !in PcHolds(p) + PcHolds(q)
    ensures trace <= longer && Exec(2, longer) == Some(Two(e, p, Entered(q)))
  {
    assert Free(Two(e, p, q), PcWants(q).value);
    assert Apply(Two(e, p, q), Acquire(Caller(1))).callers == [p, Entered(q)];
    longer := Step(trace, Two(e, p, q), Acquire(Caller(1)), Two(e, p, Entered(q)));
  }

  lemma ChildStarted(piped: set<StreamId>) returns (trace: seq<Action>)
    ensures Exec(2, trace) == Some(State(2, map[1 := NewEntry(piped)], {}, [Registering(1), Idle]))
  {
    assert Init(2) == State(1, map[], {}, [Idle, Idle]);
    trace := Step([], Init(2), Spawn(0, piped), State(2, map[1 := NewEntry(piped)], {}, [Registering(1), Idle]));
  }

  /** The first caller spawns a child and registers it. */
  lemma Spawned(piped: set<StreamId>) returns (trace: seq<Action>)
    ensures Exec(2, trace) == Some(Two(NewEntry(piped), Returning(SpawnedAs(1)), Idle))
  {
    var e := NewEntry(piped);
    var s1 := State(2, map[1 := e], {}, [Registering(1), Idle]);
    trace := ChildStarted(piped);
    assert Free(s1, Processes);
    var s2 := s1.(callers := [Inserting(1), Idle]);
    trace := Step(trace, s1, Acquire(Caller(0)), s2);
    trace := Step(trace, s2, Insert(0), Two(e, Returning(SpawnedAs(1)), Idle));
  }

  /** A registered child has written one byte nobody has read. */
  lemma Started() returns (trace: seq<Action>)
    ensures Exec(2, trace) == Some(Two(Process(Alive(false), None, {Out, Err}), Idle, Idle))
  {
    var e := NewEntry({Out, Err});
    trace := Spawned({Out, Err});
    trace := First(trace, e, Returning(SpawnedAs(1)), Idle, Return(0), e, Idle);
    var a := ChildWrites(1, Out, [7]);
    ChildMoves(e, Idle, Idle, a);
    trace := Step(trace, Two(e, Idle, Idle), a, Two(Process(Alive(false), None, {Out, Err}), Idle, Idle));
  }

  lemma ChildMoves(e: Entry, p: Pc, q: Pc, a: Action)
    requires a.ChildExits? || (a.ChildWrites? && a.st == Out && e.out.written == [] && e.out.reader.Reading?)
    requires a.id == 1 && e.child.Alive?
    ensures EntryEnabled(Two(e, p, q), a)
    ensures EntryApply(Two(e, p, q), a) ==
            Two(if a.ChildExits? then e.(child := Gone(a.code)) else e.(out := e.out.(written := a.bytes)), p, q)
  {
    assert a.ChildWrites? ==> e.out.written + a.bytes == a.bytes;
    assert EntryApply(Two(e, p, q), a).entries ==
           map[1 := if a.ChildExits? then e.(child := Gone(a.code)) else e.(out := e.out.(written := a.bytes))];
  }

  /** The first caller starts a `kill` and signals the child. */
  lemma Signalled(before: seq<Action>, e: Entry, q: Pc) returns (trace: seq<Action>)
    requires Exec(2, before) == Some(Two(e, Idle, q)) && Quiet(e) && PcHolds(q) == {} && e.child == Alive(false)
    ensures Exec(2, trace) == Some(Two(e.(child := Alive(true)), Waiting(1), q))
  {
    trace := First(before, e, Idle, q, CallOn(0, 1, Kill), e, Lookup(1, Kill));
    trace := FirstEnters(trace, e, Lookup(1, Kill), q);
    trace := First(trace, e, LookingUp(1, Kill), q, Look(0), e, KillStart(1));
    trace := FirstEnters(trace, e, KillStart(1), q);
    trace := First(trace, e, Killing(1), q, Signal(0), e.(child := Alive(true)), Waiting(1));
  }

  /** The signalled child exits. */
  lemma Exits(before: seq<Action>, e: Entry, q: Pc) returns (trace: seq<Action>)
    requires Exec(2, before) == Some(Two(e, Waiting(1), q)) && e.child.Alive?
    ensures Exec(2, trace) == Some(Two(e.(child := Gone(None)), Waiting(1), q))
  {
    ChildMoves(e, Waiting(1), q, ChildExits(1, None));
    trace := Step(before, Two(e, Waiting(1), q), ChildExits(1, None), Two(e.(child := Gone(None)), Waiting(1), q));
  }

  /** After which the killer collects the handles and is about to join them. */
  lemma Killed(before: seq<Action>, e: Entry, q: Pc) returns (trace: seq<Action>)
    requires Exec(2, before) == Some(Two(e, Waiting(1), q)) && Quiet(e) && PcHolds(q) == {} && e.child == Alive(true)
    ensures Exec(2, trace) == Some(Two(e.(child := Gone(None), handles := {}), Joining(1, OnKill, e.handles), q))
  {
    var gone := e.(child := Gone(None));
    trace := Exits(before, e, q);
    trace := First(trace, gone, Waiting(1), q, WaitDone(0), gone, Draining(1, OnKill));
    trace := FirstEnters(trace, gone, Draining(1, OnKill), q);
    trace := First(trace, gone, Collecting(1, OnKill), q, Collect(0),
                   gone.(handles := {}), Joining(1, OnKill, e.handles));
  }

  lemma SecondLooksUp(before: seq<Action>, e: Entry, p: Pc) returns (trace: seq<Action>)
    requires Exec(2, before) == Some(Two(e, p, Idle)) && Quiet(e) && PcHolds(p) == {}
    ensures Exec(2, trace) == Some(Two(e, p, Refresh(1, ForOutput(10))))
  {
    trace := Second(before, e, p, Idle, CallOn(1, 1, Output(10)), e, Lookup(1, Output(10)));
    trace := SecondEnters(trace, e, p, Lookup(1, Output(10)));
    trace := Second(trace, e, p, LookingUp(1, Output(10)), Look(1), e, Refresh(1, ForOutput(10)));
  }

  /** The second caller asks for output until it reaches the poll. */
  lemma SecondPolls(before: seq<Action>, e: Entry, p: Pc) returns (trace: seq<Action>)
    requires Exec(2, before) == Some(Two(e, p, Idle)) && Quiet(e) && PcHolds(p) == {} && e.finished.None?
    ensures Exec(2, trace) == Some(Two(e, p, TryWait(1, ForOutput(10))))
  {
    trace := SecondLooksUp(before, e, p);
    trace := SecondEnters(trace, e, p, Refresh(1, ForOutput(10)));
    trace := Second(trace, e, p, Checking(1, ForOutput(10)), Check(1), e, Polling(1, ForOutput(10)));
    trace := SecondEnters(trace, e, p, Polling(1, ForOutput(10)));
  }

  /** The killer holds both handles; the output call has reached its poll. */
  lemma BothInside() returns (trace: seq<Action>)
    ensures Exec(2, trace) ==
            Some(Two(Process(Gone(None), None, {}), Joining(1, OnKill, {Out, Err}), TryWait(1, ForOutput(10))))
  {
    trace := Started();
    trace := Signalled(trace, Process(Alive(false), None, {Out, Err}), Idle);
    trace := Killed(trace, Process(Alive(true), None, {Out, Err}), Idle);
    trace := SecondPolls(trace, Process(Gone(None), None, {}), Joining(1, OnKill, {Out, Err}));
  }

  /** The output call sees the exit and finds the handle vector empty. */
  lemma CollectsNothing(before: seq<Action>, e: Entry, p: Pc) returns (trace: seq<Action>)
    requires Exec(2, before) == Some(Two(e, p, TryWait(1, ForOutput(10)))) && Quiet(e) && PcHolds(p) == {}
    requires e.child == Gone(None) && e.handles == {}
    ensures Exec(2, trace) == Some(Two(e, p, Joining(1, OnRefresh(ForOutput(10), None), {})))
  {
    var d := OnRefresh(ForOutput(10), None);
    trace := Second(before, e, p, TryWait(1, ForOutput(10)), PollHit(1), e, Draining(1, d));
    trace := SecondEnters(trace, e, p, Draining(1, d));
    trace := Second(trace, e, p, Collecting(1, d), Collect(1), e, Joining(1, d, {}));
  }

  lemma PublishesFirst(before: seq<Action>, e: Entry, p: Pc) returns (trace: seq<Action>)
    requires Exec(2, before) == Some(Two(e, p, Joining(1, OnRefresh(ForOutput(10), None), {})))
    ensures var info := ExitInfo(None, false);
            Exec(2, trace) == Some(Two(e.(finished := Some(info)), p, TakeOut(1, 10, Exited(info))))
  {
    var d, info := OnRefresh(ForOutput(10), None), ExitInfo(None, false);
    trace := Second(before, e, p, Joining(1, d, {}), Publish(1),
                    e.(finished := Some(info)), TakeOut(1, 10, Exited(info)));
  }

  /**
   An `output` that overlaps the `kill` finds the handle vector empty, waits for nobody and
   publishes the exit while the byte the child wrote is still in the pipe.
   */
  lemma OverlappingKillPublishesEarly() returns (trace: seq<Action>)
    ensures Exec(2, trace).Some?
    ensures 1 in Exec(2, trace).value.entries && Exec(2, trace).value.entries[1].finished.Some?
    ensures !Drained(Exec(2, trace).value.entries[1])
  {
    trace := BothInside();
    trace := CollectsNothing(trace, Process(Gone(None), None, {}), Joining(1, OnKill, {Out, Err}));
    trace := PublishesFirst(trace, Process(Gone(None), None, {}), Joining(1, OnKill, {Out, Err}));
  }

  /** The killer has nothing to join: it seals the exit and returns it. */
  lemma KillReturns(before: seq<Action>, e: Entry, q: Pc) returns (trace: seq<Action>)
    requires Exec(2, before) == Some(Two(e, Joining(1, OnKill, {}), q)) && Quiet(e) && PcHolds(q) == {}
    requires e.finished.None?
    ensures Exec(2, trace) == Some(Two(Sealed(e), Returning(KillWas(1, Exited(ExitInfo(None, true)))), q))
  {
    trace := First(before, e, Joining(1, OnKill, {}), q, Publish(0), e, Settling(1));
    trace := FirstEnters(trace, e, Settling(1), q);
    trace := First(trace, e, Sealing(1), q, Seal(0), Sealed(e), Returning(KillWas(1, Exited(ExitInfo(None, true)))));
  }

  lemma SecondTakesOut(before: seq<Action>, e: Entry, status: Status) returns (trace: seq<Action>)
    requires Exec(2, before) == Some(Two(e, Idle, TakeOut(1, 10, status))) && Quiet(e)
    requires e.out.buffer == e.err.buffer == EMPTY
    ensures before <= trace
    ensures Exec(2, trace) == Some(Two(e, Idle, TakeErr(1, 10, status, Slice([], false))))
  {
    trace := SecondEnters(before, e, Idle, TakeOut(1, 10, status));
    trace := Second(trace, e, Idle, TakingOut(1, 10, status), Take(1), e, TakeErr(1, 10, status, Slice([], false)));
  }

  /** The second caller, carrying a status, takes both streams and is about to return. */
  lemma SecondTakes(before: seq<Action>, e: Entry, status: Status) returns (trace: seq<Action>)
    requires Exec(2, before) == Some(Two(e, Idle, TakeOut(1, 10, status))) && Quiet(e)
    requires e.out.buffer == e.err.buffer == EMPTY
    ensures before <= trace
    ensures Exec(2, trace) == Some(Two(e, Idle, Returning(OutputWas(1, status, Slice([], false), Slice([], false)))))
  {
    trace := SecondTakesOut(before, e, status);
    trace := SecondEnters(trace, e, Idle, TakeErr(1, 10, status, Slice([], false)));
    trace := Second(trace, e, Idle, TakingErr(1, 10, status, Slice([], false)), Take(1), e,
                    Returning(OutputWas(1, status, Slice([], false), Slice([], false))));
  }

  /** The second caller has polled a running child and still carries that status. */
  lemma PolledRunning() returns (trace: seq<Action>)
    ensures Exec(2, trace) == Some(Two(NewEntry({}), Idle, TakeOut(1, 10, Running)))
  {
    var e := NewEntry({});
    trace := Spawned({});
    trace := First(trace, e, Returning(SpawnedAs(1)), Idle, Return(0), e, Idle);
    trace := SecondPolls(trace, e, Idle);
    trace := Second(trace, e, Idle, TryWait(1, ForOutput(10)), PollMiss(1), e, TakeOut(1, 10, Running));
  }

  /** The first caller kills the child and returns the exit, while the second is still on its way. */
  lemma KillOvertakes() returns (trace: seq<Action>, e: Entry)
    ensures e.out.buffer == e.err.buffer == EMPTY && Quiet(e)
    ensures Exec(2, trace) == Some(Two(e, Returning(KillWas(1, Exited(ExitInfo(None, true)))), TakeOut(1, 10, Running)))
  {
    var e0, q := NewEntry({}), TakeOut(1, 10, Running);
    trace := PolledRunning();
    trace := Signalled(trace, e0, q);
    trace := Killed(trace, e0.(child := Alive(true)), q);
    e := e0.(child := Gone(None), handles := {});
    trace := KillReturns(trace, e, q);
    e := Sealed(e);
  }

  /** The kill returns, then the other call; `i` and `j` are the two returns. */
  lemma StaleRun() returns (trace: seq<Action>, i: nat, j: nat, e: Entry)
    ensures i < j == |trace| - 1 && trace[i] == Return(0) && trace[j] == Return(1)
    ensures Exec(2, trace[..i]) ==
            Some(Two(e, Returning(KillWas(1, Exited(ExitInfo(None, true)))), TakeOut(1, 10, Running)))
    ensures Exec(2, trace[..j]) ==
            Some(Two(e, Idle, Returning(OutputWas(1, Running, Slice([], false), Slice([], false)))))
  {
    var q := TakeOut(1, 10, Running);
    var kill := Returning(KillWas(1, Exited(ExitInfo(None, true))));
    var t1;
    t1, e := KillOvertakes();
    var t2 := First(t1, e, kill, q, Return(0), e, Idle);
    var t3 := SecondTakes(t2, e, Running);
    trace, i, j := t3 + [Return(1)], |t1|, |t3|;
    assert trace[..i] == t1 && trace[..j] == t3 && trace[i] == t2[i];
  }

  /**
   A call that overlaps the publication can report `Running` after another call has reported
   the exit: it had settled on that status before.
   */
  lemma OverlappingCallReportsStale() returns (trace: seq<Action>, i: nat, j: nat)
    ensures Exec(2, trace).Some? && i < j
    ensures Reports(2, trace, i, 1, Exited(ExitInfo(None, true))) && Reports(2, trace, j, 1, Running)
  {
    var e;
    trace, i, j, e := StaleRun();
    var out := Returning(OutputWas(1, Running, Slice([], false), Slice([], false)));
    var longer := Second(trace[..j], e, Idle, out, Return(1), e, Idle);
    assert longer == trace;
  }
}
