/**
 Calls end: every internal step of the background store does a bounded amount of work, so no
 schedule can keep it busy for ever, and where it comes to rest no call is pending.
 */
module BackgroundProgress {
  import opened Basics
  import opened StreamBuffer
  import opened BackgroundProcesses
  import opened BackgroundInvariant
  import opened BackgroundTheorems
  import opened BackgroundReports

  // ----- The work left -----

  /** How many of the ids below `n` a `list` has not seen. */
  function Unseen(seen: set<Id>, n: nat): nat {
    if n == 0 then 0 else Unseen(seen, n - 1) + (if n - 1 in seen then 0 else 1)
  }

  /** What a call has left to do after refreshing `id`. */
  function AfterRefresh(id: Id, goal: Goal, n: nat): nat {
    match goal
    case ForOutput(_) => 5
    case ForList(seen) => 12 * Unseen(seen.Keys + {id}, n) + 2
  }

  function AfterDrain(id: Id, drain: Drain, n: nat): nat {
    match drain
    case OnRefresh(goal, _) => AfterRefresh(id, goal, n)
    case OnKill => 3
  }

  function JoinsLeft(pending: set<StreamId>): nat {
    (if Out in pending then 1 else 0) + (if Err in pending then 1 else 0)
  }

  /** The most steps a caller can still take in its call, with `n` the next process id. */
  function PcWork(pc: Pc, n: nat): nat {
    match pc
    case Idle => 0
    case Returning(_) => 1
    case Registering(_) => 3
    case Inserting(_) => 2
    case Lookup(_, _) => 16
    case LookingUp(_, _) => 15
    case Listing => 12 * Unseen({}, n) + 3
    case InList(seen) => 12 * Unseen(seen.Keys, n) + 2
    case Refresh(id, goal) => AfterRefresh(id, goal, n) + 9
    case Checking(id, goal) => AfterRefresh(id, goal, n) + 8
    case Polling(id, goal) => AfterRefresh(id, goal, n) + 7
    case TryWait(id, goal) => AfterRefresh(id, goal, n) + 6
    case Draining(id, drain) => AfterDrain(id, drain, n) + 5
    case Collecting(id, drain) => AfterDrain(id, drain, n) + 4
    case Joining(id, drain, pending) => AfterDrain(id, drain, n) + 1 + JoinsLeft(pending)
    case KillStart(_) => 11
    case Killing(_) => 10
    case Waiting(_) => 9
    case Settling(_) => 3
    case Sealing(_) => 2
    case TakeOut(_, _, _) => 5
    case TakingOut(_, _, _) => 4
    case TakeErr(_, _, _, _) => 3
    case TakingErr(_, _, _, _) => 2
  }

  function ReaderWork(r: Reader): nat {
    match r
    case Absent => 0
    case Finished => 0
    case Reading => 1
    case Appending(_) => 2
    case Carrying(_) => 3
  }

  /** Each byte still in the pipe takes at most a read, a lock and an append. */
  function PipeWork(p: Pipe): nat {
    3 * (if p.taken <= |p.written| then |p.written| - p.taken else 0) + ReaderWork(p.reader)
  }

  function EntryWork(e: Entry): nat {
    PipeWork(e.out) + PipeWork(e.err) + (if e.child.Alive? then 1 else 0)
  }

  function CallersWork(callers: seq<Pc>, n: nat): nat {
    if callers == [] then 0 else CallersWork(callers[..|callers| - 1], n) + PcWork(callers[|callers| - 1], n)
  }

  function EntriesWork(entries: map<Id, Entry>, n: nat): nat {
    if n == 0 then 0
    else EntriesWork(entries, n - 1) + (if n - 1 in entries then EntryWork(entries[n - 1]) else 0)
  }

  function Work(s: State): nat {
    CallersWork(s.callers, s.nextId) + EntriesWork(s.entries, s.nextId)
  }

  // ----- Every internal step lowers it -----

  lemma {:induction false} CallersWorkUpdate(callers: seq<Pc>, t: nat, pc: Pc, n: nat)
    requires t < |callers|
    ensures CallersWork(callers[t := pc], n) == CallersWork(callers, n) - PcWork(callers[t], n) + PcWork(pc, n)
  {
    var last := |callers| - 1;
    if t < last {
      CallersWorkUpdate(callers[..last], t, pc, n);
      assert callers[t := pc][..last] == callers[..last][t := pc];
    } else {
      assert callers[t := pc][..last] == callers[..last];
    }
  }

  lemma {:induction false} EntriesWorkUpdate(entries: map<Id, Entry>, id: Id, e: Entry, n: nat)
    requires id in entries
    ensures EntriesWork(entries[id := e], n) ==
            EntriesWork(entries, n) + if id < n then EntryWork(e) - EntryWork(entries[id]) else 0
  {
    if n > 0 {
      EntriesWorkUpdate(entries, id, e, n - 1);
    }
  }

  lemma {:induction false} UnseenLess(seen: set<Id>, id: Id, n: nat)
    requires id !in seen
    ensures Unseen(seen + {id}, n) == Unseen(seen, n) - if id < n then 1 else 0
  {
    if n > 0 {
      UnseenLess(seen, id, n - 1);
    }
  }

  lemma EnteredWorks(pc: Pc, n: nat)
    requires PcWants(pc).Some?
    ensures PcWork(Entered(pc), n) < PcWork(pc, n)
  {
    var none: map<Id, Status> := map[];
    assert none.Keys == {};
  }

  lemma ResumeWork(id: Id, goal: Goal, status: Status, n: nat)
    ensures PcWork(Resume(id, goal, status), n) == AfterRefresh(id, goal, n)
  {
    if goal.ForList? {
      assert goal.seen[id := status].Keys == goal.seen.Keys + {id};
    }
  }

  /** The steps that begin a call. */
  predicate Begins(a: Action) {
    a.Spawn? || a.CallOn? || a.CallList?
  }

  /** The steps of a refresh. */
  lemma RefreshWorks(s: State, pc: Pc, a: Action, n: nat)
    requires CallerEnabled(s, pc, a) && (a.Check? || a.PollHit? || a.PollMiss?)
    ensures PcWork(PcAfter(s, pc, a), n) < PcWork(pc, n)
  {
    ResumeWork(pc.id, pc.goal, StatusFrom(s.entries[pc.id].finished), n);
    ResumeWork(pc.id, pc.goal, Running, n);
  }

  /** The steps of a drain. */
  lemma DrainWorks(s: State, pc: Pc, a: Action, n: nat)
    requires CallerEnabled(s, pc, a) && (a.Collect? || a.Join? || a.Publish?)
    ensures PcWork(PcAfter(s, pc, a), n) < PcWork(pc, n)
  {
    if a.Publish? && pc.drain.OnRefresh? {
      ResumeWork(pc.id, pc.drain.goal, Exited(ExitInfo(pc.drain.code, false)), n);
    }
  }

  lemma PickWorks(s: State, pc: Pc, a: Action, n: nat)
    requires CallerEnabled(s, pc, a) && a.Pick? && a.id < n
    ensures PcWork(PcAfter(s, pc, a), n) < PcWork(pc, n)
  {
    UnseenLess(pc.seen.Keys, a.id, n);
  }

  lemma PcAfterWorks(s: State, pc: Pc, a: Action, n: nat)
    requires CallerEnabled(s, pc, a) && !Begins(a) && (a.Pick? ==> a.id < n)
    ensures PcWork(PcAfter(s, pc, a), n) < PcWork(pc, n)
  {
    if a.Pick? {
      PickWorks(s, pc, a, n);
    } else if a.Check? || a.PollHit? || a.PollMiss? {
      RefreshWorks(s, pc, a, n);
    } else if a.Collect? || a.Join? || a.Publish? {
      DrainWorks(s, pc, a, n);
    }
  }

  lemma EntryAfterWork(e: Entry, pc: Pc, a: Action)
    ensures EntryWork(EntryAfter(e, pc, a)) == EntryWork(e)
  {
  }

  lemma CallerEntriesWork(s: State, pc: Pc, a: Action)
    requires CallerEnabled(s, pc, a) && !Begins(a)
    ensures CallerApply(s, pc, a).nextId == s.nextId && CallerApply(s, pc, a).callers == s.callers
    ensures EntriesWork(CallerApply(s, pc, a).entries, s.nextId) == EntriesWork(s.entries, s.nextId)
  {
    if Writes(a) {
      EntryAfterWork(s.entries[pc.id], pc, a);
      EntriesWorkUpdate(s.entries, pc.id, EntryAfter(s.entries[pc.id], pc, a), s.nextId);
    }
  }

  lemma CallerWorks(s: State, a: Action)
    requires Fresh(s) && s.registered <= s.entries.Keys
    requires Enabled(s, a) && !a.Acquire? && !OnEntry(a) && !Begins(a)
    ensures Work(Apply(s, a)) < Work(s)
  {
    var pc := s.callers[a.t];
    PcAfterWorks(s, pc, a, s.nextId);
    CallerEntriesWork(s, pc, a);
    CallersWorkUpdate(s.callers, a.t, PcAfter(s, pc, a), s.nextId);
  }

  lemma PipeWorks(p: Pipe, a: Action)
    requires (a.ReadChunk? && 1 <= a.n && p.taken + a.n <= |p.written| && p.reader.Reading?) ||
             (a.ReadEof? && p.reader.Reading?) || (a.Append? && p.reader.Appending?)
    ensures PipeWork(PipeApply(p, a)) < PipeWork(p)
  {
  }

  lemma EntryWorks(s: State, a: Action)
    requires Fresh(s) && OnEntry(a) && EntryEnabled(s, a) && !a.ChildWrites?
    ensures Work(EntryApply(s, a)) < Work(s)
  {
    var e := s.entries[a.id];
    if !a.ChildExits? {
      PipeWorks(e.At(a.st), a);
    }
    EntriesWorkUpdate(s.entries, a.id, EntryApply(s, a).entries[a.id], s.nextId);
  }

  lemma AcquireWorks(s: State, o: Owner)
    requires Fresh(s) && Enabled(s, Acquire(o))
    ensures Work(Apply(s, Acquire(o))) < Work(s)
  {
    match o {
      case Caller(t) =>
        EnteredWorks(s.callers[t], s.nextId);
        CallersWorkUpdate(s.callers, t, Entered(s.callers[t]), s.nextId);
      case ReaderOf(id, st) =>
        EntriesWorkUpdate(s.entries, id, Apply(s, Acquire(o)).entries[id], s.nextId);
    }
  }

  /** Every step the system takes by itself lowers the work left. */
  lemma InternalWorks(s: State, a: Action)
    requires Inv(s) && Enabled(s, a) && Internal(s, a)
    ensures Work(Apply(s, a)) < Work(s)
  {
    if a.Acquire? {
      AcquireWorks(s, a.o);
    } else if OnEntry(a) {
      EntryWorks(s, a);
    } else {
      CallerWorks(s, a);
    }
  }

  // ----- Whole runs -----

  /** From step `k` on the run consists of internal steps: no new calls, children or output. */
  ghost predicate InternalFrom(n: nat, trace: seq<Action>, k: nat) {
    forall m :: k <= m < |trace| && Exec(n, trace[..m]).Some? ==> Internal(Exec(n, trace[..m]).value, trace[m])
  }

  /** Under every schedule, a stretch of internal steps is no longer than the work left when it began. */
  lemma {:induction false} InternalRunsEnd(n: nat, trace: seq<Action>, k: nat)
    requires Exec(n, trace).Some? && k <= |trace| && InternalFrom(n, trace, k)
    ensures Exec(n, trace[..k]).Some?
    ensures |trace| - k + Work(Exec(n, trace).value) <= Work(Exec(n, trace[..k]).value)
  {
    if k == |trace| {
      assert trace[..k] == trace;
    } else {
      var front := trace[..|trace| - 1];
      assert front[..k] == trace[..k];
      assert forall m :: k <= m < |front| ==> front[..m] == trace[..m] && front[m] == trace[m];
      InternalRunsEnd(n, front, k);
      RunKeepsInv(n, front);
      InternalWorks(Exec(n, front).value, trace[|trace| - 1]);
    }
  }

  ghost predicate AllIdle(s: State) {
    forall t :: 0 <= t < |s.callers| ==> s.callers[t].Idle?
  }

  ghost predicate AtRest(s: State) {
    forall a :: Internal(s, a) ==> !Enabled(s, a)
  }

  /** Where the system comes to rest, no call is pending. */
  lemma RestMeansIdle(n: nat, trace: seq<Action>)
    requires Exec(n, trace).Some? && AtRest(Exec(n, trace).value)
    ensures AllIdle(Exec(n, trace).value)
  {
    var s := Exec(n, trace).value;
    forall t | 0 <= t < |s.callers| ensures s.callers[t].Idle? {
      if !s.callers[t].Idle? {
        var c, a := NoDeadlock(n, trace, t);
      }
    }
  }

  lemma InternalStep(n: nat, trace: seq<Action>, a: Action)
    requires Exec(n, trace).Some? && Enabled(Exec(n, trace).value, a) && Internal(Exec(n, trace).value, a)
    ensures Exec(n, trace + [a]).Some?
    ensures Work(Exec(n, trace + [a]).value) < Work(Exec(n, trace).value)
  {
    assert (trace + [a])[..|trace|] == trace;
    RunKeepsInv(n, trace);
    InternalWorks(Exec(n, trace).value, a);
  }

  lemma InternalFromCons(n: nat, trace: seq<Action>, a: Action, more: seq<Action>)
    requires Exec(n, trace).Some? && Internal(Exec(n, trace).value, a)
    requires InternalFrom(n, trace + [a] + more, |trace| + 1)
    ensures InternalFrom(n, trace + ([a] + more), |trace|)
  {
    var whole := trace + ([a] + more);
    assert trace + [a] + more == whole;
    assert whole[..|trace|] == trace && whole[|trace|] == a;
  }

  /** From every reachable state, some finite run of internal steps brings the system to rest. */
  lemma {:induction false} ComesToRest(n: nat, trace: seq<Action>) returns (more: seq<Action>)
    requires Exec(n, trace).Some?
    ensures Exec(n, trace + more).Some? && InternalFrom(n, trace + more, |trace|)
    ensures AtRest(Exec(n, trace + more).value)
    decreases Work(Exec(n, trace).value)
  {
    var s := Exec(n, trace).value;
    if AtRest(s) {
      more := [];
      assert trace + more == trace;
    } else {
      var a :| Internal(s, a) && Enabled(s, a);
      InternalStep(n, trace, a);
      var rest := ComesToRest(n, trace + [a]);
      InternalFromCons(n, trace, a, rest);
      more := [a] + rest;
      assert trace + [a] + rest == trace + more;
    }
  }

  lemma StepStaysPending(s: State, a: Action, t: nat)
    requires Enabled(s, a) && t < |s.callers| && !s.callers[t].Idle? && a != Return(t)
    ensures t < |Apply(s, a).callers| && !Apply(s, a).callers[t].Idle?
  {
    CallersKept(s, a, t);
  }

  /** A pending call is over only when it has returned. */
  lemma {:induction false} PendingReturns(n: nat, trace: seq<Action>, k: nat, t: nat)
    requires Exec(n, trace).Some? && k <= |trace| && Exec(n, trace[..k]).Some?
    requires t < |Exec(n, trace[..k]).value.callers| && !Exec(n, trace[..k]).value.callers[t].Idle?
    ensures t < |Exec(n, trace).value.callers|
    ensures Exec(n, trace).value.callers[t].Idle? ==> Returns(trace, k, |trace|, t)
  {
    if k == |trace| {
      assert trace[..k] == trace;
    } else {
      var front, a := trace[..|trace| - 1], trace[|trace| - 1];
      assert front[..k] == trace[..k];
      PendingReturns(n, front, k, t);
      CallersKept(Exec(n, front).value, a, t);
      if a == Return(t) {
        assert trace[|trace| - 1] == Return(t);
      } else if Exec(n, front).value.callers[t].Idle? {
        var m :| k <= m < |front| && front[m] == Return(t);
        assert trace[m] == Return(t);
      } else {
        StepStaysPending(Exec(n, front).value, a, t);
      }
    }
  }

  /**
   Calls end: from every reachable state, whatever calls overlap, a finite run of internal steps,
   no longer than the work left, returns every pending call.
   */
  lemma CallsEnd(n: nat, trace: seq<Action>) returns (more: seq<Action>)
    requires Exec(n, trace).Some?
    ensures Exec(n, trace + more).Some? && InternalFrom(n, trace + more, |trace|)
    ensures |more| <= Work(Exec(n, trace).value)
    ensures AllIdle(Exec(n, trace + more).value)
    ensures forall t :: 0 <= t < |Exec(n, trace).value.callers| && !Exec(n, trace).value.callers[t].Idle? ==>
              Returns(trace + more, |trace|, |trace + more|, t)
  {
    more := ComesToRest(n, trace);
    var whole := trace + more;
    assert whole[..|trace|] == trace;
    RestMeansIdle(n, whole);
    InternalRunsEnd(n, whole, |trace|);
    forall t | 0 <= t < |Exec(n, trace).value.callers| && !Exec(n, trace).value.callers[t].Idle?
      ensures Returns(whole, |trace|, |whole|, t)
    {
      PendingReturns(n, whole, |trace|, t);
    }
  }
}
