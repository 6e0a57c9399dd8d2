/**
 What an exit report says about the child, over every run: the code it exited with, or that a
 kill ended it, depending on which call published first; and that Running was polled.
 */
module BackgroundExits {
  import opened Basics
  import opened BackgroundProcesses
  import opened BackgroundInvariant
  import opened BackgroundTheorems
  import opened BackgroundReports

  // ----- The child's own exit -----

  ghost predicate GoneAt(n: nat, trace: seq<Action>, id: Id, code: Option<int>) {
    && Exec(n, trace).Some? && id in Exec(n, trace).value.entries
    && Exec(n, trace).value.entries[id].child == Gone(code)
  }

  lemma ChildStep(s: State, a: Action, id: Id, code: Option<int>)
    requires Fresh(s) && CallersOk(s) && Enabled(s, a)
    requires id in Apply(s, a).entries && Apply(s, a).entries[id].child == Gone(code)
    ensures a == ChildExits(id, code) || (id in s.entries && s.entries[id].child == Gone(code))
  {
    if a.Acquire? {
    } else if OnEntry(a) {
    } else {
      ChildOfCallerStep(s, s.callers[a.t], a, id);
    }
  }

  lemma ChildOfCallerStep(s: State, pc: Pc, a: Action, id: Id)
    requires Fresh(s) && CallerEnabled(s, pc, a) && id in CallerApply(s, pc, a).entries
    requires CallerApply(s, pc, a).entries[id].child.Gone?
    ensures id in s.entries && CallerApply(s, pc, a).entries[id].child == s.entries[id].child
  {
  }

  /** A child is gone only by an exit step of the run, and with its code. */
  lemma {:induction false} GoneBecause(n: nat, trace: seq<Action>, id: Id, code: Option<int>)
    requires GoneAt(n, trace, id, code)
    ensures ChildExits(id, code) in trace
  {
    assert trace != [];
    var front, a := trace[..|trace| - 1], trace[|trace| - 1];
    RunKeepsInv(n, front);
    ChildStep(Exec(n, front).value, a, id, code);
    if a != ChildExits(id, code) {
      GoneBecause(n, front, id, code);
      assert forall b :: b in front ==> b in trace;
    }
  }

  lemma ExitStepGone(s: State, id: Id, code: Option<int>)
    requires Enabled(s, ChildExits(id, code))
    ensures id in Apply(s, ChildExits(id, code)).entries
    ensures Apply(s, ChildExits(id, code)).entries[id].child == Gone(code)
  {
  }

  /** The exit of a child is final. */
  lemma {:induction false} ExitStays(n: nat, trace: seq<Action>, id: Id, code: Option<int>)
    requires Exec(n, trace).Some? && ChildExits(id, code) in trace
    ensures GoneAt(n, trace, id, code)
  {
    var front, a := trace[..|trace| - 1], trace[|trace| - 1];
    if a == ChildExits(id, code) {
      ExitStepGone(Exec(n, front).value, id, code);
    } else {
      assert ChildExits(id, code) in front;
      ExitStays(n, front, id, code);
      RunKeepsInv(n, front);
      StepForward(Exec(n, front).value, a);
    }
  }

  // ----- Which call publishes -----

  /** The call is a `kill` of this process. */
  predicate Kills(pc: Pc, id: Id) {
    || InKill(pc, id)
    || (pc.Lookup? && pc.id == id && pc.query == Kill)
    || (pc.LookingUp? && pc.id == id && pc.query == Kill)
  }

  lemma KillsStep(s: State, pc: Pc, a: Action, id: Id)
    requires CallerEnabled(s, pc, a) && Kills(PcAfter(s, pc, a), id)
    ensures Kills(pc, id) || (a.CallOn? && a.id == id && a.query == Kill)
  {
  }

  lemma EnteredKills(pc: Pc, id: Id)
    ensures Kills(Entered(pc), id) ==> Kills(pc, id)
  {
  }

  lemma {:induction false} KillsBecause(n: nat, trace: seq<Action>, t: nat, id: Id)
    requires Exec(n, trace).Some? && t < |Exec(n, trace).value.callers|
    requires Kills(Exec(n, trace).value.callers[t], id)
    ensures CallOn(t, id, Kill) in trace
  {
    assert trace != [];
    var front, a := trace[..|trace| - 1], trace[|trace| - 1];
    var s := Exec(n, front).value;
    CallersKept(s, a, t);
    assert forall b :: b in front ==> b in trace;
    if Kills(s.callers[t], id) {
      KillsBecause(n, front, t, id);
    } else if a.Acquire? {
      EnteredKills(s.callers[t], id);
    } else {
      KillsStep(s, s.callers[t], a, id);
    }
  }

  /** The call refreshes the status of this process: an `output` of it, or a `list`. */
  predicate Refreshes(pc: Pc, id: Id) {
    match pc
    case Lookup(i, query) => i == id && query.Output?
    case LookingUp(i, query) => i == id && query.Output?
    case Listing => true
    case InList(_) => true
    case Refresh(i, goal) => goal.ForList? || i == id
    case Checking(i, goal) => goal.ForList? || i == id
    case Polling(i, goal) => goal.ForList? || i == id
    case TryWait(i, goal) => goal.ForList? || i == id
    case Draining(i, drain) => drain.OnRefresh? && (drain.goal.ForList? || i == id)
    case Collecting(i, drain) => drain.OnRefresh? && (drain.goal.ForList? || i == id)
    case Joining(i, drain, _) => drain.OnRefresh? && (drain.goal.ForList? || i == id)
    case _ => false
  }

  predicate AsksFor(a: Action, id: Id) {
    a.CallList? || (a.CallOn? && a.id == id && a.query.Output?)
  }

  lemma RefreshesStep(s: State, pc: Pc, a: Action, id: Id)
    requires CallerEnabled(s, pc, a) && Refreshes(PcAfter(s, pc, a), id)
    ensures Refreshes(pc, id) || AsksFor(a, id)
  {
  }

  lemma EnteredRefreshes(pc: Pc, id: Id)
    ensures Refreshes(Entered(pc), id) ==> Refreshes(pc, id)
  {
  }

  lemma {:induction false} RefreshesBecause(n: nat, trace: seq<Action>, t: nat, id: Id)
    requires Exec(n, trace).Some? && t < |Exec(n, trace).value.callers|
    requires Refreshes(Exec(n, trace).value.callers[t], id)
    ensures exists a :: a in trace && AsksFor(a, id)
  {
    assert trace != [];
    var front, a := trace[..|trace| - 1], trace[|trace| - 1];
    var s := Exec(n, front).value;
    CallersKept(s, a, t);
    assert forall b :: b in front ==> b in trace;
    if Refreshes(s.callers[t], id) {
      RefreshesBecause(n, front, t, id);
    } else if a.Acquire? {
      EnteredRefreshes(s.callers[t], id);
    } else {
      RefreshesStep(s, s.callers[t], a, id);
    }
  }

  /** The caller is about to record a kill of `id`, or the exit it polled. */
  predicate AboutToSeal(pc: Pc, id: Id) {
    pc.Sealing? && pc.id == id
  }

  predicate AboutToPublish(pc: Pc, id: Id) {
    pc.Joining? && pc.id == id && pc.drain.OnRefresh? && pc.pending == {}
  }

  lemma CallerPublishes(s: State, pc: Pc, a: Action, id: Id)
    requires Fresh(s) && CallerOk(s, pc) && CallerEnabled(s, pc, a) && id in s.entries
    requires s.entries[id].finished.None?
    ensures id in CallerApply(s, pc, a).entries
    ensures var finished := CallerApply(s, pc, a).entries[id].finished;
            finished.Some? ==>
              || (a.Seal? && AboutToSeal(pc, id) && finished.value == ExitInfo(None, true))
              || (a.Publish? && AboutToPublish(pc, id) && s.entries[id].child.Gone?
                  && finished.value == ExitInfo(s.entries[id].child.code, false))
  {
  }

  lemma OnlyCallersPublish(s: State, a: Action, id: Id)
    requires Fresh(s) && CallersOk(s) && Enabled(s, a) && id in s.entries && s.entries[id].finished.None?
    ensures id in Apply(s, a).entries
    ensures Apply(s, a).entries[id].finished.Some? ==> !a.Acquire? && !OnEntry(a)
  {
    EntryStepsForward(s, a, id);
    if a.Acquire? {
      AcquireForward(s, a.o, id);
    } else if OnEntry(a) {
      OnEntryForward(s, a, id);
    }
  }

  /**
   Step `m` publishes `info` for `id`: a kill does, with no code, or a refresh, with the code the
   child exited with.
   */
  ghost predicate Publishes(n: nat, trace: seq<Action>, m: nat, id: Id, info: ExitInfo) {
    && m < |trace| && Exec(n, trace[..m]).Some?
    && var s := Exec(n, trace[..m]).value;
       && id in s.entries && s.entries[id].finished.None?
       && ((&& trace[m].Seal? && CallOn(trace[m].t, id, Kill) in trace[..m]
            && info == ExitInfo(None, true)) ||
           (&& trace[m].Publish? && (exists a :: a in trace[..m] && AsksFor(a, id))
            && !info.killed && ChildExits(id, info.code) in trace[..m]))
  }

  lemma PublishesNow(n: nat, front: seq<Action>, a: Action, id: Id, info: ExitInfo)
    requires Exec(n, front + [a]).Some? && Exec(n, front).Some? && id in Exec(n, front).value.entries
    requires Exec(n, front).value.entries[id].finished.None?
    requires id in Exec(n, front + [a]).value.entries
    requires Exec(n, front + [a]).value.entries[id].finished == Some(info)
    ensures Publishes(n, front + [a], |front|, id, info)
  {
    assert (front + [a])[..|front|] == front;
    var s := Exec(n, front).value;
    RunKeepsInv(n, front);
    OnlyCallersPublish(s, a, id);
    var pc := s.callers[a.t];
    assert CallerOk(s, pc);
    CallerPublishes(s, pc, a, id);
    if a.Seal? {
      KillsBecause(n, front, a.t, id);
    } else {
      RefreshesBecause(n, front, a.t, id);
      GoneBecause(n, front, id, info.code);
    }
  }

  lemma PublishesMore(n: nat, front: seq<Action>, a: Action, m: nat, id: Id, info: ExitInfo)
    requires Publishes(n, front, m, id, info)
    ensures Publishes(n, front + [a], m, id, info)
  {
    assert (front + [a])[..m] == front[..m];
  }

  lemma NewEntryUnpublished(s: State, a: Action, id: Id)
    requires Enabled(s, a) && id !in s.entries && id in Apply(s, a).entries
    ensures Apply(s, a).entries[id].finished.None?
  {
  }

  /** Every published exit was published by one step of the run. */
  lemma {:induction false} PublicationOf(n: nat, trace: seq<Action>, id: Id, info: ExitInfo) returns (m: nat)
    requires Exec(n, trace).Some? && Published(Exec(n, trace).value, id, info)
    ensures Publishes(n, trace, m, id, info)
  {
    assert trace != [];
    var front, a := trace[..|trace| - 1], trace[|trace| - 1];
    assert trace == front + [a];
    var s := Exec(n, front).value;
    if id !in s.entries {
      NewEntryUnpublished(s, a, id);
    }
    if s.entries[id].finished.None? {
      PublishesNow(n, front, a, id, info);
      m := |front|;
    } else {
      RunKeepsInv(n, front);
      StepForward(s, a);
      m := PublicationOf(n, front, id, info);
      PublishesMore(n, front, a, m, id, info);
    }
  }

  /** The first publication, an earlier step of the run than the report. */
  lemma ReportedExitPublication(n: nat, trace: seq<Action>, i: nat, id: Id, info: ExitInfo) returns (m: nat)
    requires Reports(n, trace, i, id, Exited(info))
    ensures m < i && Publishes(n, trace[..i], m, id, info)
  {
    ReportIsPublished(n, trace, i, id, info);
    m := PublicationOf(n, trace[..i], id, info);
  }

  /**
   What an exit report says, on the actions of the run alone: the child has exited, and the report
   is its code, after some `output` or `list` asked, or that it was killed, after some `kill`; and
   if the child exits in the run with code `c`, then `c` is that code.
   */
  lemma ReportedExitIs(n: nat, trace: seq<Action>, i: nat, id: Id, info: ExitInfo, c: Option<int>)
    requires Exec(n, trace).Some? && Reports(n, trace, i, id, Exited(info)) && ChildExits(id, c) in trace
    ensures ChildExits(id, c) in trace[..i]
    ensures info == ExitInfo(c, false) || info == ExitInfo(None, true)
    ensures info.killed ==> exists t :: CallOn(t, id, Kill) in trace[..i]
    ensures !info.killed ==> exists a :: a in trace[..i] && AsksFor(a, id)
  {
    var m := ReportedExitPublication(n, trace, i, id, info);
    var before := trace[..i];
    assert forall a :: a in before[..m] ==> a in before;
    ReportIsPublished(n, trace, i, id, info);
    RunKeepsInv(n, before);
    assert EntryOk(Exec(n, before).value.entries[id]);
    var code := Exec(n, before).value.entries[id].child.code;
    GoneBecause(n, before, id, code);
    assert forall a :: a in before ==> a in trace;
    ExitStays(n, trace, id, c);
    ExitStays(n, trace, id, code);
  }

  /** A run that reports an exit contains the child's exit. */
  lemma ReportedExitHappened(n: nat, trace: seq<Action>, i: nat, id: Id, info: ExitInfo) returns (c: Option<int>)
    requires Reports(n, trace, i, id, Exited(info))
    ensures ChildExits(id, c) in trace[..i]
  {
    ReportIsPublished(n, trace, i, id, info);
    RunKeepsInv(n, trace[..i]);
    assert EntryOk(Exec(n, trace[..i]).value.entries[id]);
    c := Exec(n, trace[..i]).value.entries[id].child.code;
    GoneBecause(n, trace[..i], id, c);
  }

  // ----- Running was polled -----

  /** Step `m` is a poll of `id` by caller `t` that found no exit, in the call still under way. */
  ghost predicate PolledAt(n: nat, trace: seq<Action>, m: nat, t: nat, id: Id) {
    && m < |trace| && trace[m] == PollMiss(t) && Exec(n, trace[..m]).Some?
    && t < |Exec(n, trace[..m]).value.callers|
    && Exec(n, trace[..m]).value.callers[t].TryWait? && Exec(n, trace[..m]).value.callers[t].id == id
    && !Returns(trace, m, |trace|, t)
  }

  lemma SettlesRunning(s: State, pc: Pc, a: Action, id: Id)
    requires CallerOk(s, pc) && CallerEnabled(s, pc, a) && Settled(PcAfter(s, pc, a), id) == Some(Running)
    ensures !a.Return?
    ensures Settled(pc, id) == Some(Running) || (a.PollMiss? && pc.TryWait? && pc.id == id)
  {
  }

  lemma PolledMore(n: nat, front: seq<Action>, a: Action, m: nat, t: nat, id: Id)
    requires PolledAt(n, front, m, t, id) && a != Return(t)
    ensures PolledAt(n, front + [a], m, t, id)
  {
    var trace := front + [a];
    assert trace[..m] == front[..m];
    assert forall j :: m <= j < |front| ==> trace[j] == front[j];
  }

  /** A step after which a caller has settled on Running: it had before, or it polls now. */
  lemma RunningStep(s: State, a: Action, t: nat, id: Id)
    requires CallersOk(s) && Enabled(s, a) && t < |Apply(s, a).callers|
    requires Settled(Apply(s, a).callers[t], id) == Some(Running)
    ensures t < |s.callers| && a != Return(t)
    ensures Settled(s.callers[t], id) == Some(Running) ||
            (a == PollMiss(t) && s.callers[t].TryWait? && s.callers[t].id == id)
  {
    CallersKept(s, a, t);
    assert CallerOk(s, s.callers[t]);
    if Actor(a) == Caller(t) {
      if a.Acquire? {
        SettledEntered(s.callers[t], id);
      } else {
        SettlesRunning(s, s.callers[t], a, id);
      }
    }
  }

  lemma PolledNow(n: nat, front: seq<Action>, t: nat, id: Id)
    requires Exec(n, front).Some? && t < |Exec(n, front).value.callers|
    requires Exec(n, front).value.callers[t].TryWait? && Exec(n, front).value.callers[t].id == id
    ensures PolledAt(n, front + [PollMiss(t)], |front|, t, id)
  {
    assert (front + [PollMiss(t)])[..|front|] == front;
  }

  lemma {:induction false} RunningBecause(n: nat, trace: seq<Action>, t: nat, id: Id) returns (m: nat)
    requires Exec(n, trace).Some? && t < |Exec(n, trace).value.callers|
    requires Settled(Exec(n, trace).value.callers[t], id) == Some(Running)
    ensures PolledAt(n, trace, m, t, id)
  {
    assert trace != [];
    var front, a := trace[..|trace| - 1], trace[|trace| - 1];
    assert trace == front + [a];
    RunKeepsInv(n, front);
    RunningStep(Exec(n, front).value, a, t, id);
    if Settled(Exec(n, front).value.callers[t], id) == Some(Running) {
      m := RunningBecause(n, front, t, id);
      PolledMore(n, front, a, m, t, id);
    } else {
      PolledNow(n, front, t, id);
      m := |front|;
    }
  }

  /** A call reports Running only when it polled the child itself and the poll found no exit. */
  lemma RunningWasPolled(n: nat, trace: seq<Action>, j: nat, id: Id) returns (m: nat)
    requires Reports(n, trace, j, id, Running)
    ensures m < j && PolledAt(n, trace[..j], m, trace[j].t, id)
  {
    m := RunningBecause(n, trace[..j], trace[j].t, id);
  }
}
