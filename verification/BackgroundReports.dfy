/**
 What calls report about a process, over every run: exits never change and never disagree, and
 exactly when a call can still report that a process runs after another reported its exit.
 */
module BackgroundReports {
  import opened Basics
  import opened BackgroundProcesses
  import opened BackgroundInvariant

  function Reported(r: Result, id: Id): Option<Status> {
    match r
    case OutputWas(i, status, _, _) => if i == id then Some(status) else None
    case KillWas(i, status) => if i == id then Some(status) else None
    case Listed(seen) => if id in seen then Some(seen[id]) else None
    case _ => None
  }

  /** Step `i` of the run returns a result that reports `status` for `id`. */
  ghost predicate Reports(n: nat, trace: seq<Action>, i: nat, id: Id, status: Status) {
    && i < |trace| && trace[i].Return?
    && Exec(n, trace[..i]).Some?
    && var s := Exec(n, trace[..i]).value;
       trace[i].t < |s.callers| && s.callers[trace[i].t].Returning? &&
       Reported(s.callers[trace[i].t].result, id) == Some(status)
  }

  lemma {:induction false} PrefixRuns(n: nat, trace: seq<Action>, i: nat)
    requires Exec(n, trace).Some? && i <= |trace|
    ensures Exec(n, trace[..i]).Some?
  {
    if i < |trace| {
      var front := trace[..|trace| - 1];
      PrefixRuns(n, front, i);
      assert front[..i] == trace[..i];
    } else {
      assert trace[..i] == trace;
    }
  }

  /** Once published, a status stays as it is for the rest of the run. */
  lemma {:induction false} FinishedIsFinal(n: nat, trace: seq<Action>, i: nat, id: Id)
    requires Exec(n, trace).Some? && i <= |trace| && Exec(n, trace[..i]).Some?
    requires id in Exec(n, trace[..i]).value.entries && Exec(n, trace[..i]).value.entries[id].finished.Some?
    ensures id in Exec(n, trace).value.entries
    ensures Exec(n, trace).value.entries[id].finished == Exec(n, trace[..i]).value.entries[id].finished
  {
    if i == |trace| {
      assert trace[..i] == trace;
    } else {
      var front := trace[..|trace| - 1];
      assert front[..i] == trace[..i];
      FinishedIsFinal(n, front, i, id);
      RunKeepsInv(n, front);
      StepForward(Exec(n, front).value, trace[|trace| - 1]);
    }
  }

  lemma ReportIsPublished(n: nat, trace: seq<Action>, i: nat, id: Id, info: ExitInfo)
    requires Reports(n, trace, i, id, Exited(info))
    ensures id in Exec(n, trace[..i]).value.entries
    ensures Exec(n, trace[..i]).value.entries[id].finished == Some(info)
  {
    RunKeepsInv(n, trace[..i]);
    var s := Exec(n, trace[..i]).value;
    assert CallerOk(s, s.callers[trace[i].t]);
  }

  /** Any two exit reports for one process agree, in every run, overlapping kills included. */
  lemma ExitReportsAgree(n: nat, trace: seq<Action>, i: nat, j: nat, id: Id, x: ExitInfo, y: ExitInfo)
    requires Exec(n, trace).Some?
    requires Reports(n, trace, i, id, Exited(x)) && Reports(n, trace, j, id, Exited(y))
    ensures x == y
  {
    PrefixRuns(n, trace, i);
    PrefixRuns(n, trace, j);
    ReportIsPublished(n, trace, i, id, x);
    ReportIsPublished(n, trace, j, id, y);
    FinishedIsFinal(n, trace, i, id);
    FinishedIsFinal(n, trace, j, id);
  }

  // ----- Reports after an exit -----

  function SeenStatus(seen: map<Id, Status>, id: Id): Option<Status> {
    if id in seen then Some(seen[id]) else None
  }

  /** What a refresh of `i` already knows about `id`; its own status is still to come. */
  function GoalStatus(i: Id, goal: Goal, id: Id): Option<Status> {
    if i != id && goal.ForList? then SeenStatus(goal.seen, id) else None
  }

  function DrainStatus(i: Id, drain: Drain, id: Id): Option<Status> {
    if drain.OnRefresh? then GoalStatus(i, drain.goal, id) else None
  }

  /** The status of `id` that the call has already settled on, if any. */
  function Settled(pc: Pc, id: Id): Option<Status> {
    match pc
    case InList(seen) => SeenStatus(seen, id)
    case Refresh(i, goal) => GoalStatus(i, goal, id)
    case Checking(i, goal) => GoalStatus(i, goal, id)
    case Polling(i, goal) => GoalStatus(i, goal, id)
    case TryWait(i, goal) => GoalStatus(i, goal, id)
    case Draining(i, drain) => DrainStatus(i, drain, id)
    case Collecting(i, drain) => DrainStatus(i, drain, id)
    case Joining(i, drain, _) => DrainStatus(i, drain, id)
    case TakeOut(i, _, status) => if i == id then Some(status) else None
    case TakingOut(i, _, status) => if i == id then Some(status) else None
    case TakeErr(i, _, status, _) => if i == id then Some(status) else None
    case TakingErr(i, _, status, _) => if i == id then Some(status) else None
    case Returning(r) => Reported(r, id)
    case _ => None
  }

  predicate Published(s: State, id: Id, info: ExitInfo) {
    id in s.entries && s.entries[id].finished == Some(info)
  }

  /** A settled status stays until the call returns. */
  lemma SettledKept(s: State, pc: Pc, a: Action, id: Id)
    requires CallerEnabled(s, pc, a) && Settled(pc, id).Some? && !a.Return?
    ensures Settled(PcAfter(s, pc, a), id) == Settled(pc, id)
  {
  }

  /** No call settles on Running after the exit. */
  lemma NotSettledRunning(s: State, pc: Pc, a: Action, id: Id, info: ExitInfo)
    requires CallerOk(s, pc) && CallerEnabled(s, pc, a) && Published(s, id, info)
    requires Settled(pc, id) != Some(Running)
    ensures Settled(PcAfter(s, pc, a), id) != Some(Running)
  {
  }

  lemma SettledEntered(pc: Pc, id: Id)
    ensures Settled(Entered(pc), id) == Settled(pc, id)
  {
  }

  lemma StepSettled(s: State, a: Action, t: nat, id: Id, info: ExitInfo)
    requires CallersOk(s) && Enabled(s, a) && Published(s, id, info) && t < |s.callers|
    ensures |Apply(s, a).callers| == |s.callers|
    ensures Settled(s.callers[t], id).Some? && a != Return(t) ==>
              Settled(Apply(s, a).callers[t], id) == Settled(s.callers[t], id)
    ensures Settled(s.callers[t], id) != Some(Running) ==> Settled(Apply(s, a).callers[t], id) != Some(Running)
  {
    CallersKept(s, a, t);
    if Actor(a) == Caller(t) {
      assert CallerOk(s, s.callers[t]);
      if a.Acquire? {
        SettledEntered(s.callers[t], id);
      } else {
        if Settled(s.callers[t], id).Some? && a != Return(t) {
          SettledKept(s, s.callers[t], a, id);
        }
        if Settled(s.callers[t], id) != Some(Running) {
          NotSettledRunning(s, s.callers[t], a, id, info);
        }
      }
    }
  }

  ghost predicate PublishedAt(n: nat, trace: seq<Action>, k: nat, id: Id, info: ExitInfo) {
    k <= |trace| && Exec(n, trace[..k]).Some? && Published(Exec(n, trace[..k]).value, id, info)
  }

  predicate Returns(trace: seq<Action>, k: nat, j: nat, t: nat)
    requires j <= |trace|
  {
    exists m :: k <= m < j && trace[m] == Return(t)
  }

  /** From a published exit on, over the rest of the run. */
  lemma {:induction false} SettledStays(n: nat, trace: seq<Action>, k: nat, t: nat, id: Id, info: ExitInfo)
    requires Exec(n, trace).Some? && t < n && PublishedAt(n, trace, k, id, info)
    ensures |Exec(n, trace[..k]).value.callers| == |Exec(n, trace).value.callers| == n
    ensures var before, after := Exec(n, trace[..k]).value.callers[t], Exec(n, trace).value.callers[t];
            && (Settled(before, id).Some? && !Returns(trace, k, |trace|, t) ==>
                  Settled(after, id) == Settled(before, id))
            && (Settled(before, id) != Some(Running) ==> Settled(after, id) != Some(Running))
  {
    RunKeepsInv(n, trace[..k]);
    if k == |trace| {
      assert trace[..k] == trace;
    } else {
      var front, a := trace[..|trace| - 1], trace[|trace| - 1];
      assert front[..k] == trace[..k];
      SettledStays(n, front, k, t, id, info);
      FinishedIsFinal(n, front, k, id);
      RunKeepsInv(n, front);
      StepSettled(Exec(n, front).value, a, t, id, info);
      if Returns(front, k, |front|, t) {
        var m :| k <= m < |front| && front[m] == Return(t);
        assert trace[m] == Return(t);
      }
    }
  }

  lemma ReturnIdles(s: State, t: nat)
    requires Enabled(s, Return(t))
    ensures t < |Apply(s, Return(t)).callers| && Apply(s, Return(t)).callers[t].Idle?
  {
  }

  lemma IdleAfterReturn(n: nat, trace: seq<Action>, m: nat, t: nat)
    requires Exec(n, trace).Some? && m < |trace| && trace[m] == Return(t)
    ensures Exec(n, trace[..m + 1]).Some? && t < |Exec(n, trace[..m + 1]).value.callers|
    ensures Exec(n, trace[..m + 1]).value.callers[t].Idle?
  {
    PrefixRuns(n, trace, m + 1);
    assert trace[..m + 1][..m] == trace[..m];
    ReturnIdles(Exec(n, trace[..m]).value, t);
  }

  /** Once published, published at every later point of the run. */
  lemma PublishedLater(n: nat, trace: seq<Action>, k: nat, m: nat, id: Id, info: ExitInfo)
    requires Exec(n, trace).Some? && k <= m <= |trace| && PublishedAt(n, trace, k, id, info)
    ensures PublishedAt(n, trace, m, id, info)
  {
    PrefixRuns(n, trace, m);
    assert trace[..m][..k] == trace[..k];
    FinishedIsFinal(n, trace[..m], k, id);
  }

  /** What a caller has settled on for `id` after `k` steps. */
  ghost function SettledAt(n: nat, trace: seq<Action>, k: nat, t: nat, id: Id): Option<Status> {
    if k <= |trace| && Exec(n, trace[..k]).Some? && t < |Exec(n, trace[..k]).value.callers| then
      Settled(Exec(n, trace[..k]).value.callers[t], id)
    else None
  }

  lemma ReportIsSettled(n: nat, trace: seq<Action>, j: nat, id: Id, status: Status)
    requires Reports(n, trace, j, id, status)
    ensures trace[j].t < n && SettledAt(n, trace, j, trace[j].t, id) == Some(status)
  {
    RunKeepsInv(n, trace[..j]);
  }

  lemma ExitIsTheExit(n: nat, trace: seq<Action>, j: nat, id: Id, info: ExitInfo, status: Status)
    requires PublishedAt(n, trace, j, id, info) && Reports(n, trace, j, id, status)
    ensures status == Running || status == Exited(info)
  {
    if status.Exited? {
      ReportIsPublished(n, trace, j, id, status.info);
    }
  }

  lemma SettledBetween(n: nat, trace: seq<Action>, k: nat, j: nat, t: nat, id: Id, info: ExitInfo)
    requires Exec(n, trace).Some? && PublishedAt(n, trace, k, id, info) && k <= j <= |trace| && t < n
    ensures SettledAt(n, trace, k, t, id).Some? && !Returns(trace, k, j, t) ==>
              SettledAt(n, trace, j, t, id) == SettledAt(n, trace, k, t, id)
    ensures SettledAt(n, trace, k, t, id) != Some(Running) ==> SettledAt(n, trace, j, t, id) != Some(Running)
  {
    PrefixRuns(n, trace, j);
    var run := trace[..j];
    assert run[..k] == trace[..k];
    SettledStays(n, run, k, t, id, info);
    if Returns(run, k, |run|, t) {
      var m :| k <= m < |run| && run[m] == Return(t);
      assert trace[m] == Return(t);
    }
  }

  lemma ReturnUnsettles(n: nat, trace: seq<Action>, m: nat, t: nat, id: Id)
    requires Exec(n, trace).Some? && m < |trace| && trace[m] == Return(t)
    ensures SettledAt(n, trace, m + 1, t, id) == None
  {
    IdleAfterReturn(n, trace, m, t);
  }

  /**
   The exact condition: after an exit is published, at step `k`, a report of that process is
   that exit if and only if its call had not settled on Running by then (a call that begins
   later has settled on nothing).
   */
  lemma ReportIff(n: nat, trace: seq<Action>, k: nat, j: nat, id: Id, info: ExitInfo, status: Status)
    requires Exec(n, trace).Some? && PublishedAt(n, trace, k, id, info)
    requires k <= j && Reports(n, trace, j, id, status)
    ensures status == Exited(info) <==>
            Returns(trace, k, j, trace[j].t) || SettledAt(n, trace, k, trace[j].t, id) != Some(Running)
  {
    var t := trace[j].t;
    ReportIsSettled(n, trace, j, id, status);
    PublishedLater(n, trace, k, j, id, info);
    ExitIsTheExit(n, trace, j, id, info, status);
    SettledBetween(n, trace, k, j, t, id, info);
    if m :| k <= m < j && trace[m] == Return(t) {
      ReturnUnsettles(n, trace, m, t, id);
      PublishedLater(n, trace, k, m + 1, id, info);
      SettledBetween(n, trace, m + 1, j, t, id, info);
    }
  }

  /** In particular, for any two reports of a process of which the earlier one is an exit. */
  lemma LaterReportIff(n: nat, trace: seq<Action>, i: nat, j: nat, id: Id, info: ExitInfo, status: Status)
    requires Exec(n, trace).Some? && i < j
    requires Reports(n, trace, i, id, Exited(info)) && Reports(n, trace, j, id, status)
    ensures status == Exited(info) <==>
            Returns(trace, i, j, trace[j].t) || SettledAt(n, trace, i, trace[j].t, id) != Some(Running)
  {
    ReportIsPublished(n, trace, i, id, info);
    ReportIff(n, trace, i, j, id, info, status);
  }

  // ----- Later calls do report the process -----

  predicate GoalFound(i: Id, goal: Goal, id: Id) {
    i == id || (goal.ForList? && id in goal.seen)
  }

  predicate DrainFound(i: Id, drain: Drain, id: Id) {
    i == id || (drain.OnRefresh? && GoalFound(i, drain.goal, id))
  }

  /** The call has found `id` in the process map. */
  predicate Found(pc: Pc, id: Id) {
    match pc
    case InList(seen) => id in seen
    case Refresh(i, goal) => GoalFound(i, goal, id)
    case Checking(i, goal) => GoalFound(i, goal, id)
    case Polling(i, goal) => GoalFound(i, goal, id)
    case TryWait(i, goal) => GoalFound(i, goal, id)
    case Draining(i, drain) => DrainFound(i, drain, id)
    case Collecting(i, drain) => DrainFound(i, drain, id)
    case Joining(i, drain, _) => DrainFound(i, drain, id)
    case KillStart(i) => i == id
    case Killing(i) => i == id
    case Waiting(i) => i == id
    case Settling(i) => i == id
    case Sealing(i) => i == id
    case TakeOut(i, _, _) => i == id
    case TakingOut(i, _, _) => i == id
    case TakeErr(i, _, _, _) => i == id
    case TakingErr(i, _, _, _) => i == id
    case Returning(r) => Reported(r, id).Some?
    case _ => false
  }

  lemma FoundStep(s: State, pc: Pc, a: Action, id: Id)
    requires CallerEnabled(s, pc, a)
    ensures Found(PcAfter(s, pc, a), id) ==> Found(pc, id) || id in s.registered
  {
  }

  lemma RegistryGrows(s: State, a: Action)
    requires Enabled(s, a)
    ensures s.registered <= Apply(s, a).registered
  {
  }

  lemma EnteredFound(pc: Pc, id: Id)
    ensures Found(Entered(pc), id) ==> Found(pc, id)
  {
  }

  lemma {:induction false} FoundIsRegistered(n: nat, trace: seq<Action>, t: nat, id: Id)
    requires Exec(n, trace).Some? && t < |Exec(n, trace).value.callers|
    requires Found(Exec(n, trace).value.callers[t], id)
    ensures id in Exec(n, trace).value.registered
  {
    if trace != [] {
      var front, a := trace[..|trace| - 1], trace[|trace| - 1];
      var s := Exec(n, front).value;
      CallersKept(s, a, t);
      RegistryGrows(s, a);
      if Found(s.callers[t], id) {
        FoundIsRegistered(n, front, t, id);
      } else if a.Acquire? {
        EnteredFound(s.callers[t], id);
      } else {
        FoundStep(s, s.callers[t], a, id);
      }
    }
  }

  predicate GoalAims(i: Id, goal: Goal, id: Id) {
    goal.ForList? || i == id
  }

  predicate DrainAims(i: Id, drain: Drain, id: Id) {
    if drain.OnRefresh? then GoalAims(i, drain.goal, id) else i == id
  }

  /** The call is an `output` or `kill` of `id`, or a `list`, or has just reported `id`. */
  predicate Aims(pc: Pc, id: Id) {
    match pc
    case Lookup(i, _) => i == id
    case LookingUp(i, _) => i == id
    case Listing => true
    case InList(_) => true
    case Refresh(i, goal) => GoalAims(i, goal, id)
    case Checking(i, goal) => GoalAims(i, goal, id)
    case Polling(i, goal) => GoalAims(i, goal, id)
    case TryWait(i, goal) => GoalAims(i, goal, id)
    case Draining(i, drain) => DrainAims(i, drain, id)
    case Collecting(i, drain) => DrainAims(i, drain, id)
    case Joining(i, drain, _) => DrainAims(i, drain, id)
    case Returning(r) => Reported(r, id).Some?
    case _ => Found(pc, id)
  }

  lemma AimsStep(s: State, pc: Pc, a: Action, id: Id)
    requires CallerEnabled(s, pc, a) && !a.Return? && Aims(pc, id) && id in s.registered
    ensures Aims(PcAfter(s, pc, a), id)
  {
  }

  lemma EnteredAims(pc: Pc, id: Id)
    requires Aims(pc, id)
    ensures Aims(Entered(pc), id)
  {
  }

  lemma {:induction false} AimStays(n: nat, trace: seq<Action>, k: nat, t: nat, id: Id)
    requires Exec(n, trace).Some? && k <= |trace| && Exec(n, trace[..k]).Some?
    requires t < |Exec(n, trace[..k]).value.callers| && Aims(Exec(n, trace[..k]).value.callers[t], id)
    requires id in Exec(n, trace[..k]).value.registered && !Returns(trace, k, |trace|, t)
    ensures t < |Exec(n, trace).value.callers| && Aims(Exec(n, trace).value.callers[t], id)
    ensures id in Exec(n, trace).value.registered
  {
    if k == |trace| {
      assert trace[..k] == trace;
    } else {
      var front, a := trace[..|trace| - 1], trace[|trace| - 1];
      assert front[..k] == trace[..k];
      assert forall m :: k <= m < |front| ==> front[m] == trace[m];
      AimStays(n, front, k, t, id);
      var s := Exec(n, front).value;
      CallersKept(s, a, t);
      RegistryGrows(s, a);
      if Actor(a) == Caller(t) {
        if a.Acquire? {
          EnteredAims(s.callers[t], id);
        } else {
          AimsStep(s, s.callers[t], a, id);
        }
      }
    }
  }

  predicate CallsFor(a: Action, id: Id) {
    (a.CallOn? && a.id == id) || a.CallList?
  }

  ghost predicate AimsAt(n: nat, trace: seq<Action>, k: nat, t: nat, id: Id) {
    && k <= |trace| && Exec(n, trace[..k]).Some? && t < |Exec(n, trace[..k]).value.callers|
    && Aims(Exec(n, trace[..k]).value.callers[t], id)
    && id in Exec(n, trace[..k]).value.registered
  }

  /** The beginning of a call for a registered process. */
  lemma CallAims(n: nat, trace: seq<Action>, k: nat, id: Id)
    requires Exec(n, trace).Some? && k < |trace| && CallsFor(trace[k], id) && Exec(n, trace[..k]).Some?
    requires id in Exec(n, trace[..k]).value.registered
    ensures AimsAt(n, trace, k + 1, trace[k].t, id)
    ensures SettledAt(n, trace, k + 1, trace[k].t, id) == None
  {
    PrefixRuns(n, trace, k + 1);
    assert trace[..k + 1][..k] == trace[..k];
    RegistryGrows(Exec(n, trace[..k]).value, trace[k]);
  }

  lemma AimBetween(n: nat, trace: seq<Action>, k: nat, j: nat, t: nat, id: Id)
    requires Exec(n, trace).Some? && k <= j <= |trace| && AimsAt(n, trace, k, t, id) && !Returns(trace, k, j, t)
    ensures AimsAt(n, trace, j, t, id)
  {
    PrefixRuns(n, trace, j);
    var run := trace[..j];
    assert run[..k] == trace[..k];
    assert forall m :: k <= m < j ==> run[m] == trace[m];
    AimStays(n, run, k, t, id);
  }

  lemma AimedReturnReports(n: nat, trace: seq<Action>, j: nat, t: nat, id: Id) returns (status: Status)
    requires Exec(n, trace).Some? && j < |trace| && trace[j] == Return(t) && AimsAt(n, trace, j, t, id)
    ensures Reports(n, trace, j, id, status)
  {
    PrefixRuns(n, trace, j + 1);
    assert trace[..j + 1][..j] == trace[..j];
    status := Reported(Exec(n, trace[..j]).value.callers[t].result, id).value;
  }

  /** A reported process stays registered. */
  lemma ReportedIsRegistered(n: nat, trace: seq<Action>, i: nat, k: nat, id: Id, status: Status)
    requires Exec(n, trace).Some? && i <= k <= |trace| && Reports(n, trace, i, id, status)
    ensures Exec(n, trace[..k]).Some? && id in Exec(n, trace[..k]).value.registered
  {
    FoundIsRegistered(n, trace[..i], trace[i].t, id);
    PrefixRuns(n, trace, k);
    assert trace[..k][..i] == trace[..i];
    RegisteredStays(n, trace[..k], i, id);
  }

  lemma {:induction false} RegisteredStays(n: nat, trace: seq<Action>, i: nat, id: Id)
    requires Exec(n, trace).Some? && i <= |trace| && Exec(n, trace[..i]).Some?
    requires id in Exec(n, trace[..i]).value.registered
    ensures id in Exec(n, trace).value.registered
  {
    if i == |trace| {
      assert trace[..i] == trace;
    } else {
      var front := trace[..|trace| - 1];
      assert front[..i] == trace[..i];
      RegisteredStays(n, front, i, id);
      RegistryGrows(Exec(n, front).value, trace[|trace| - 1]);
    }
  }

  /** A call for a registered process reports it, having settled on nothing when it began. */
  lemma CallReports(n: nat, trace: seq<Action>, k: nat, j: nat, id: Id) returns (status: Status)
    requires Exec(n, trace).Some? && k < j < |trace| && CallsFor(trace[k], id) && Exec(n, trace[..k]).Some?
    requires id in Exec(n, trace[..k]).value.registered
    requires trace[j] == Return(trace[k].t) && !Returns(trace, k + 1, j, trace[k].t)
    ensures Reports(n, trace, j, id, status)
    ensures SettledAt(n, trace, k + 1, trace[k].t, id) == None
  {
    CallAims(n, trace, k, id);
    AimBetween(n, trace, k + 1, j, trace[k].t, id);
    status := AimedReturnReports(n, trace, j, trace[k].t, id);
  }

  /** A call that begins after the exit of a registered process was published reports that exit. */
  lemma CallReportsExit(n: nat, trace: seq<Action>, k: nat, j: nat, id: Id, info: ExitInfo)
    requires Exec(n, trace).Some? && k < j < |trace| && CallsFor(trace[k], id) && PublishedAt(n, trace, k, id, info)
    requires id in Exec(n, trace[..k]).value.registered
    requires trace[j] == Return(trace[k].t) && !Returns(trace, k + 1, j, trace[k].t)
    ensures Reports(n, trace, j, id, Exited(info))
  {
    var status := CallReports(n, trace, k, j, id);
    PublishedLater(n, trace, k, k + 1, id, info);
    ReportIff(n, trace, k + 1, j, id, info, status);
  }

  /**
   After some call reported an exit, every `output` or `kill` of that process and every `list`
   that begins later does report the process, with that same exit.
   */
  lemma LaterCallsAgree(n: nat, trace: seq<Action>, i: nat, k: nat, j: nat, id: Id, info: ExitInfo)
    requires Exec(n, trace).Some? && Reports(n, trace, i, id, Exited(info))
    requires i < k < j < |trace| && CallsFor(trace[k], id)
    requires trace[j] == Return(trace[k].t) && !Returns(trace, k + 1, j, trace[k].t)
    ensures Reports(n, trace, j, id, Exited(info))
  {
    ReportedIsRegistered(n, trace, i, k, id, Exited(info));
    ReportIsPublished(n, trace, i, id, info);
    PublishedLater(n, trace, i, k, id, info);
    CallReportsExit(n, trace, k, j, id, info);
  }
}
