/**
 Cron jobs, the job store and the daemon: due detection, the tick that marks every due job
 before running it, and whole runs of ticks interleaved with edits to the store. A job's
 execution is an opaque step that leaves the store alone.
 */
module CronDaemon {
  import opened Basics
  import opened Text
  import opened Decimal
  import opened CronSchedule

  datatype Job = Job(id: string, schedule: string, prompt: string, enabled: bool, lastRun: Option<nat>)

  datatype Result<+T> = Ok(value: T) | Fail(error: Error)

  datatype Error = InvalidSchedule | EmptyPrompt | InvalidId | UnknownJob

  type Jobs = map<string, Job>

  /** `now + interval`, saturating at the largest `u64`. */
  function NextAfter(secs: nat, now: nat): nat {
    if now + secs > U64_MAX then U64_MAX else now + secs
  }

  predicate IsDue(job: Job, now: nat) {
    && job.enabled
    && ParseSchedule(job.schedule).Parsed?
    && (job.lastRun.None? || NextAfter(ParseSchedule(job.schedule).secs, job.lastRun.value) <= now)
  }

  /** When a job is due: enabled, with an accepted schedule, and never run or run an interval ago. */
  lemma DueIff(job: Job, now: nat)
    ensures IsDue(job, now) <==>
            && job.enabled && ParseSchedule(job.schedule).Parsed?
            && (job.lastRun.None? || Min(job.lastRun.value + ParseSchedule(job.schedule).secs, U64_MAX) <= now)
  {
  }

  predicate ValidId(id: string) {
    id != "" && forall i :: 0 <= i < |id| ==> IsAlpha(id[i]) || IsDigit(id[i]) || id[i] == '-' || id[i] == '_'
  }

  /** Updates reach a job only through `get`, which refuses malformed ids. */
  predicate Stored(jobs: Jobs, id: string) {
    ValidId(id) && id in jobs
  }

  function Marked(jobs: Jobs, id: string, now: nat): Jobs {
    if Stored(jobs, id) then jobs[id := jobs[id].(lastRun := Some(now))] else jobs
  }

  function Enabled(jobs: Jobs, id: string, on: bool): Jobs {
    if Stored(jobs, id) then jobs[id := jobs[id].(enabled := on)] else jobs
  }

  function MarkAll(jobs: Jobs, ids: seq<string>, now: nat): Jobs {
    if ids == [] then jobs else Marked(MarkAll(jobs, ids[..|ids| - 1], now), ids[|ids| - 1], now)
  }

  lemma MarkAllMore(jobs: Jobs, ids: seq<string>, id: string, now: nat)
    ensures MarkAll(jobs, ids + [id], now) == Marked(MarkAll(jobs, ids, now), id, now)
  {
    assert (ids + [id])[..|ids|] == ids;
  }

  predicate Distinct(ids: seq<string>) {
    forall i, j :: 0 <= i < j < |ids| ==> ids[i] != ids[j]
  }

  /**
   `ids` lists, each once, exactly the jobs that are enabled, have an accepted schedule, and have
   never run or last ran an interval ago, counting at most to the largest `u64`.
   */
  ghost predicate ListsDue(jobs: Jobs, ids: seq<string>, now: nat) {
    && Distinct(ids)
    && forall id :: id in ids <==>
         && id in jobs && jobs[id].enabled && ParseSchedule(jobs[id].schedule).Parsed?
         && (jobs[id].lastRun.None? ||
             Min(jobs[id].lastRun.value + ParseSchedule(jobs[id].schedule).secs, U64_MAX) <= now)
  }

  ghost predicate Enumerates(all: seq<Job>, jobs: Jobs) {
    && Distinct(Ids(all))
    && (forall job :: job in all <==> job.id in jobs && jobs[job.id] == job)
  }

  function DueJobs(all: seq<Job>, now: nat): seq<Job> {
    if all == [] then []
    else DueJobs(all[..|all| - 1], now) + (if IsDue(all[|all| - 1], now) then [all[|all| - 1]] else [])
  }

  function Ids(all: seq<Job>): seq<string> {
    seq(|all|, i requires 0 <= i < |all| => all[i].id)
  }

  lemma IdsMore(all: seq<Job>, i: nat)
    requires i < |all|
    ensures Ids(all)[..i + 1] == Ids(all)[..i] + [all[i].id]
  {
  }

  lemma DistinctAppend(all: seq<Job>, job: Job)
    requires Distinct(Ids(all)) && forall other :: other in all ==> other.id != job.id
    ensures Distinct(Ids(all + [job]))
  {
    var ids, more := Ids(all), Ids(all + [job]);
    assert forall i :: 0 <= i < |ids| ==> more[i] == ids[i] == all[i].id && all[i] in all;
  }

  lemma {:induction false} DueJobsFilter(all: seq<Job>, now: nat)
    ensures forall job :: job in DueJobs(all, now) <==> job in all && IsDue(job, now)
  {
    if all != [] {
      DueJobsFilter(all[..|all| - 1], now);
    }
  }

  lemma {:induction false} DueJobsDistinct(all: seq<Job>, now: nat)
    requires Distinct(Ids(all))
    ensures Distinct(Ids(DueJobs(all, now)))
  {
    if all != [] {
      var front, last := all[..|all| - 1], all[|all| - 1];
      assert Ids(front) == Ids(all)[..|front|];
      DueJobsDistinct(front, now);
      DueJobsFilter(front, now);
      var due := DueJobs(front, now);
      forall job | job in due ensures job.id != last.id {
        var j :| 0 <= j < |front| && front[j] == job;
        assert Ids(all)[j] == job.id && Ids(all)[|front|] == last.id;
      }
      DistinctAppend(due, last);
      assert due + [] == due;
    }
  }

  lemma DueJobsListed(all: seq<Job>, jobs: Jobs, now: nat)
    requires Enumerates(all, jobs) && forall id :: id in jobs ==> jobs[id].id == id
    ensures ListsDue(jobs, Ids(DueJobs(all, now)), now)
  {
    DueJobsFilter(all, now);
    DueJobsDistinct(all, now);
    var due := DueJobs(all, now);
    forall id | id in jobs {
      DueIff(jobs[id], now);
    }
    forall id ensures id in Ids(due) <==> id in jobs && IsDue(jobs[id], now) {
      if id in Ids(due) {
        var i :| 0 <= i < |due| && Ids(due)[i] == id;
        assert due[i] in due;
      }
      if id in jobs && IsDue(jobs[id], now) {
        assert jobs[id] in due;
        var i :| 0 <= i < |due| && due[i] == jobs[id];
        assert Ids(due)[i] == id;
      }
    }
  }

  const ID_PREFIX := "cron-"

  function IndexOfId(id: string): Option<nat> {
    if StartsWith(id, ID_PREFIX) then ParseU64(id[5..]) else None
  }

  /** `max + 1` is the smallest index above every stored one, or 1. */
  ghost predicate IsNextIndex(jobs: Jobs, n: nat) {
    && n >= 1
    && (forall id :: id in jobs && IndexOfId(id).Some? ==> IndexOfId(id).value < n)
    && (n == 1 || exists id :: id in jobs && IndexOfId(id) == Some(n - 1))
  }

  lemma IndexOfPrinted(n: nat)
    requires n <= U64_MAX
    ensures IndexOfId(ID_PREFIX + Print(n)) == Some(n)
  {
    PrintParse(n);
    var id := ID_PREFIX + Print(n);
    assert id[5..] == Print(n);
  }

  lemma TopFits(jobs: Jobs, top: nat)
    requires IsNextIndex(jobs, top)
    ensures top <= U64_MOD
  {
    if top != 1 {
      var id :| id in jobs && IndexOfId(id) == Some(top - 1);
    }
  }

  lemma NewIdIsFresh(jobs: Jobs, n: nat)
    requires IsNextIndex(jobs, n) && n <= U64_MAX
    ensures ID_PREFIX + Print(n) !in jobs
  {
    IndexOfPrinted(n);
  }

  /**
   The id given to a new job, whose counter wraps in a release build, is unused if and only if
   the counter did not wrap or `cron-0` is unused.
   */
  lemma NewIdFreshIff(jobs: Jobs, top: nat)
    requires IsNextIndex(jobs, top)
    ensures ID_PREFIX + Print(top % U64_MOD) !in jobs <==> top <= U64_MAX || ID_PREFIX + Print(0) !in jobs
  {
    TopFits(jobs, top);
    if top <= U64_MAX {
      assert top % U64_MOD == top;
      NewIdIsFresh(jobs, top);
    } else {
      assert top % U64_MOD == 0;
    }
  }

  lemma IndexAboveTwo(a: string, b: string, low: nat, high: nat, jobs: Jobs)
    requires jobs.Keys == {a, b} && IndexOfId(a) == Some(low) && IndexOfId(b) == Some(high) && low <= high
    ensures IsNextIndex(jobs, high + 1)
  {
    assert b in jobs;
  }

  /** Such a collision: with the first and the last index taken, the next job gets the first one's id. */
  lemma WrappedIdCollides(jobs: Jobs, zero: nat, top: nat)
    requires zero == 0 && top == U64_MAX && jobs.Keys == {ID_PREFIX + Print(zero), ID_PREFIX + Print(top)}
    ensures IsNextIndex(jobs, top + 1) && ID_PREFIX + Print((top + 1) % U64_MOD) in jobs
  {
    IndexOfPrinted(zero);
    IndexOfPrinted(top);
    IndexAboveTwo(ID_PREFIX + Print(zero), ID_PREFIX + Print(top), zero, top, jobs);
    assert (top + 1) % U64_MOD == zero;
    assert ID_PREFIX + Print(zero) in jobs.Keys;
  }

  function NewJob(n: nat, schedule: string, prompt: string): Job {
    Job(ID_PREFIX + Print(n), Trim(schedule), Trim(prompt), true, None)
  }

  /** The job gets the next index; its id is unused unless that index wrapped and the first id is taken. */
  ghost predicate IsNextJob(jobs: Jobs, top: nat, schedule: string, prompt: string, job: Job) {
    && IsNextIndex(jobs, top) && job.id == "cron-" + Print(top % U64_MOD)
    && job.schedule == Trim(schedule) && job.prompt == Trim(prompt) && job.enabled && job.lastRun.None?
    && (job.id !in jobs <==> top <= U64_MAX || ID_PREFIX + Print(0) !in jobs)
  }

  lemma NextJobIs(jobs: Jobs, top: nat, schedule: string, prompt: string)
    requires IsNextIndex(jobs, top)
    ensures IsNextJob(jobs, top, schedule, prompt, NewJob(top % U64_MOD, schedule, prompt))
  {
    NewIdFreshIff(jobs, top);
  }

  /** A stored job keeps the schedule it was added with: trimming the spec does not change its parse. */
  lemma StoredSchedule(n: nat, schedule: string, prompt: string)
    ensures ParseSchedule(NewJob(n, schedule, prompt).schedule) == ParseSchedule(schedule)
  {
    TrimIsTrimmed(schedule);
  }

  function Indices(all: seq<Job>): seq<Option<nat>> {
    seq(|all|, i requires 0 <= i < |all| => IndexOfId(all[i].id))
  }

  /** One above the largest index found, or 1. */
  method NextAbove(found: seq<Option<nat>>) returns (n: nat)
    ensures n >= 1 && forall j :: 0 <= j < |found| && found[j].Some? ==> found[j].value < n
    ensures n == 1 || Some(n - 1) in found
  {
    n := 1;
    for i := 0 to |found|
      invariant n >= 1 && forall j :: 0 <= j < i && found[j].Some? ==> found[j].value < n
      invariant n == 1 || Some(n - 1) in found
    {
      if found[i].Some? && found[i].value >= n {
        n := found[i].value + 1;
      }
    }
  }

  lemma IndicesCover(all: seq<Job>, jobs: Jobs, n: nat)
    requires Enumerates(all, jobs) && forall id :: id in jobs ==> jobs[id].id == id
    requires n >= 1 && forall j :: 0 <= j < |all| && Indices(all)[j].Some? ==> Indices(all)[j].value < n
    requires n == 1 || Some(n - 1) in Indices(all)
    ensures IsNextIndex(jobs, n)
  {
    forall id | id in jobs && IndexOfId(id).Some? ensures IndexOfId(id).value < n {
      var j :| 0 <= j < |all| && all[j] == jobs[id];
      assert Indices(all)[j] == IndexOfId(id);
    }
    if n > 1 {
      var j :| 0 <= j < |all| && Indices(all)[j] == Some(n - 1);
      assert all[j] in all;
    }
  }

  class JobStore {
    var jobs: Jobs

    /** Every job is filed under its own id. */
    ghost predicate Valid()
      reads this
    {
      forall id :: id in jobs ==> jobs[id].id == id
    }

    constructor ()
      ensures Valid() && jobs == map[]
    {
      jobs := map[];
    }

    method Get(id: string) returns (r: Result<Job>)
      ensures r == if !ValidId(id) then Fail(InvalidId) else if id in jobs then Ok(jobs[id]) else Fail(UnknownJob)
    {
      if !ValidId(id) {
        return Fail(InvalidId);
      }
      if id !in jobs {
        return Fail(UnknownJob);
      }
      return Ok(jobs[id]);
    }

    method SetEnabled(id: string, on: bool) returns (r: Result<Job>)
      requires Valid()
      modifies this
      ensures Valid()
      ensures r.Ok? <==> Stored(old(jobs), id)
      ensures jobs == Enabled(old(jobs), id, on)
      ensures r.Ok? ==> r.value == old(jobs)[id].(enabled := on) && jobs == old(jobs)[id := r.value]
      ensures r.Fail? ==> jobs == old(jobs) && r.error == if ValidId(id) then UnknownJob else InvalidId
    {
      r := Get(id);
      if r.Ok? {
        var job := r.value.(enabled := on);
        jobs := jobs[job.id := job];
        r := Ok(job);
      }
    }

    method MarkRan(id: string, at: nat) returns (r: Result<Job>)
      requires Valid()
      modifies this
      ensures Valid()
      ensures r.Ok? <==> Stored(old(jobs), id)
      ensures jobs == Marked(old(jobs), id, at)
      ensures r.Ok? ==> r.value == old(jobs)[id].(lastRun := Some(at)) && jobs == old(jobs)[id := r.value]
      ensures r.Fail? ==> jobs == old(jobs) && r.error == if ValidId(id) then UnknownJob else InvalidId
    {
      r := Get(id);
      if r.Ok? {
        var job := r.value.(lastRun := Some(at));
        jobs := jobs[job.id := job];
        r := Ok(job);
      }
    }

    /** All jobs, each once. (The directory listing is sorted by id; the order plays no part here.) */
    method List() returns (all: seq<Job>)
      requires Valid()
      ensures Enumerates(all, jobs)
    {
      all := [];
      var left := jobs.Keys;
      while left != {}
        invariant left <= jobs.Keys
        invariant Distinct(Ids(all))
        invariant forall job :: job in all <==> job.id in jobs && job.id !in left && jobs[job.id] == job
        decreases left
      {
        var id :| id in left;
        DistinctAppend(all, jobs[id]);
        all := all + [jobs[id]];
        left := left - {id};
      }
    }

    /** `max + 1`, as a `u64`; `top` is the sum before it wraps. */
    method NextIndex() returns (n: nat)
      requires Valid()
      ensures exists top: nat :: IsNextIndex(jobs, top) && n == top % U64_MOD
    {
      var all := List();
      var found := Indices(all);
      var next := NextAbove(found);
      IndicesCover(all, jobs, next);
      n := next % U64_MOD;
    }

    /** A new job runs on the schedule it was given and, unless its id is taken, disturbs no stored job. */
    method Add(schedule: string, prompt: string) returns (r: Result<Job>)
      requires Valid()
      modifies this
      ensures Valid()
      ensures r.Fail? ==> jobs == old(jobs)
      ensures r == Fail(InvalidSchedule) <==> ParseSchedule(schedule).Invalid?
      ensures r.Fail? <==> ParseSchedule(schedule).Invalid? || Blank(prompt)
      ensures r.Ok? ==> jobs == old(jobs)[r.value.id := r.value]
      ensures r.Ok? ==> exists top: nat :: IsNextJob(old(jobs), top, schedule, prompt, r.value)
    {
      if !ParseSchedule(schedule).Parsed? {
        r := Fail(InvalidSchedule);
        return;
      }
      BlankIffTrimEmpty(prompt);
      if Trim(prompt) == "" {
        r := Fail(EmptyPrompt);
        return;
      }
      var n := NextIndex();
      ghost var top: nat :| IsNextIndex(jobs, top) && n == top % U64_MOD;
      NextJobIs(jobs, top, schedule, prompt);
      var job := NewJob(n, schedule, prompt);
      jobs := jobs[job.id := job];
      r := Ok(job);
    }

    /** Mark every job of the list as run, execute it, and report it. */
    method FireAll(due: seq<Job>, now: nat) returns (ran: seq<string>)
      requires Valid()
      modifies this
      ensures Valid()
      ensures ran == Ids(due) && jobs == MarkAll(old(jobs), ran, now)
    {
      ran := [];
      for i := 0 to |due|
        invariant Valid()
        invariant ran == Ids(due)[..i]
        invariant jobs == MarkAll(old(jobs), ran, now)
      {
        var _ := MarkRan(due[i].id, now);
        MarkAllMore(old(jobs), ran, due[i].id, now);
        IdsMore(due, i);
        ran := ran + [due[i].id];
      }
      assert Ids(due)[..|due|] == Ids(due);
    }

    /**
     One daemon tick: every job due at `now` is marked as run, then executed, and reported;
     no other job changes.
     */
    method RunDueTick(now: nat) returns (ran: seq<string>)
      requires Valid()
      modifies this
      ensures Valid()
      ensures ListsDue(old(jobs), ran, now)
      ensures jobs == MarkAll(old(jobs), ran, now)
    {
      var all := List();
      DueJobsListed(all, jobs, now);
      ran := FireAll(DueJobs(all, now), now);
    }
  }

  /** What a tick leaves behind: its jobs carry the tick's time, all others are untouched. */
  lemma {:induction false} MarkAllEffect(jobs: Jobs, ids: seq<string>, now: nat, id: string)
    ensures MarkAll(jobs, ids, now).Keys == jobs.Keys
    ensures id in jobs ==>
              MarkAll(jobs, ids, now)[id] ==
              if id in ids && ValidId(id) then jobs[id].(lastRun := Some(now)) else jobs[id]
  {
    if ids != [] {
      MarkAllEffect(jobs, ids[..|ids| - 1], now, id);
    }
  }

  /** A job that a tick fired is not due again until its next-run time, however long it runs. */
  lemma NoDoubleFire(jobs: Jobs, ids: seq<string>, now: nat, id: string, later: nat)
    requires ListsDue(jobs, ids, now) && id in ids && ValidId(id)
    ensures id in MarkAll(jobs, ids, now)
    ensures IsDue(MarkAll(jobs, ids, now)[id], later) <==>
            NextAfter(ParseSchedule(jobs[id].schedule).secs, now) <= later
  {
    MarkAllEffect(jobs, ids, now, id);
  }

  /** The characters an id may have. */
  lemma ValidIdIff(id: string)
    ensures ValidId(id) <==>
            id != "" && forall c :: c in id ==> 'a' <= c <= 'z' || 'A' <= c <= 'Z' || '0' <= c <= '9' || c in "-_"
  {
    assert forall i :: 0 <= i < |id| ==> id[i] in id;
  }

  lemma PrefixIsValid()
    ensures ValidId(ID_PREFIX) && |ID_PREFIX| == 5
  {
  }

  /** Ids given to new jobs are valid, so the store's operations reach them. */
  lemma NewIdIsValid(n: nat)
    ensures ValidId(ID_PREFIX + Print(n))
  {
    PrefixIsValid();
    var id := ID_PREFIX + Print(n);
    forall i | 0 <= i < |id| ensures IsAlpha(id[i]) || IsDigit(id[i]) || id[i] == '-' || id[i] == '_' {
      if i < 5 {
        assert id[i] == ID_PREFIX[i];
      } else {
        assert id[i] == Print(n)[i - 5];
      }
    }
  }

  // ----- Whole runs -----

  /** The store, the latest tick's time, and the due jobs of that tick still to be fired. */
  datatype State = State(jobs: Jobs, tick: Option<nat>, pending: seq<string>)

  datatype Event =
    | Begin(now: nat, due: seq<string>)
    | Fire
    | SetEnabled(id: string, on: bool)
    | Add(job: Job)
    | Remove(id: string)

  ghost predicate Can(s: State, e: Event) {
    match e
    case Begin(now, due) => s.pending == [] && now <= U64_MAX && ListsDue(s.jobs, due, now)
    case Fire => s.pending != [] && s.tick.Some?
    case SetEnabled(_, _) => true
    case Add(job) => job.id !in s.jobs && job.enabled && job.lastRun.None?
    case Remove(_) => true
  }

  function After(s: State, e: Event): State {
    match e
    case Begin(now, due) => State(s.jobs, Some(now), due)
    case Fire =>
      if s.pending == [] || s.tick.None? then s
      else State(Marked(s.jobs, s.pending[0], s.tick.value), s.tick, s.pending[1..])
    case SetEnabled(id, on) => s.(jobs := Enabled(s.jobs, id, on))
    case Add(job) => s.(jobs := s.jobs[job.id := job])
    case Remove(id) => s.(jobs := s.jobs - {id})
  }

  /** The state after a run from `s`, or `None` when some event could not happen. */
  ghost function Exec(s: State, run: seq<Event>): Option<State> {
    if run == [] then Some(s)
    else
      match Exec(s, run[..|run| - 1])
      case None => None
      case Some(mid) => if Can(mid, run[|run| - 1]) then Some(After(mid, run[|run| - 1])) else None
  }

  /** The times at which `id` was fired, in order. */
  ghost function Firings(s: State, run: seq<Event>, id: string): seq<nat>
    requires Exec(s, run).Some?
  {
    if run == [] then []
    else
      var front := run[..|run| - 1];
      var mid := Exec(s, front).value;
      Firings(s, front, id) +
      (if run[|run| - 1].Fire? && mid.pending[0] == id then [mid.tick.value] else [])
  }

  function Fires(k: nat): seq<Event> {
    if k == 0 then [] else Fires(k - 1) + [Fire]
  }

  lemma ExecMore(s: State, run: seq<Event>, mid: State, e: Event)
    requires Exec(s, run) == Some(mid) && Can(mid, e)
    ensures Exec(s, run + [e]) == Some(After(mid, e))
  {
    assert (run + [e])[..|run|] == run;
  }

  /** An undisturbed tick of the run is exactly what `RunDueTick` does to the store. */
  lemma {:induction false} TickIsARun(jobs: Jobs, last: Option<nat>, ids: seq<string>, now: nat, k: nat)
    requires ListsDue(jobs, ids, now) && now <= U64_MAX && k <= |ids|
    ensures Exec(State(jobs, last, []), [Begin(now, ids)] + Fires(k)) ==
            Some(State(MarkAll(jobs, ids[..k], now), Some(now), ids[k..]))
  {
    var s := State(jobs, last, []);
    if k == 0 {
      ExecMore(s, [], s, Begin(now, ids));
      assert [] + [Begin(now, ids)] == [Begin(now, ids)] + Fires(0);
      assert ids[..0] == [] && ids[0..] == ids;
    } else {
      TickIsARun(jobs, last, ids, now, k - 1);
      var mid := State(MarkAll(jobs, ids[..k - 1], now), Some(now), ids[k - 1..]);
      ExecMore(s, [Begin(now, ids)] + Fires(k - 1), mid, Fire);
      assert [Begin(now, ids)] + Fires(k - 1) + [Fire] == [Begin(now, ids)] + Fires(k);
      MarkAllMore(jobs, ids[..k - 1], ids[k - 1], now);
      assert ids[..k - 1] + [ids[k - 1]] == ids[..k] && ids[k - 1..][1..] == ids[k..];
    }
  }

  predicate NeverRemoved(run: seq<Event>, id: string) {
    Remove(id) !in run
  }

  /** The job is in the store with interval `secs`, between ticks. */
  predicate Scheduled(s: State, id: string, secs: nat) {
    && s.pending == [] && (s.tick.Some? ==> s.tick.value <= U64_MAX)
    && Stored(s.jobs, id) && ParseSchedule(s.jobs[id].schedule) == Parsed(secs)
  }

  /** Times never fall, and neighbours are an interval apart exactly where the next-run time did not saturate. */
  predicate SpacedUnlessSaturated(f: seq<nat>, secs: nat) {
    forall i :: 0 < i < |f| ==> f[i] >= f[i - 1] && (f[i] >= f[i - 1] + secs <==> f[i - 1] + secs <= U64_MAX)
  }

  /** One job's times: its last run is its latest firing, and while it is pending it is due. */
  predicate TimesOk(secs: nat, lastRun: Option<nat>, tick: Option<nat>, pending: bool, fired: seq<nat>) {
    && (fired != [] ==> lastRun == Some(fired[|fired| - 1]) && fired[|fired| - 1] <= U64_MAX)
    && (tick.Some? ==> tick.value <= U64_MAX)
    && (pending ==> tick.Some?)
    && (pending && lastRun.Some? ==> NextAfter(secs, lastRun.value) <= tick.value)
    && SpacedUnlessSaturated(fired, secs)
  }

  lemma FiringKeepsTimes(secs: nat, lastRun: Option<nat>, now: nat, fired: seq<nat>)
    requires TimesOk(secs, lastRun, Some(now), true, fired)
    ensures TimesOk(secs, Some(now), Some(now), false, fired + [now])
  {
  }

  ghost predicate JobInv(s: State, id: string, secs: nat, fired: seq<nat>) {
    && Distinct(s.pending)
    && Stored(s.jobs, id) && ParseSchedule(s.jobs[id].schedule) == Parsed(secs)
    && TimesOk(secs, s.jobs[id].lastRun, s.tick, id in s.pending, fired)
  }

  /** What a firing does to the queue. */
  lemma PopPending(pending: seq<string>, id: string)
    requires Distinct(pending) && pending != []
    ensures Distinct(pending[1..])
    ensures id in pending[1..] <==> id in pending && id != pending[0]
  {
    assert forall x :: x in pending <==> x == pending[0] || x in pending[1..];
  }

  /** What a firing does to the store, as one job sees it. */
  lemma MarkedJob(jobs: Jobs, fired: string, now: nat, id: string)
    requires Stored(jobs, id)
    ensures Stored(Marked(jobs, fired, now), id)
    ensures Marked(jobs, fired, now)[id] == if fired == id then jobs[id].(lastRun := Some(now)) else jobs[id]
  {
  }

  lemma FireJobInv(s: State, id: string, secs: nat, fired: seq<nat>)
    requires JobInv(s, id, secs, fired) && Can(s, Fire)
    ensures JobInv(After(s, Fire), id, secs, fired + if s.pending[0] == id then [s.tick.value] else [])
  {
    PopPending(s.pending, id);
    MarkedJob(s.jobs, s.pending[0], s.tick.value, id);
    if s.pending[0] == id {
      FiringKeepsTimes(secs, s.jobs[id].lastRun, s.tick.value, fired);
    } else {
      assert fired + [] == fired;
    }
  }

  /** Edits to the store leave a job's schedule and last run alone, and the tick under way too. */
  lemma EditKeepsJob(s: State, e: Event, id: string)
    requires Stored(s.jobs, id) && Can(s, e) && !e.Begin? && !e.Fire? && e != Remove(id)
    ensures var s' := After(s, e);
            && s'.tick == s.tick && s'.pending == s.pending
            && Stored(s'.jobs, id) && s'.jobs[id].schedule == s.jobs[id].schedule
            && s'.jobs[id].lastRun == s.jobs[id].lastRun
            && (e != SetEnabled(id, false) && s.jobs[id].enabled ==> s'.jobs[id].enabled)
  {
  }

  lemma BeginJobInv(s: State, e: Event, id: string, secs: nat, fired: seq<nat>)
    requires JobInv(s, id, secs, fired) && e.Begin? && Can(s, e)
    ensures JobInv(After(s, e), id, secs, fired)
  {
    assert id in e.due ==> IsDue(s.jobs[id], e.now);
  }

  lemma StepJobInv(s: State, e: Event, id: string, secs: nat, fired: seq<nat>)
    requires JobInv(s, id, secs, fired) && Can(s, e) && e != Remove(id)
    ensures JobInv(After(s, e), id, secs, fired + if e.Fire? && s.pending[0] == id then [s.tick.value] else [])
  {
    assert fired + [] == fired;
    if e.Fire? {
      FireJobInv(s, id, secs, fired);
    } else if e.Begin? {
      BeginJobInv(s, e, id, secs, fired);
    } else {
      EditKeepsJob(s, e, id);
    }
  }

  lemma {:induction false} RunJobInv(s: State, run: seq<Event>, id: string, secs: nat)
    requires Exec(s, run).Some? && Scheduled(s, id, secs)
    requires NeverRemoved(run, id)
    ensures JobInv(Exec(s, run).value, id, secs, Firings(s, run, id))
  {
    if run != [] {
      var front := run[..|run| - 1];
      assert forall e :: e in front ==> e in run;
      RunJobInv(s, front, id, secs);
      StepJobInv(Exec(s, front).value, run[|run| - 1], id, secs, Firings(s, front, id));
    }
  }

  /**
   Spacing over every run, whatever enable, disable, add and remove calls intervene: two
   consecutive firings of a job that is never removed are at least its interval apart exactly
   when the first one's next-run time does not saturate.
   */
  lemma FiringsSpaced(s: State, run: seq<Event>, id: string, secs: nat, i: nat)
    requires Exec(s, run).Some? && Scheduled(s, id, secs)
    requires NeverRemoved(run, id) && 0 < i < |Firings(s, run, id)|
    ensures var f := Firings(s, run, id); f[i] >= f[i - 1] + secs <==> f[i - 1] + secs <= U64_MAX
  {
    RunJobInv(s, run, id, secs);
  }

  lemma FiringsMore(s: State, run: seq<Event>, mid: State, e: Event, id: string)
    requires Exec(s, run) == Some(mid) && Can(mid, e)
    ensures Exec(s, run + [e]) == Some(After(mid, e))
    ensures Firings(s, run + [e], id) ==
            Firings(s, run, id) + if e.Fire? && mid.pending[0] == id then [mid.tick.value] else []
  {
    assert (run + [e])[..|run|] == run;
  }

  /** A store with one job, last run at `lastRun`, between ticks. */
  function Alone(job: Job, lastRun: Option<nat>, tick: Option<nat>): State {
    State(map[job.id := job.(lastRun := lastRun)], tick, [])
  }

  /** At the end of the `u64` range a job is due whatever its last run was. */
  lemma DueAtTheEnd(job: Job, lastRun: Option<nat>)
    requires job.enabled && ParseSchedule(job.schedule).Parsed?
    ensures ListsDue(map[job.id := job.(lastRun := lastRun)], [job.id], U64_MAX)
  {
  }

  /** One tick at that time fires the job. */
  lemma LastTickFires(s: State, run: seq<Event>, job: Job, lastRun: Option<nat>, tick: Option<nat>)
    requires ValidId(job.id) && job.enabled && ParseSchedule(job.schedule).Parsed?
    requires Exec(s, run) == Some(Alone(job, lastRun, tick))
    ensures var next := run + [Begin(U64_MAX, [job.id])] + [Fire];
            && Exec(s, next) == Some(Alone(job, Some(U64_MAX), Some(U64_MAX)))
            && Firings(s, next, job.id) == Firings(s, run, job.id) + [U64_MAX]
  {
    var begin := Begin(U64_MAX, [job.id]);
    DueAtTheEnd(job, lastRun);
    FiringsMore(s, run, Alone(job, lastRun, tick), begin, job.id);
    FireAlone(s, run + [begin], job, lastRun);
  }

  lemma FireAlone(s: State, run: seq<Event>, job: Job, lastRun: Option<nat>)
    requires ValidId(job.id)
    requires Exec(s, run) == Some(Alone(job, lastRun, Some(U64_MAX)).(pending := [job.id]))
    ensures Exec(s, run + [Fire]) == Some(Alone(job, Some(U64_MAX), Some(U64_MAX)))
    ensures Firings(s, run + [Fire], job.id) == Firings(s, run, job.id) + [U64_MAX]
  {
    var begun := Alone(job, lastRun, Some(U64_MAX)).(pending := [job.id]);
    assert begun.pending[1..] == [];
    assert Marked(begun.jobs, job.id, U64_MAX) == map[job.id := job.(lastRun := Some(U64_MAX))];
    assert After(begun, Fire) == Alone(job, Some(U64_MAX), Some(U64_MAX));
    FiringsMore(s, run, begun, Fire, job.id);
  }

  /** At the end of the `u64` range the next-run time saturates, and two ticks at one instant both fire. */
  lemma SaturationFiresTwice(job: Job, secs: nat) returns (s: State, run: seq<Event>)
    requires ValidId(job.id) && job.enabled && ParseSchedule(job.schedule) == Parsed(secs)
    ensures Scheduled(s, job.id, secs) && NeverRemoved(run, job.id) && Exec(s, run).Some?
    ensures Firings(s, run, job.id) == [U64_MAX, U64_MAX]
  {
    s := Alone(job, None, None);
    LastTickFires(s, [], job, None, None);
    var once := [] + [Begin(U64_MAX, [job.id])] + [Fire];
    LastTickFires(s, once, job, Some(U64_MAX), Some(U64_MAX));
    run := once + [Begin(U64_MAX, [job.id])] + [Fire];
    TickRemovesNothing([], job.id);
    TickRemovesNothing(once, job.id);
    assert Firings(s, [], job.id) + [U64_MAX] + [U64_MAX] == [U64_MAX, U64_MAX];
  }

  lemma TickRemovesNothing(run: seq<Event>, id: string)
    requires NeverRemoved(run, id)
    ensures NeverRemoved(run + [Begin(U64_MAX, [id])] + [Fire], id)
  {
  }

  // ----- The first firing -----

  /** The time of the first tick that begins in the run. */
  function FirstTick(run: seq<Event>): Option<nat> {
    if run == [] then None
    else
      var front, last := run[..|run| - 1], run[|run| - 1];
      if FirstTick(front).Some? || !last.Begin? then FirstTick(front) else Some(last.now)
  }

  /** Until its first firing, the job waits for the first tick and is then among its due jobs. */
  ghost predicate FirstInv(s: State, id: string, first: Option<nat>, fired: seq<nat>) {
    && Distinct(s.pending) && Stored(s.jobs, id) && s.jobs[id].enabled && ParseSchedule(s.jobs[id].schedule).Parsed?
    && (fired == [] ==> s.jobs[id].lastRun.None? && (first.Some? <==> id in s.pending))
    && (fired == [] && first.Some? ==> s.tick == first)
    && (fired != [] ==> Some(fired[0]) == first)
  }

  lemma FireFirstInv(s: State, id: string, first: Option<nat>, fired: seq<nat>)
    requires FirstInv(s, id, first, fired) && Can(s, Fire)
    ensures FirstInv(After(s, Fire), id, first, fired + if s.pending[0] == id then [s.tick.value] else [])
  {
    PopPending(s.pending, id);
    MarkedJob(s.jobs, s.pending[0], s.tick.value, id);
    if s.pending[0] != id {
      assert fired + [] == fired;
    }
  }

  lemma BeginFirstInv(s: State, e: Event, id: string, first: Option<nat>, fired: seq<nat>)
    requires FirstInv(s, id, first, fired) && e.Begin? && Can(s, e)
    ensures FirstInv(After(s, e), id, if first.Some? then first else Some(e.now), fired)
  {
    if fired == [] {
      assert id in e.due;
    }
  }

  lemma StepFirstInv(s: State, e: Event, id: string, first: Option<nat>, fired: seq<nat>)
    requires FirstInv(s, id, first, fired) && Can(s, e) && e != Remove(id) && e != SetEnabled(id, false)
    ensures FirstInv(After(s, e), id, if first.Some? || !e.Begin? then first else Some(e.now),
                     fired + if e.Fire? && s.pending[0] == id then [s.tick.value] else [])
  {
    assert fired + [] == fired;
    if e.Fire? {
      FireFirstInv(s, id, first, fired);
    } else if e.Begin? {
      BeginFirstInv(s, e, id, first, fired);
    } else {
      EditKeepsJob(s, e, id);
    }
  }

  /** The job has just been stored: enabled, never run, and not among the due jobs of a tick under way. */
  predicate JustStored(s: State, id: string) {
    && Distinct(s.pending) && id !in s.pending && Stored(s.jobs, id)
    && s.jobs[id].enabled && s.jobs[id].lastRun.None? && ParseSchedule(s.jobs[id].schedule).Parsed?
  }

  lemma {:induction false} RunFirstInv(s: State, run: seq<Event>, id: string)
    requires Exec(s, run).Some? && JustStored(s, id)
    requires Remove(id) !in run && SetEnabled(id, false) !in run
    ensures FirstInv(Exec(s, run).value, id, FirstTick(run), Firings(s, run, id))
  {
    if run != [] {
      var front := run[..|run| - 1];
      assert forall e :: e in front ==> e in run;
      RunFirstInv(s, front, id);
      StepFirstInv(Exec(s, front).value, run[|run| - 1], id, FirstTick(front), Firings(s, front, id));
    }
  }

  /**
   The first firing of a job over every run, from when it is stored: it is at the first tick that
   begins afterwards, and once that tick is over the job has fired.
   */
  lemma FirstFiring(s: State, run: seq<Event>, id: string)
    requires Exec(s, run).Some? && JustStored(s, id)
    requires Remove(id) !in run && SetEnabled(id, false) !in run
    ensures Firings(s, run, id) != [] ==> Some(Firings(s, run, id)[0]) == FirstTick(run)
    ensures FirstTick(run).None? ==> Firings(s, run, id) == []
    ensures FirstTick(run).Some? && Exec(s, run).value.pending == [] ==> Firings(s, run, id) != []
  {
    RunFirstInv(s, run, id);
  }

  /** A job that was just added, whenever that is, is such a job. */
  lemma AddedIsJustStored(s: State, n: nat, schedule: string, prompt: string)
    requires Distinct(s.pending) && ID_PREFIX + Print(n) !in s.pending && ID_PREFIX + Print(n) !in s.jobs
    requires ParseSchedule(schedule).Parsed?
    ensures var job := NewJob(n, schedule, prompt);
            Can(s, Add(job)) && JustStored(After(s, Add(job)), job.id)
  {
    NewIdIsValid(n);
    StoredSchedule(n, schedule, prompt);
  }

  // ----- Lateness -----

  /** Nobody disables the job, and each tick comes at most `gap` after the one before it. */
  ghost predicate Prompt(s: State, run: seq<Event>, id: string, gap: nat) {
    run != [] ==>
      var front := run[..|run| - 1];
      var e := run[|run| - 1];
      && Prompt(s, front, id, gap)
      && e != SetEnabled(id, false)
      && (e.Begin? && Exec(s, front).Some? && Exec(s, front).value.tick.Some? ==>
            e.now <= Exec(s, front).value.tick.value + gap)
  }

  /** The most seconds after a run at which a job is not due yet. */
  function Slack(secs: nat): nat {
    if secs == 0 then 0 else secs - 1
  }

  predicate PromptFirings(f: seq<nat>, secs: nat, gap: nat) {
    forall i :: 0 < i < |f| ==> f[i] <= f[i - 1] + Slack(secs) + gap
  }

  /** No tick since the latest firing has overshot the next-run time, except the one about to fire. */
  predicate NotLate(secs: nat, gap: nat, tick: Option<nat>, pending: bool, fired: seq<nat>) {
    && PromptFirings(fired, secs, gap)
    && (fired != [] ==> tick.Some?)
    && (fired != [] ==> tick.value <= fired[|fired| - 1] + Slack(secs) + if pending then gap else 0)
  }

  lemma FiringKeepsPrompt(secs: nat, gap: nat, now: nat, fired: seq<nat>)
    requires NotLate(secs, gap, Some(now), true, fired)
    ensures NotLate(secs, gap, Some(now), false, fired + [now])
  {
  }

  ghost predicate LateInv(s: State, id: string, secs: nat, gap: nat, fired: seq<nat>) {
    id in s.jobs && s.jobs[id].enabled && NotLate(secs, gap, s.tick, id in s.pending, fired)
  }

  lemma FireLateInv(s: State, id: string, secs: nat, gap: nat, fired: seq<nat>)
    requires JobInv(s, id, secs, fired) && LateInv(s, id, secs, gap, fired) && Can(s, Fire)
    ensures LateInv(After(s, Fire), id, secs, gap, fired + if s.pending[0] == id then [s.tick.value] else [])
  {
    PopPending(s.pending, id);
    MarkedJob(s.jobs, s.pending[0], s.tick.value, id);
    if s.pending[0] == id {
      FiringKeepsPrompt(secs, gap, s.tick.value, fired);
    } else {
      assert fired + [] == fired;
    }
  }

  lemma BeginLateInv(s: State, e: Event, id: string, secs: nat, gap: nat, fired: seq<nat>)
    requires JobInv(s, id, secs, fired) && LateInv(s, id, secs, gap, fired)
    requires e.Begin? && Can(s, e) && (s.tick.Some? ==> e.now <= s.tick.value + gap)
    ensures LateInv(After(s, e), id, secs, gap, fired)
  {
    if id !in e.due {
      assert !IsDue(s.jobs[id], e.now);
    }
  }

  lemma StepLateInv(s: State, e: Event, id: string, secs: nat, gap: nat, fired: seq<nat>)
    requires JobInv(s, id, secs, fired) && LateInv(s, id, secs, gap, fired)
    requires Can(s, e) && e != Remove(id) && e != SetEnabled(id, false)
    requires e.Begin? && s.tick.Some? ==> e.now <= s.tick.value + gap
    ensures LateInv(After(s, e), id, secs, gap, fired + if e.Fire? && s.pending[0] == id then [s.tick.value] else [])
  {
    if e.Fire? {
      FireLateInv(s, id, secs, gap, fired);
    } else {
      assert fired + [] == fired;
      if e.Begin? {
        BeginLateInv(s, e, id, secs, gap, fired);
      } else {
        EditKeepsJob(s, e, id);
      }
    }
  }

  lemma {:induction false} RunLateInv(s: State, run: seq<Event>, id: string, secs: nat, gap: nat)
    requires Exec(s, run).Some? && Scheduled(s, id, secs) && s.jobs[id].enabled
    requires NeverRemoved(run, id) && Prompt(s, run, id, gap)
    ensures LateInv(Exec(s, run).value, id, secs, gap, Firings(s, run, id))
  {
    if run != [] {
      var front := run[..|run| - 1];
      assert forall e :: e in front ==> e in run;
      RunLateInv(s, front, id, secs, gap);
      RunJobInv(s, front, id, secs);
      StepLateInv(Exec(s, front).value, run[|run| - 1], id, secs, gap, Firings(s, front, id));
    }
  }

  /**
   Lateness over every run: while a job stays enabled and ticks come at most `gap` apart, its
   consecutive firings are less than its interval plus `gap` apart (at most `gap`, for a job
   whose interval is zero).
   */
  lemma FiringsPrompt(s: State, run: seq<Event>, id: string, secs: nat, gap: nat, i: nat)
    requires Exec(s, run).Some? && Scheduled(s, id, secs) && s.jobs[id].enabled
    requires NeverRemoved(run, id) && Prompt(s, run, id, gap)
    requires 0 < i < |Firings(s, run, id)|
    ensures var f := Firings(s, run, id); f[i] < f[i - 1] + secs + gap || (secs == 0 && f[i] == f[i - 1] + gap)
  {
    RunLateInv(s, run, id, secs, gap);
  }

  // ----- Counting -----

  predicate Spaced(f: seq<nat>, secs: nat) {
    forall i :: 0 < i < |f| ==> f[i] >= f[i - 1] + secs
  }

  function CountWithin(f: seq<nat>, from: nat, width: nat): nat {
    if f == [] then 0
    else CountWithin(f[..|f| - 1], from, width) + (if from <= f[|f| - 1] <= from + width then 1 else 0)
  }

  function Span(n: nat, secs: nat): nat {
    if n == 0 then 0 else Span(n - 1, secs) + secs
  }

  lemma {:induction false} SpanIsProduct(n: nat, secs: nat)
    ensures Span(n, secs) == n * secs
  {
    if n > 0 {
      SpanIsProduct(n - 1, secs);
    }
  }

  /** `n` spaced firings inside a window stretch over at least `n - 1` intervals of it. */
  lemma {:induction false} SpacedCount(f: seq<nat>, secs: nat, from: nat, width: nat)
    requires Spaced(f, secs)
    ensures var n := CountWithin(f, from, width);
            n > 0 ==> Span(n - 1, secs) <= width && f != [] && from + Span(n - 1, secs) <= f[|f| - 1]
  {
    if f != [] {
      var g := f[..|f| - 1];
      SpacedCount(g, secs, from, width);
      assert CountWithin(g, from, width) > 0 ==> f[|f| - 1] >= g[|g| - 1] + secs;
    }
  }

  lemma SpacedPerWindow(f: seq<nat>, secs: nat, from: nat, width: nat)
    requires Spaced(f, secs) && secs > 0
    ensures CountWithin(f, from, width) <= width / secs + 1
  {
    var n := CountWithin(f, from, width);
    SpacedCount(f, secs, from, width);
    if n > 0 {
      SpanBound(n - 1, secs, width);
    }
  }

  lemma SpanBound(n: nat, secs: nat, width: nat)
    requires secs > 0 && Span(n, secs) <= width
    ensures n <= width / secs
  {
    SpanIsProduct(n, secs);
    DivideBound(n, secs, width);
  }

  lemma {:induction false} CountMonotone(f: seq<nat>, k: nat, from: nat, width: nat)
    requires k <= |f|
    ensures CountWithin(f[..k], from, width) <= CountWithin(f, from, width)
  {
    if k == |f| {
      assert f[..k] == f;
    } else {
      CountMonotone(f[..|f| - 1], k, from, width);
      assert f[..|f| - 1][..k] == f[..k];
    }
  }

  lemma CountTwo(f: seq<nat>, i: nat, from: nat, width: nat)
    requires 0 < i < |f| && from <= f[i - 1] <= from + width && from <= f[i] <= from + width
    ensures CountWithin(f, from, width) >= 2
  {
    var one, two := f[..i], f[..i + 1];
    assert two[..|two| - 1] == one && two[|two| - 1] == f[i] && one[|one| - 1] == f[i - 1];
    assert CountWithin(one, from, width) >= 1;
    CountMonotone(f, i + 1, from, width);
  }

  lemma SmallQuotient(n: nat, d: nat)
    requires n < d
    ensures n / d == 0
  {
  }

  /** Two neighbours closer than an interval break the bound in the window from one to the other. */
  lemma CloseNeighbours(f: seq<nat>, i: nat, secs: nat)
    requires 0 < i < |f| && f[i - 1] <= f[i] < f[i - 1] + secs
    ensures CountWithin(f, f[i - 1], f[i] - f[i - 1]) > (f[i] - f[i - 1]) / secs + 1
  {
    CountTwo(f, i, f[i - 1], f[i] - f[i - 1]);
    SmallQuotient(f[i] - f[i - 1], secs);
  }

  /** Every firing but the last has a next-run time that does not saturate. */
  predicate NoneSaturates(f: seq<nat>, secs: nat) {
    forall i :: 0 <= i < |f| - 1 ==> f[i] + secs <= U64_MAX
  }

  ghost predicate WindowsBounded(f: seq<nat>, secs: nat)
    requires secs > 0
  {
    forall from: nat, width: nat :: CountWithin(f, from, width) <= width / secs + 1
  }

  /**
   Counting over every run: every window of length `width` holds at most `width / secs + 1`
   firings if and only if no firing but the last has a next-run time that saturates.
   */
  lemma FiringsPerWindowIff(s: State, run: seq<Event>, id: string, secs: nat)
    requires Exec(s, run).Some? && Scheduled(s, id, secs) && secs > 0
    requires NeverRemoved(run, id)
    ensures WindowsBounded(Firings(s, run, id), secs) <==> NoneSaturates(Firings(s, run, id), secs)
  {
    RunJobInv(s, run, id, secs);
    WindowsBoundedIff(Firings(s, run, id), secs);
  }

  lemma WindowsBoundedIff(f: seq<nat>, secs: nat)
    requires secs > 0 && SpacedUnlessSaturated(f, secs)
    ensures WindowsBounded(f, secs) <==> NoneSaturates(f, secs)
  {
    if NoneSaturates(f, secs) {
      AllSpaced(f, secs);
      forall from: nat, width: nat ensures CountWithin(f, from, width) <= width / secs + 1 {
        SpacedPerWindow(f, secs, from, width);
      }
    } else {
      var i :| 0 <= i < |f| - 1 && f[i] + secs > U64_MAX;
      assert f[i + 1] >= f[i + 1 - 1];
      CloseNeighbours(f, i + 1, secs);
    }
  }

  lemma AllSpaced(f: seq<nat>, secs: nat)
    requires SpacedUnlessSaturated(f, secs) && NoneSaturates(f, secs)
    ensures Spaced(f, secs)
  {
    forall i | 0 < i < |f| ensures f[i] >= f[i - 1] + secs {
      assert f[i - 1] + secs <= U64_MAX;
    }
  }

  lemma MulMono(a: nat, b: nat, d: nat)
    ensures a <= b ==> a * d <= b * d
  {
    if a <= b {
      assert b * d == a * d + (b - a) * d;
    }
  }

  lemma DivideBound(q: nat, d: nat, n: nat)
    requires d > 0 && q * d <= n
    ensures q <= n / d
  {
    var m := n / d;
    assert n < m * d + d == (m + 1) * d;
    MulMono(m + 1, q, d);
  }
}
