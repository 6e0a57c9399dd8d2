/**
 The background-process store as a step system: any number of client threads calling `spawn`,
 `output`, `list` and `kill`, two reader threads per child, the children themselves, and the
 four kinds of lock that order them.

 A mutex is held by exactly the threads whose program point lies in its critical section
 (`Held`); acquiring it is a step that is enabled only while nobody holds it. A run is a
 sequence of actions and `Exec` gives the state it leads to.
 */
module BackgroundProcesses {
  import opened Basics
  import opened StreamBuffer

  const CHUNK_BYTES: nat := 8192

  type Id = nat

  datatype StreamId = Out | Err

  datatype ExitInfo = ExitInfo(code: Option<int>, killed: bool)

  datatype Status = Running | Exited(info: ExitInfo)

  /** The child process; an exited child has closed its pipe ends. */
  datatype Child = Alive(signalled: bool) | Gone(code: Option<int>)

  /** A reader thread: between reads, holding a chunk, appending it under the buffer lock, or over. */
  datatype Reader = Absent | Reading | Carrying(chunk: seq<Byte>) | Appending(chunk: seq<Byte>) | Finished

  /** One stream: all bytes the child wrote, how many left the pipe, the reader, the buffer. */
  datatype Pipe = Pipe(written: seq<Byte>, taken: nat, reader: Reader, buffer: Contents)

  datatype Entry = Entry(child: Child, finished: Option<ExitInfo>, handles: set<StreamId>, out: Pipe, err: Pipe)
  {
    function At(st: StreamId): Pipe {
      if st == Out then out else err
    }

    function With(st: StreamId, p: Pipe): Entry {
      if st == Out then this.(out := p) else this.(err := p)
    }
  }

  datatype Lock = Processes | FinishedOf(id: Id) | ChildOf(id: Id) | ReadersOf(id: Id) | BufferOf(id: Id, st: StreamId)

  datatype Query = Output(maxBytes: nat) | Kill

  /** Who asked for a status refresh: an `output` call, or a `list` call with what it has seen so far. */
  datatype Goal = ForOutput(maxBytes: nat) | ForList(seen: map<Id, Status>)

  datatype Drain = OnRefresh(goal: Goal, code: Option<int>) | OnKill

  /** What `take_new` returned: the bytes and the truncation flag. */
  datatype Slice = Slice(bytes: seq<Byte>, truncated: bool)

  datatype Result =
    | Unknown
    | SpawnedAs(id: Id)
    | OutputWas(id: Id, status: Status, out: Slice, err: Slice)
    | Listed(seen: map<Id, Status>)
    | KillWas(id: Id, status: Status)

  /** The program points of a client call. */
  datatype Pc =
    | Idle
    | Lookup(id: Id, query: Query)                        // wants the process map
    | LookingUp(id: Id, query: Query)
    | Registering(id: Id)                                 // wants the process map
    | Inserting(id: Id)
    | Listing                                             // wants the process map
    | InList(seen: map<Id, Status>)
    | Refresh(id: Id, goal: Goal)                         // wants `finished`
    | Checking(id: Id, goal: Goal)
    | Polling(id: Id, goal: Goal)                         // wants `child`
    | TryWait(id: Id, goal: Goal)
    | Draining(id: Id, drain: Drain)                      // wants `readers`
    | Collecting(id: Id, drain: Drain)
    | Joining(id: Id, drain: Drain, pending: set<StreamId>)
    | KillStart(id: Id)                                   // wants `child`
    | Killing(id: Id)
    | Waiting(id: Id)
    | Settling(id: Id)                                    // wants `finished`
    | Sealing(id: Id)
    | TakeOut(id: Id, maxBytes: nat, status: Status)      // wants the stdout buffer
    | TakingOut(id: Id, maxBytes: nat, status: Status)
    | TakeErr(id: Id, maxBytes: nat, status: Status, got: Slice)   // wants the stderr buffer
    | TakingErr(id: Id, maxBytes: nat, status: Status, got: Slice)
    | Returning(result: Result)

  datatype State = State(nextId: Id, entries: map<Id, Entry>, registered: set<Id>, callers: seq<Pc>)

  function Init(n: nat): State {
    State(1, map[], {}, seq(n, _ => Idle))
  }

  // ----- Locks -----

  datatype Owner = Caller(t: nat) | ReaderOf(id: Id, st: StreamId)

  function GoalHolds(goal: Goal): set<Lock> {
    if goal.ForList? then {Processes} else {}
  }

  function DrainHolds(id: Id, drain: Drain): set<Lock> {
    match drain
    case OnRefresh(goal, _) => GoalHolds(goal) + {FinishedOf(id), ChildOf(id)}
    case OnKill => {}
  }

  function PcHolds(pc: Pc): set<Lock> {
    match pc
    case LookingUp(_, _) => {Processes}
    case Inserting(_) => {Processes}
    case InList(_) => {Processes}
    case Refresh(_, goal) => GoalHolds(goal)
    case Checking(id, goal) => GoalHolds(goal) + {FinishedOf(id)}
    case Polling(id, goal) => GoalHolds(goal) + {FinishedOf(id)}
    case TryWait(id, goal) => GoalHolds(goal) + {FinishedOf(id), ChildOf(id)}
    case Draining(id, drain) => DrainHolds(id, drain)
    case Collecting(id, drain) => DrainHolds(id, drain) + {ReadersOf(id)}
    case Joining(id, drain, _) => DrainHolds(id, drain)
    case Killing(id) => {ChildOf(id)}
    case Waiting(id) => {ChildOf(id)}
    case Sealing(id) => {FinishedOf(id)}
    case TakingOut(id, _, _) => {BufferOf(id, Out)}
    case TakingErr(id, _, _, _) => {BufferOf(id, Err)}
    case _ => {}
  }

  function Held(s: State, o: Owner): set<Lock> {
    match o
    case Caller(t) => if t < |s.callers| then PcHolds(s.callers[t]) else {}
    case ReaderOf(id, st) =>
      if id in s.entries && s.entries[id].At(st).reader.Appending? then {BufferOf(id, st)} else {}
  }

  ghost predicate Free(s: State, l: Lock) {
    forall o :: l !in Held(s, o)
  }

  function PcWants(pc: Pc): Option<Lock> {
    match pc
    case Lookup(_, _) => Some(Processes)
    case Registering(_) => Some(Processes)
    case Listing => Some(Processes)
    case Refresh(id, _) => Some(FinishedOf(id))
    case Polling(id, _) => Some(ChildOf(id))
    case Draining(id, _) => Some(ReadersOf(id))
    case KillStart(id) => Some(ChildOf(id))
    case Settling(id) => Some(FinishedOf(id))
    case TakeOut(id, _, _) => Some(BufferOf(id, Out))
    case TakeErr(id, _, _, _) => Some(BufferOf(id, Err))
    case _ => None
  }

  function Wants(s: State, o: Owner): Option<Lock> {
    match o
    case Caller(t) => if t < |s.callers| then PcWants(s.callers[t]) else None
    case ReaderOf(id, st) =>
      if id in s.entries && s.entries[id].At(st).reader.Carrying? then Some(BufferOf(id, st)) else None
  }

  /** The program point just inside the critical section. */
  function Entered(pc: Pc): Pc {
    match pc
    case Lookup(id, query) => LookingUp(id, query)
    case Registering(id) => Inserting(id)
    case Listing => InList(map[])
    case Refresh(id, goal) => Checking(id, goal)
    case Polling(id, goal) => TryWait(id, goal)
    case Draining(id, drain) => Collecting(id, drain)
    case KillStart(id) => Killing(id)
    case Settling(id) => Sealing(id)
    case TakeOut(id, maxBytes, status) => TakingOut(id, maxBytes, status)
    case TakeErr(id, maxBytes, status, got) => TakingErr(id, maxBytes, status, got)
    case _ => pc
  }

  // ----- Steps -----

  datatype Action =
    | Spawn(t: nat, piped: set<StreamId>)
    | CallOn(t: nat, id: Id, query: Query)
    | CallList(t: nat)
    | Acquire(o: Owner)
    | Look(t: nat)
    | Insert(t: nat)
    | Pick(t: nat, id: Id)
    | ListDone(t: nat)
    | Check(t: nat)
    | PollHit(t: nat)
    | PollMiss(t: nat)       // not exited yet, or the poll itself failed
    | Collect(t: nat)
    | Join(t: nat, st: StreamId)
    | Publish(t: nat)
    | Signal(t: nat)
    | WaitDone(t: nat)
    | Seal(t: nat)
    | Take(t: nat)
    | Return(t: nat)
    | ReadChunk(id: Id, st: StreamId, n: nat)
    | ReadEof(id: Id, st: StreamId)
    | Append(id: Id, st: StreamId)
    | ChildWrites(id: Id, st: StreamId, bytes: seq<Byte>)
    | ChildExits(id: Id, code: Option<int>)

  function NewPipe(piped: bool): Pipe {
    Pipe([], 0, if piped then Reading else Absent, EMPTY)
  }

  function NewEntry(piped: set<StreamId>): Entry {
    Entry(Alive(false), None, piped, NewPipe(Out in piped), NewPipe(Err in piped))
  }

  function StatusFrom(finished: Option<ExitInfo>): Status {
    match finished
    case None => Running
    case Some(info) => Exited(info)
  }

  /** Where a refresh goes with its status, having released the entry's locks. */
  function Resume(id: Id, goal: Goal, status: Status): Pc {
    match goal
    case ForOutput(maxBytes) => TakeOut(id, maxBytes, status)
    case ForList(seen) => InList(seen[id := status])
  }

  /** The entry a program point works on, once it has one. */
  predicate Known(s: State, pc: Pc) {
    match pc
    case Idle => true
    case Lookup(_, _) => true
    case LookingUp(_, _) => true
    case Listing => true
    case InList(_) => true
    case Returning(_) => true
    case _ => pc.id in s.entries
  }

  /** Whether a caller at `pc` can take the step `a`, apart from acquiring a lock. */
  predicate CallerEnabled(s: State, pc: Pc, a: Action) {
    Known(s, pc) &&
    match a
    case Spawn(_, _) => pc.Idle?
    case CallOn(_, _, _) => pc.Idle?
    case CallList(_) => pc.Idle?
    case Look(_) => pc.LookingUp?
    case Insert(_) => pc.Inserting?
    case Pick(_, id) => pc.InList? && id in s.registered && id !in pc.seen
    case ListDone(_) => pc.InList? && s.registered <= pc.seen.Keys
    case Check(_) => pc.Checking?
    case PollHit(_) => pc.TryWait? && s.entries[pc.id].child.Gone?
    case PollMiss(_) => pc.TryWait?
    case Collect(_) => pc.Collecting?
    case Join(_, st) => pc.Joining? && st in pc.pending && Over(s.entries[pc.id].At(st).reader)
    case Publish(_) => pc.Joining? && pc.pending == {}
    case Signal(_) => pc.Killing?
    case WaitDone(_) => pc.Waiting? && s.entries[pc.id].child.Gone?
    case Seal(_) => pc.Sealing?
    case Take(_) =>
      || (pc.TakingOut? && Wf(s.entries[pc.id].out.buffer))
      || (pc.TakingErr? && Wf(s.entries[pc.id].err.buffer))
    case Return(_) => pc.Returning?
    case _ => false
  }

  /** The reader thread has nothing left to do. */
  predicate Over(r: Reader) {
    r.Finished? || r.Absent?
  }

  /** The steps of reader threads and children. */
  predicate OnEntry(a: Action) {
    a.ReadChunk? || a.ReadEof? || a.Append? || a.ChildWrites? || a.ChildExits?
  }

  predicate EntryEnabled(s: State, a: Action) {
    match a
    case ReadChunk(id, st, n) =>
      id in s.entries && var p := s.entries[id].At(st);
      p.reader.Reading? && 1 <= n <= CHUNK_BYTES && p.taken + n <= |p.written|
    case ReadEof(id, st) =>
      id in s.entries && var p := s.entries[id].At(st);
      p.reader.Reading? && p.taken == |p.written| && s.entries[id].child.Gone?
    case Append(id, st) => id in s.entries && s.entries[id].At(st).reader.Appending?
    case ChildWrites(id, st, bytes) =>
      id in s.entries && s.entries[id].child.Alive? && !s.entries[id].At(st).reader.Absent?
    case ChildExits(id, _) => id in s.entries && s.entries[id].child.Alive?
    case _ => false
  }

  ghost predicate Enabled(s: State, a: Action) {
    if a.Acquire? then
      && Wants(s, a.o).Some? && Free(s, Wants(s, a.o).value)
      && (a.o.Caller? ==> Known(s, s.callers[a.o.t]))
    else if OnEntry(a) then EntryEnabled(s, a)
    else a.t < |s.callers| && CallerEnabled(s, s.callers[a.t], a)
  }

  function Go(s: State, t: nat, pc: Pc): State
    requires t < |s.callers|
  {
    s.(callers := s.callers[t := pc])
  }

  function Put(s: State, id: Id, e: Entry): State {
    s.(entries := s.entries[id := e])
  }

  /** The caller's next program point. */
  function PcAfter(s: State, pc: Pc, a: Action): Pc
    requires CallerEnabled(s, pc, a)
  {
    match a
    case Spawn(_, _) => Registering(s.nextId)
    case CallOn(_, id, query) => Lookup(id, query)
    case CallList(_) => Listing
    case Look(_) =>
      if pc.id !in s.registered then Returning(Unknown)
      else if pc.query.Output? then Refresh(pc.id, ForOutput(pc.query.maxBytes))
      else KillStart(pc.id)
    case Insert(_) => Returning(SpawnedAs(pc.id))
    case Pick(_, id) => Refresh(id, ForList(pc.seen))
    case ListDone(_) => Returning(Listed(pc.seen))
    case Check(_) =>
      var finished := s.entries[pc.id].finished;
      if finished.Some? then Resume(pc.id, pc.goal, StatusFrom(finished)) else Polling(pc.id, pc.goal)
    case PollHit(_) => Draining(pc.id, OnRefresh(pc.goal, s.entries[pc.id].child.code))
    case PollMiss(_) => Resume(pc.id, pc.goal, Running)
    case Collect(_) => Joining(pc.id, pc.drain, s.entries[pc.id].handles)
    case Join(_, st) => Joining(pc.id, pc.drain, pc.pending - {st})
    case Publish(_) =>
      if pc.drain.OnKill? then Settling(pc.id)
      else Resume(pc.id, pc.drain.goal, Exited(ExitInfo(pc.drain.code, false)))
    case Signal(_) => Waiting(pc.id)
    case WaitDone(_) => Draining(pc.id, OnKill)
    case Seal(_) => Returning(KillWas(pc.id, StatusFrom(Sealed(s.entries[pc.id]).finished)))
    case Take(_) =>
      var e := s.entries[pc.id];
      if pc.TakingOut? then
        TakeErr(pc.id, pc.maxBytes, pc.status, Slice(Taken(e.out.buffer, pc.maxBytes), e.out.buffer.truncated))
      else
        Returning(OutputWas(pc.id, pc.status, pc.got, Slice(Taken(e.err.buffer, pc.maxBytes), e.err.buffer.truncated)))
    case Return(_) => Idle
  }

  /** `kill` records its own exit only when no status has been published. */
  function Sealed(e: Entry): Entry {
    if e.finished.None? then e.(finished := Some(ExitInfo(None, true))) else e
  }

  /** What the step does to the entry the caller works on. */
  function EntryAfter(e: Entry, pc: Pc, a: Action): Entry {
    match a
    case Collect(_) => e.(handles := {})
    case Publish(_) =>
      if pc.Joining? && pc.drain.OnRefresh? then e.(finished := Some(ExitInfo(pc.drain.code, false))) else e
    case Signal(_) => if e.child.Alive? then e.(child := Alive(true)) else e
    case Seal(_) => Sealed(e)
    case Take(_) =>
      if pc.TakingOut? then e.(out := e.out.(buffer := Advanced(e.out.buffer, pc.maxBytes)))
      else if pc.TakingErr? then e.(err := e.err.(buffer := Advanced(e.err.buffer, pc.maxBytes)))
      else e
    case _ => e
  }

  /** The steps that write to an entry. */
  predicate Writes(a: Action) {
    a.Collect? || a.Publish? || a.Signal? || a.Seal? || a.Take?
  }

  function CallerApply(s: State, pc: Pc, a: Action): State
    requires CallerEnabled(s, pc, a)
  {
    if a.Spawn? then Put(s.(nextId := s.nextId + 1), s.nextId, NewEntry(a.piped))
    else if a.Insert? then s.(registered := s.registered + {pc.id})
    else if Writes(a) then Put(s, pc.id, EntryAfter(s.entries[pc.id], pc, a))
    else s
  }

  function PipeApply(p: Pipe, a: Action): Pipe
    requires a.ReadChunk? ==> p.taken + a.n <= |p.written|
    requires a.Append? ==> p.reader.Appending?
  {
    match a
    case ReadChunk(_, _, n) => p.(reader := Carrying(p.written[p.taken..p.taken + n]), taken := p.taken + n)
    case ReadEof(_, _) => p.(reader := Finished)
    case Append(_, _) => p.(reader := Reading, buffer := Appended(p.buffer, p.reader.chunk))
    case ChildWrites(_, _, bytes) => p.(written := p.written + bytes)
    case _ => p
  }

  function EntryApply(s: State, a: Action): State
    requires EntryEnabled(s, a)
  {
    var e := s.entries[a.id];
    if a.ChildExits? then Put(s, a.id, e.(child := Gone(a.code)))
    else Put(s, a.id, e.With(a.st, PipeApply(e.At(a.st), a)))
  }

  ghost function Apply(s: State, a: Action): State
    requires Enabled(s, a)
  {
    if a.Acquire? then
      match a.o
      case Caller(t) => Go(s, t, Entered(s.callers[t]))
      case ReaderOf(id, st) =>
        var p := s.entries[id].At(st);
        Put(s, id, s.entries[id].With(st, p.(reader := Appending(p.reader.chunk))))
    else if OnEntry(a) then EntryApply(s, a)
    else Go(CallerApply(s, s.callers[a.t], a), a.t, PcAfter(s, s.callers[a.t], a))
  }

  /** The state after a run of `n` client threads, or `None` when the sequence is not a run. */
  ghost function Exec(n: nat, trace: seq<Action>): Option<State> {
    if trace == [] then Some(Init(n))
    else
      match Exec(n, trace[..|trace| - 1])
      case None => None
      case Some(s) => if Enabled(s, trace[|trace| - 1]) then Some(Apply(s, trace[|trace| - 1])) else None
  }
}
