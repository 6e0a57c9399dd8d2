/**
 The cloud memory review queue: candidates are pushed, reviews change their status, and every
 change appends to an audit log. Storage writes succeed; a run is one process working on an
 initially empty store.
 */
module CloudMemory {
  import opened Basics
  import opened Text
  import opened Decimal

  datatype Status = Candidate | Approved | Rejected | Archived

  datatype Action = DidCreate | DidApprove | DidReject | DidArchive

  function ResultingStatus(a: Action): Option<Status> {
    match a
    case DidCreate => Some(Candidate)
    case DidApprove => Some(Approved)
    case DidReject => Some(Rejected)
    case DidArchive => Some(Archived)
  }

  datatype Scope = Scope(org: string, project: string)

  datatype Project = Project(id: string, name: string)

  datatype Request =
    Request(kind: string, content: string, tags: seq<string>, sensitivity: string, sourceUri: Option<string>)

  datatype Entry = Entry(id: string, project: Project, kind: string, status: Status, sensitivity: string,
                         content: string, tags: seq<string>)

  datatype Document = Document(entry: Entry, metadata: map<string, string>)

  datatype Audit = Audit(memoryId: string, action: Action, actor: string)

  datatype Error = BadRequest | NotFound | Internal

  datatype Result<+T> = Ok(value: T) | Fail(error: Error)

  type Key = (Scope, string)

  /** The documents and audit logs, and the next id to hand out. */
  datatype Store = Store(docs: map<Key, Document>, logs: map<Key, seq<Audit>>, counter: nat)

  const EMPTY := Store(map[], map[], 1)

  function MemoryId(n: nat): string {
    "mem_" + Print(n)
  }

  function Log(s: Store, key: Key): seq<Audit> {
    if key in s.logs then s.logs[key] else []
  }

  function Record(s: Store, scope: Scope, id: string, action: Action, actor: string): Store {
    s.(logs := s.logs[(scope, id) := Log(s, (scope, id)) + [Audit(id, action, actor)]])
  }

  /** The document a push creates. */
  function Pushed(id: string, project: Project, request: Request): Document {
    Document(Entry(id, project, request.kind, Candidate, request.sensitivity, Trim(request.content), request.tags),
             if request.sourceUri.Some? then map["source_uri" := request.sourceUri.value] else map[])
  }

  datatype Command =
    | Push(org: string, project: Project, request: Request, actor: string)
    | Review(org: string, projectId: string, memoryId: string, action: Action, actor: string)

  function ScopeOf(c: Command): Scope {
    match c
    case Push(org, project, _, _) => Scope(org, project.id)
    case Review(org, projectId, _, _, _) => Scope(org, projectId)
  }

  /** Whether a command is carried out: a push needs content, a review needs a stored entry. */
  predicate Accepted(s: Store, c: Command) {
    match c
    case Push(_, _, request, _) => Trim(request.content) != ""
    case Review(_, _, id, action, _) => ResultingStatus(action).Some? && (ScopeOf(c), id) in s.docs
  }

  function After(s: Store, c: Command): Store {
    if !Accepted(s, c) then s
    else
      match c
      case Push(_, project, request, actor) =>
        var id := MemoryId(s.counter);
        var key := (ScopeOf(c), id);
        var next := Store(s.docs[key := Pushed(id, project, request)], s.logs, s.counter + 1);
        Record(next, ScopeOf(c), id, DidCreate, actor)
      case Review(_, _, id, action, actor) =>
        var key := (ScopeOf(c), id);
        var doc := s.docs[key];
        var next := doc.(entry := doc.entry.(status := ResultingStatus(action).value));
        Record(s.(docs := s.docs[key := next]), ScopeOf(c), id, action, actor)
  }

  class MemoryQueue {
    var docs: map<Key, Document>
    var logs: map<Key, seq<Audit>>
    var counter: nat

    ghost function View(): Store
      reads this
    {
      Store(docs, logs, counter)
    }

    constructor ()
      ensures View() == EMPTY
    {
      docs, logs, counter := map[], map[], 1;
    }

    method RecordAudit(scope: Scope, id: string, action: Action, actor: string)
      modifies this`logs
      ensures View() == Record(old(View()), scope, id, action, actor)
    {
      var key := (scope, id);
      logs := logs[key := (if key in logs then logs[key] else []) + [Audit(id, action, actor)]];
    }

    method PushCandidate(org: string, project: Project, request: Request, actor: string) returns (r: Result<Entry>)
      modifies this
      ensures View() == After(old(View()), Push(org, project, request, actor))
      ensures r.Ok? <==> !Blank(request.content)
      ensures r.Fail? ==> r.error == BadRequest
      ensures r.Ok? ==> (Scope(org, project.id), r.value.id) in docs
                        && docs[(Scope(org, project.id), r.value.id)].entry == r.value
    {
      var content := Trim(request.content);
      BlankIffTrimEmpty(request.content);
      if content == "" {
        return Fail(BadRequest);
      }
      var id := MemoryId(counter);
      counter := counter + 1;
      var entry := Entry(id, project, request.kind, Candidate, request.sensitivity, content, []);
      for i := 0 to |request.tags|
        invariant entry == Entry(id, project, request.kind, Candidate, request.sensitivity, content, request.tags[..i])
      {
        entry := entry.(tags := entry.tags + [request.tags[i]]);
      }
      var scope := Scope(org, project.id);
      var document := Document(entry, map[]);
      if request.sourceUri.Some? {
        document := document.(metadata := document.metadata["source_uri" := request.sourceUri.value]);
      }
      assert request.tags[..|request.tags|] == request.tags;
      assert document == Pushed(id, project, request);
      docs := docs[(scope, id) := document];
      RecordAudit(scope, id, DidCreate, actor);
      r := Ok(entry);
    }

    method ReviewEntry(org: string, projectId: string, id: string, action: Action, actor: string)
      returns (r: Result<Entry>)
      modifies this
      ensures View() == After(old(View()), Review(org, projectId, id, action, actor))
      ensures r.Ok? <==> (Scope(org, projectId), id) in old(docs)
      ensures r.Fail? ==> r.error == NotFound
      ensures r.Ok? ==> (Scope(org, projectId), id) in docs && docs[(Scope(org, projectId), id)].entry == r.value
    {
      var status := ResultingStatus(action);
      if status.None? {
        return Fail(Internal);
      }
      var scope := Scope(org, projectId);
      if (scope, id) !in docs {
        return Fail(NotFound);
      }
      var document := docs[(scope, id)];
      var updated := document.entry.(status := status.value);
      docs := docs[(scope, id) := Document(updated, document.metadata)];
      RecordAudit(scope, id, action, actor);
      r := Ok(updated);
    }
  }

  // ----- Whole runs -----

  function Run(cmds: seq<Command>): Store {
    if cmds == [] then EMPTY else After(Run(cmds[..|cmds| - 1]), cmds[|cmds| - 1])
  }

  /** The reviews of one entry in a stretch of commands, as they are logged. */
  function ReviewsOf(cmds: seq<Command>, scope: Scope, id: string): seq<Audit> {
    if cmds == [] then []
    else
      var c := cmds[|cmds| - 1];
      ReviewsOf(cmds[..|cmds| - 1], scope, id) +
      (if c.Review? && ScopeOf(c) == scope && c.memoryId == id then [Audit(id, c.action, c.actor)] else [])
  }

  /** Candidate, then the status of the last review. */
  function StatusAfter(log: seq<Audit>): Status {
    if log == [] || ResultingStatus(log[|log| - 1].action).None? then Candidate
    else ResultingStatus(log[|log| - 1].action).value
  }

  /** Ids in use are below the counter, and only stored entries have logs. */
  ghost predicate IdsUsed(s: Store) {
    && (forall key :: key in s.docs ==> exists n: nat :: n < s.counter && key.1 == MemoryId(n))
    && (forall key :: key in s.logs ==> key in s.docs)
  }

  lemma MemoryIdInjective(a: nat, b: nat)
    requires MemoryId(a) == MemoryId(b)
    ensures a == b
  {
    PrintValue(a);
    PrintValue(b);
    assert MemoryId(a)[4..] == Print(a) && MemoryId(b)[4..] == Print(b);
  }

  lemma StepIdsUsed(s: Store, c: Command)
    requires IdsUsed(s)
    ensures IdsUsed(After(s, c))
  {
    var s' := After(s, c);
    forall key | key in s'.docs ensures exists n: nat :: n < s'.counter && key.1 == MemoryId(n) {
      if key in s.docs {
        var n: nat :| n < s.counter && key.1 == MemoryId(n);
        assert n < s'.counter;
      } else {
        assert s.counter < s'.counter && key.1 == MemoryId(s.counter);
      }
    }
  }

  lemma {:induction false} RunIdsUsed(cmds: seq<Command>)
    ensures IdsUsed(Run(cmds))
  {
    if cmds != [] {
      RunIdsUsed(cmds[..|cmds| - 1]);
      StepIdsUsed(Run(cmds[..|cmds| - 1]), cmds[|cmds| - 1]);
    }
  }

  /** The next id is in use nowhere. */
  lemma NextIdFresh(s: Store, scope: Scope)
    requires IdsUsed(s)
    ensures (scope, MemoryId(s.counter)) !in s.docs && (scope, MemoryId(s.counter)) !in s.logs
  {
    var key := (scope, MemoryId(s.counter));
    if key in s.docs {
      var n: nat :| n < s.counter && key.1 == MemoryId(n);
      MemoryIdInjective(n, s.counter);
    }
  }

  /** Command `p` pushed this entry, and everything about it follows from that push and the later reviews. */
  ghost predicate History(cmds: seq<Command>, key: Key, p: nat) {
    && p < |cmds| && cmds[p].Push? && ScopeOf(cmds[p]) == key.0
    && Accepted(Run(cmds[..p]), cmds[p])
    && key.1 == MemoryId(Run(cmds[..p]).counter)
    && key in Run(cmds).docs
    && var log := HistoryLog(cmds, key, p);
       && Log(Run(cmds), key) == log
       && Run(cmds).docs[key] ==
          var doc := Pushed(key.1, cmds[p].project, cmds[p].request);
          doc.(entry := doc.entry.(status := StatusAfter(log)))
  }

  lemma ReviewsOfMore(cmds: seq<Command>, p: nat, scope: Scope, id: string)
    requires p + 1 < |cmds|
    ensures var c := cmds[|cmds| - 1];
            ReviewsOf(cmds[p + 1..], scope, id) ==
            ReviewsOf(cmds[..|cmds| - 1][p + 1..], scope, id) +
            (if c.Review? && ScopeOf(c) == scope && c.memoryId == id then [Audit(id, c.action, c.actor)] else [])
  {
    var tail := cmds[p + 1..];
    assert tail[..|tail| - 1] == cmds[..|cmds| - 1][p + 1..];
  }

  predicate Reviews(c: Command, key: Key) {
    c.Review? && (ScopeOf(c), c.memoryId) == key
  }

  /** A review of an entry sets its status and extends its log; no other command touches it. */
  lemma StepOnEntry(s: Store, c: Command, key: Key)
    requires IdsUsed(s) && key in s.docs
    ensures key in After(s, c).docs
    ensures !Reviews(c, key) ==> After(s, c).docs[key] == s.docs[key] && Log(After(s, c), key) == Log(s, key)
    ensures Reviews(c, key) ==>
              && Log(After(s, c), key) == Log(s, key) + [Audit(key.1, c.action, c.actor)]
              && After(s, c).docs[key] ==
                 s.docs[key].(entry := s.docs[key].entry.(status := ResultingStatus(c.action).value))
  {
    NextIdFresh(s, ScopeOf(c));
  }

  /** The log of an entry that command `p` pushed: its creation, then its reviews. */
  function HistoryLog(cmds: seq<Command>, key: Key, p: nat): seq<Audit>
    requires p < |cmds| && cmds[p].Push?
  {
    [Audit(key.1, DidCreate, cmds[p].actor)] + ReviewsOf(cmds[p + 1..], key.0, key.1)
  }

  lemma HistoryLogMore(cmds: seq<Command>, key: Key, p: nat)
    requires p + 1 < |cmds| && cmds[p].Push?
    ensures var front, c := cmds[..|cmds| - 1], cmds[|cmds| - 1];
            HistoryLog(cmds, key, p) ==
            HistoryLog(front, key, p) + (if Reviews(c, key) then [Audit(key.1, c.action, c.actor)] else [])
  {
    ReviewsOfMore(cmds, p, key.0, key.1);
  }

  lemma StatusAfterMore(log: seq<Audit>, a: Audit)
    ensures StatusAfter(log + [a]) == ResultingStatus(a.action).value
  {
  }

  /** An entry that was already there keeps its history through one more command. */
  lemma HistoryGrows(cmds: seq<Command>, key: Key, p: nat)
    requires cmds != [] && History(cmds[..|cmds| - 1], key, p)
    ensures History(cmds, key, p)
  {
    var front, c := cmds[..|cmds| - 1], cmds[|cmds| - 1];
    assert front[..p] == cmds[..p] && front[p] == cmds[p];
    RunIdsUsed(front);
    StepOnEntry(Run(front), c, key);
    HistoryLogMore(cmds, key, p);
    if Reviews(c, key) {
      StatusAfterMore(HistoryLog(front, key, p), Audit(key.1, c.action, c.actor));
    }
  }

  /** A document appears only through a push, with a fresh log. */
  lemma PushCreates(s: Store, c: Command, key: Key)
    requires IdsUsed(s) && key in After(s, c).docs && key !in s.docs
    ensures c.Push? && Accepted(s, c) && key == (ScopeOf(c), MemoryId(s.counter))
    ensures After(s, c).docs[key] == Pushed(key.1, c.project, c.request)
    ensures Log(After(s, c), key) == [Audit(key.1, DidCreate, c.actor)]
  {
    NextIdFresh(s, ScopeOf(c));
  }

  /** An entry that the last command created starts its history there. */
  lemma HistoryStarts(cmds: seq<Command>, key: Key)
    requires cmds != [] && key in Run(cmds).docs && key !in Run(cmds[..|cmds| - 1]).docs
    ensures History(cmds, key, |cmds| - 1)
  {
    var p := |cmds| - 1;
    RunIdsUsed(cmds[..p]);
    PushCreates(Run(cmds[..p]), cmds[p], key);
    assert cmds[p + 1..] == [];
    var create := [Audit(key.1, DidCreate, cmds[p].actor)];
    assert create + [] == create;
  }

  lemma {:induction false} CounterGrows(cmds: seq<Command>, p: nat)
    requires p <= |cmds|
    ensures Run(cmds[..p]).counter <= Run(cmds).counter
  {
    if p == |cmds| {
      assert cmds[..p] == cmds;
    } else {
      var front := cmds[..|cmds| - 1];
      CounterGrows(front, p);
      assert front[..p] == cmds[..p];
    }
  }

  /** Command `p` is an accepted push. */
  ghost predicate PushesAt(cmds: seq<Command>, p: nat) {
    p < |cmds| && cmds[p].Push? && Accepted(Run(cmds[..p]), cmds[p])
  }

  /** A later push gets a larger number. */
  lemma PushCounts(cmds: seq<Command>, p: nat, q: nat)
    requires PushesAt(cmds, p) && p < q <= |cmds|
    ensures Run(cmds[..p]).counter < Run(cmds[..q]).counter
  {
    var later, next := cmds[..q], cmds[..p + 1];
    assert later[..p + 1] == next && next[..p] == cmds[..p];
    CounterGrows(later, p + 1);
  }

  lemma PushOrder(cmds: seq<Command>, p: nat, q: nat)
    requires PushesAt(cmds, p) && PushesAt(cmds, q)
    ensures p < q <==> Run(cmds[..p]).counter < Run(cmds[..q]).counter
    ensures p == q <==> Run(cmds[..p]).counter == Run(cmds[..q]).counter
  {
    if p < q {
      PushCounts(cmds, p, q);
    } else if q < p {
      PushCounts(cmds, q, p);
    }
  }

  /** One push only is behind an entry. */
  lemma HistoryUnique(cmds: seq<Command>, key: Key, p: nat, q: nat)
    requires History(cmds, key, p) && History(cmds, key, q)
    ensures p == q
  {
    MemoryIdInjective(Run(cmds[..p]).counter, Run(cmds[..q]).counter);
    PushOrder(cmds, p, q);
  }

  lemma {:induction false} PushBehind(cmds: seq<Command>, key: Key) returns (p: nat)
    requires key in Run(cmds).docs
    ensures History(cmds, key, p)
  {
    var front := cmds[..|cmds| - 1];
    if key in Run(front).docs {
      p := PushBehind(front, key);
      HistoryGrows(cmds, key, p);
    } else {
      p := |cmds| - 1;
      HistoryStarts(cmds, key);
    }
  }

  /**
   In every run of pushes and reviews, each stored entry has exactly one push behind it; its
   log is the creation followed by its reviews in order, its status is the fold of that log,
   and everything else about it is what was pushed.
   */
  lemma EveryEntryHasHistory(cmds: seq<Command>, key: Key) returns (p: nat)
    requires key in Run(cmds).docs
    ensures History(cmds, key, p)
    ensures forall q :: History(cmds, key, q) ==> q == p
  {
    p := PushBehind(cmds, key);
    forall q | History(cmds, key, q) ensures q == p {
      HistoryUnique(cmds, key, p, q);
    }
  }

  /** A stored entry is approved exactly when its latest audit event is an approval. */
  lemma {:induction false} ApprovedIffLastEvent(cmds: seq<Command>, key: Key)
    requires key in Run(cmds).docs
    ensures Log(Run(cmds), key) != []
    ensures Run(cmds).docs[key].entry.status == Approved <==>
            Log(Run(cmds), key)[|Log(Run(cmds), key)| - 1].action == DidApprove
  {
    var p := EveryEntryHasHistory(cmds, key);
  }

  /** In every run, the status of an entry is what its latest event says. */
  lemma {:induction false} StatusIsLastEvent(cmds: seq<Command>, key: Key)
    requires key in Run(cmds).docs
    ensures var log, status := Log(Run(cmds), key), Run(cmds).docs[key].entry.status;
            && log != []
            && (status == Candidate <==> log[|log| - 1].action == DidCreate)
            && (status == Approved <==> log[|log| - 1].action == DidApprove)
            && (status == Rejected <==> log[|log| - 1].action == DidReject)
            && (status == Archived <==> log[|log| - 1].action == DidArchive)
  {
    var p := EveryEntryHasHistory(cmds, key);
  }

  /** In every run, everything but the status of an entry is what its push said, field by field. */
  lemma EntryIsPushed(cmds: seq<Command>, key: Key) returns (p: nat)
    requires key in Run(cmds).docs
    ensures p < |cmds| && cmds[p].Push? && Scope(cmds[p].org, cmds[p].project.id) == key.0
    ensures var doc, project, request := Run(cmds).docs[key], cmds[p].project, cmds[p].request;
            && doc.entry.id == key.1 && doc.entry.project == project
            && doc.entry.kind == request.kind && doc.entry.sensitivity == request.sensitivity
            && doc.entry.content == Trim(request.content) && !Blank(request.content)
            && doc.entry.tags == request.tags
            && ("source_uri" in doc.metadata <==> request.sourceUri.Some?)
            && (forall name :: name in doc.metadata ==>
                  name == "source_uri" && request.sourceUri == Some(doc.metadata[name]))
    ensures Log(Run(cmds), key) != [] && Log(Run(cmds), key)[0] == Audit(key.1, DidCreate, cmds[p].actor)
  {
    p := EveryEntryHasHistory(cmds, key);
    BlankIffTrimEmpty(cmds[p].request.content);
  }

  predicate ReviewsAsCreated(c: Command, key: Key) {
    c.Review? && (ScopeOf(c), c.memoryId) == key && c.action == DidCreate
  }

  lemma {:induction false} ReviewsOfActions(cmds: seq<Command>, scope: Scope, id: string)
    ensures (exists a :: a in ReviewsOf(cmds, scope, id) && a.action == DidCreate) <==>
            (exists c :: c in cmds && ReviewsAsCreated(c, (scope, id)))
  {
    if cmds != [] {
      var front, last := cmds[..|cmds| - 1], cmds[|cmds| - 1];
      ReviewsOfActions(front, scope, id);
      assert forall c :: c in cmds <==> c in front || c == last;
      if ReviewsAsCreated(last, (scope, id)) {
        assert Audit(id, last.action, last.actor) in ReviewsOf(cmds, scope, id);
      }
    }
  }

  /**
   The creation is the only `created` event of a log exactly when no later review of the entry
   used that action, which `review` itself does not forbid.
   */
  lemma OnlyCreationIff(cmds: seq<Command>, key: Key, p: nat)
    requires History(cmds, key, p)
    ensures Log(Run(cmds), key)[0].action == DidCreate
    ensures (forall k :: 0 < k < |Log(Run(cmds), key)| ==> Log(Run(cmds), key)[k].action != DidCreate) <==>
            (forall c :: c in cmds[p + 1..] ==> !ReviewsAsCreated(c, key))
  {
    ReviewsOfActions(cmds[p + 1..], key.0, key.1);
    var log, reviews := Log(Run(cmds), key), ReviewsOf(cmds[p + 1..], key.0, key.1);
    assert forall k :: 0 < k < |log| ==> log[k] == reviews[k - 1];
    assert forall k :: 0 <= k < |reviews| ==> reviews[k] == log[k + 1];
  }

  lemma FirstPush(push: Command)
    requires push.Push? && Accepted(EMPTY, push)
    ensures var s, key := After(EMPTY, push), (ScopeOf(push), MemoryId(1));
            IdsUsed(s) && key in s.docs && Log(s, key) == [Audit(key.1, DidCreate, push.actor)]
  {
    StepIdsUsed(EMPTY, push);
  }

  lemma RunOfTwo(a: Command, b: Command)
    ensures Run([a, b]) == After(After(EMPTY, a), b)
  {
    var one, two := [a], [a, b];
    assert two[..|two| - 1] == one && one[..|one| - 1] == [];
    assert Run(one) == After(Run([]), a) && Run(two) == After(Run(one), b);
  }

  /** Such a log: any accepted push, then a review of that entry with the action `created`. */
  lemma SecondCreation(push: Command, actor: string) returns (cmds: seq<Command>, key: Key)
    requires push.Push? && Accepted(EMPTY, push)
    ensures key == (ScopeOf(push), MemoryId(1)) && key in Run(cmds).docs
    ensures cmds == [push, Review(key.0.org, key.0.project, key.1, DidCreate, actor)]
    ensures Log(Run(cmds), key) == [Audit(key.1, DidCreate, push.actor), Audit(key.1, DidCreate, actor)]
  {
    key := (ScopeOf(push), MemoryId(1));
    var review := Review(key.0.org, key.0.project, key.1, DidCreate, actor);
    cmds := [push, review];
    RunOfTwo(push, review);
    FirstPush(push);
    StepOnEntry(After(EMPTY, push), review, key);
  }
}
