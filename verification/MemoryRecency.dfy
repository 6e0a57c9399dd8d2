/**
 Whether a blank query returns the most recent approved memory. The storage backends list the
 documents of a project by id, compared as text, and ids are numbered in push order; so the
 entries that come first are the recent ones only when their numbers have more digits.
 */
module MemoryRecency {
  import opened Basics
  import opened Text
  import opened Decimal
  import opened CloudMemory
  import opened MemorySearch

  // ----- Text order and number order -----

  predicate TextLess(a: string, b: string) {
    b != "" && (a == "" || a[0] < b[0] || (a[0] == b[0] && TextLess(a[1..], b[1..])))
  }

  lemma {:induction false} TextLessIrreflexive(a: string)
    ensures !TextLess(a, a)
  {
    if a != "" {
      TextLessIrreflexive(a[1..]);
    }
  }

  lemma {:induction false} TextLessAfter(prefix: string, a: string, b: string)
    ensures TextLess(prefix + a, prefix + b) <==> TextLess(a, b)
  {
    if prefix == "" {
      assert prefix + a == a && prefix + b == b;
    } else {
      TextLessAfter(prefix[1..], a, b);
      assert (prefix + a)[1..] == prefix[1..] + a && (prefix + b)[1..] == prefix[1..] + b;
    }
  }

  lemma {:induction false} TextLessSnoc(a: string, c: char, b: string, d: char)
    requires |a| == |b|
    ensures TextLess(a + [c], b + [d]) <==> TextLess(a, b) || (a == b && c < d)
  {
    if a == "" {
      assert a + [c] == [c] && b + [d] == [d];
    } else {
      TextLessSnoc(a[1..], c, b[1..], d);
      assert (a + [c])[1..] == a[1..] + [c] && (b + [d])[1..] == b[1..] + [d];
      assert a == b <==> a[0] == b[0] && a[1..] == b[1..] by {
        assert a == [a[0]] + a[1..] && b == [b[0]] + b[1..];
      }
    }
  }

  /** A larger number has at least as many digits. */
  lemma {:induction false} LengthGrows(a: nat, b: nat)
    requires a <= b
    ensures |Print(a)| <= |Print(b)|
  {
    if a >= 10 {
      LengthGrows(a / 10, b / 10);
    }
  }

  lemma DigitOrder(a: nat, b: nat)
    requires a < 10 && b < 10
    ensures DigitChar(a) < DigitChar(b) <==> a < b
  {
  }

  lemma PrintEqual(a: nat, b: nat)
    ensures Print(a) == Print(b) <==> a == b
  {
    PrintValue(a);
    PrintValue(b);
  }

  /** Numbers with equally many digits are ordered as their texts are. */
  lemma {:induction false} SameLengthOrder(a: nat, b: nat)
    requires |Print(a)| == |Print(b)|
    ensures TextLess(Print(a), Print(b)) <==> a < b
  {
    if a < 10 {
      DigitOrder(a, b);
    } else {
      SameLengthOrder(a / 10, b / 10);
      PrintEqual(a / 10, b / 10);
      DigitOrder(a % 10, b % 10);
      TextLessSnoc(Print(a / 10), DigitChar(a % 10), Print(b / 10), DigitChar(b % 10));
    }
  }

  /** Of two ids in text order, the first is the later one exactly when it is longer. */
  lemma IdOrder(a: nat, b: nat)
    requires TextLess(MemoryId(a), MemoryId(b))
    ensures a > b <==> |MemoryId(a)| > |MemoryId(b)|
  {
    TextLessAfter("mem_", Print(a), Print(b));
    if |Print(a)| == |Print(b)| {
      SameLengthOrder(a, b);
    } else if a <= b {
      LengthGrows(a, b);
    } else {
      LengthGrows(b, a);
    }
  }

  /** From the tenth push on, text order is not push order. */
  lemma TenthBeforeSecond()
    ensures TextLess(MemoryId(10), MemoryId(2))
  {
    assert Print(10) == Print(1) + ['0'];
    assert Print(1) == ['1'] && Print(2) == ['2'];
    assert TextLess(Print(10), Print(2));
    TextLessAfter("mem_", Print(10), Print(2));
  }

  // ----- The listing of a project -----

  predicate SortedById(docs: seq<Document>) {
    forall i, j :: 0 <= i < j < |docs| ==> TextLess(docs[i].entry.id, docs[j].entry.id)
  }

  /** What the backends list: the documents of the project, by id. */
  ghost predicate ListsProject(s: Store, scope: Scope, docs: seq<Document>) {
    && SortedById(docs)
    && forall d :: d in docs <==> (scope, d.entry.id) in s.docs && s.docs[(scope, d.entry.id)] == d
  }

  predicate EntriesSorted(listed: seq<Entry>) {
    forall i, j :: 0 <= i < j < |listed| ==> TextLess(listed[i].id, listed[j].id)
  }

  ghost predicate AllStored(s: Store, scope: Scope, listed: seq<Entry>) {
    forall i :: 0 <= i < |listed| ==> (scope, listed[i].id) in s.docs
  }

  lemma ApprovedListing(s: Store, scope: Scope, docs: seq<Document>)
    requires ListsProject(s, scope, docs)
    ensures var listed := ListMemory(docs, Some(Approved)); EntriesSorted(listed) && AllStored(s, scope, listed)
  {
    var at := ListMemoryFilters(docs, Some(Approved));
    var listed := ListMemory(docs, Some(Approved));
    forall i | 0 <= i < |listed| ensures (scope, listed[i].id) in s.docs {
      assert docs[at[i]] in docs;
    }
  }

  /** Entry `e` was pushed after entry `o`. */
  ghost predicate PushedAfter(cmds: seq<Command>, scope: Scope, e: Entry, o: Entry) {
    forall p, q :: History(cmds, (scope, e.id), p) && History(cmds, (scope, o.id), q) ==> p > q
  }

  /** Every returned entry was pushed after every omitted one. */
  ghost predicate MostRecent(cmds: seq<Command>, scope: Scope, listed: seq<Entry>, result: seq<Entry>) {
    forall e, o :: e in result && o in listed && o !in result ==> PushedAfter(cmds, scope, e, o)
  }

  /** The first `limit` entries have longer ids than all the others. */
  predicate LongerFirst(listed: seq<Entry>, limit: nat) {
    forall i, j :: 0 <= i < limit <= j < |listed| ==> |listed[i].id| > |listed[j].id|
  }

  lemma LaterIffLonger(cmds: seq<Command>, scope: Scope, e: Entry, o: Entry)
    requires (scope, e.id) in Run(cmds).docs && (scope, o.id) in Run(cmds).docs && TextLess(e.id, o.id)
    ensures PushedAfter(cmds, scope, e, o) <==> |e.id| > |o.id|
  {
    var p := EveryEntryHasHistory(cmds, (scope, e.id));
    var q := EveryEntryHasHistory(cmds, (scope, o.id));
    PushOrder(cmds, p, q);
    IdOrder(Run(cmds[..p]).counter, Run(cmds[..q]).counter);
  }

  /** In a sorted listing the omitted entries are those from `limit` on. */
  lemma OmittedAre(listed: seq<Entry>, limit: nat, j: nat)
    requires EntriesSorted(listed) && j < |listed|
    ensures listed[j] in Take(listed, limit) <==> j < limit
  {
    if j < limit {
      assert Take(listed, limit)[j] == listed[j];
    } else if listed[j] in Take(listed, limit) {
      var i :| 0 <= i < limit && i < |listed| && listed[i] == listed[j];
      TextLessIrreflexive(listed[i].id);
    }
  }

  lemma LongerIsRecent(cmds: seq<Command>, scope: Scope, listed: seq<Entry>, limit: nat)
    requires EntriesSorted(listed) && AllStored(Run(cmds), scope, listed) && LongerFirst(listed, limit)
    ensures MostRecent(cmds, scope, listed, Take(listed, limit))
  {
    var result := Take(listed, limit);
    forall e, o | e in result && o in listed && o !in result ensures PushedAfter(cmds, scope, e, o) {
      var i :| 0 <= i < |result| && result[i] == e;
      var j :| 0 <= j < |listed| && listed[j] == o;
      OmittedAre(listed, limit, j);
      assert listed[i] == e && i < limit <= j;
      LaterIffLonger(cmds, scope, listed[i], listed[j]);
    }
  }

  lemma RecentIsLonger(cmds: seq<Command>, scope: Scope, listed: seq<Entry>, limit: nat)
    requires EntriesSorted(listed) && AllStored(Run(cmds), scope, listed)
    requires MostRecent(cmds, scope, listed, Take(listed, limit))
    ensures LongerFirst(listed, limit)
  {
    forall i, j | 0 <= i < limit <= j < |listed| ensures |listed[i].id| > |listed[j].id| {
      OmittedAre(listed, limit, i);
      OmittedAre(listed, limit, j);
      LaterIffLonger(cmds, scope, listed[i], listed[j]);
    }
  }

  /**
   The exact condition, in every run of pushes and reviews: a blank query returns the most recent
   approved entries of a project if and only if the ids it returns, the first of the listing, are
   all longer than the ids it leaves out.
   */
  lemma BlankQueryRecentIff(cmds: seq<Command>, scope: Scope, docs: seq<Document>,
                            lower: string -> string, query: string, limit: nat)
    requires ListsProject(Run(cmds), scope, docs) && Blank(lower(query))
    ensures var listed := ListMemory(docs, Some(Approved));
            MostRecent(cmds, scope, listed, Search(lower, docs, query, limit)) <==> LongerFirst(listed, limit)
  {
    var listed := ListMemory(docs, Some(Approved));
    BlankQuery(lower, docs, query, limit);
    ApprovedListing(Run(cmds), scope, docs);
    if LongerFirst(listed, limit) {
      LongerIsRecent(cmds, scope, listed, limit);
    }
    if MostRecent(cmds, scope, listed, Take(listed, limit)) {
      RecentIsLonger(cmds, scope, listed, limit);
    }
  }

  /** The approved entries are listed in push order, as they are while all ids have one length. */
  predicate NoneLongerFirst(listed: seq<Entry>) {
    forall i, j :: 0 <= i < j < |listed| ==> |listed[i].id| <= |listed[j].id|
  }

  /**
   So, on a listing in push order, a blank query returns the most recent entries if and only if
   it returns none or all of them.
   */
  lemma InPushOrderIff(cmds: seq<Command>, scope: Scope, docs: seq<Document>,
                       lower: string -> string, query: string, limit: nat)
    requires ListsProject(Run(cmds), scope, docs) && Blank(lower(query))
    requires NoneLongerFirst(ListMemory(docs, Some(Approved)))
    ensures var listed := ListMemory(docs, Some(Approved));
            MostRecent(cmds, scope, listed, Search(lower, docs, query, limit)) <==>
            limit == 0 || limit >= |listed|
  {
    BlankQueryRecentIff(cmds, scope, docs, lower, query, limit);
    var listed := ListMemory(docs, Some(Approved));
    if 0 < limit < |listed| {
      assert |listed[limit - 1].id| <= |listed[limit].id|;
    }
  }

  // ----- A run where it fails -----

  lemma RunMore(cmds: seq<Command>, c: Command)
    ensures Run(cmds + [c]) == After(Run(cmds), c)
  {
    assert (cmds + [c])[..|cmds|] == cmds;
  }

  function Approval(scope: Scope, n: nat, actor: string): Command {
    Review(scope.org, scope.project, MemoryId(n), DidApprove, actor)
  }

  function ApprovedDocument(push: Command, n: nat): Document
    requires push.Push?
  {
    var doc := Pushed(MemoryId(n), push.project, push.request);
    doc.(entry := doc.entry.(status := Approved))
  }

  lemma TwoPushed(first: Command, second: Command)
    requires first.Push? && second.Push? && ScopeOf(first) == ScopeOf(second)
    requires Accepted(EMPTY, first) && Accepted(EMPTY, second)
    ensures var scope, s := ScopeOf(first), After(After(EMPTY, first), second);
            && s.docs == map[(scope, MemoryId(1)) := Pushed(MemoryId(1), first.project, first.request),
                             (scope, MemoryId(2)) := Pushed(MemoryId(2), second.project, second.request)]
  {
  }

  function TwoCommands(first: Command, second: Command, actor: string): seq<Command> {
    [first, second, Approval(ScopeOf(first), 1, actor), Approval(ScopeOf(first), 2, actor)]
  }

  lemma RunTwoCommands(first: Command, second: Command, actor: string)
    ensures var scope := ScopeOf(first);
            Run(TwoCommands(first, second, actor)) ==
            After(After(After(After(EMPTY, first), second), Approval(scope, 1, actor)), Approval(scope, 2, actor))
  {
    var c, d := Approval(ScopeOf(first), 1, actor), Approval(ScopeOf(first), 2, actor);
    RunMore([], first);
    RunMore([first], second);
    RunMore([first, second], c);
    RunMore([first, second, c], d);
    assert [] + [first] == [first] && [first] + [second] == [first, second];
    assert [first, second] + [c] == [first, second, c] && [first, second, c] + [d] == [first, second, c, d];
  }

  /** Two entries pushed and approved. */
  lemma TwoApproved(first: Command, second: Command, actor: string)
    requires first.Push? && second.Push? && ScopeOf(first) == ScopeOf(second)
    requires Accepted(EMPTY, first) && Accepted(EMPTY, second)
    ensures var scope := ScopeOf(first);
            Run(TwoCommands(first, second, actor)).docs ==
            map[(scope, MemoryId(1)) := ApprovedDocument(first, 1), (scope, MemoryId(2)) := ApprovedDocument(second, 2)]
  {
    RunTwoCommands(first, second, actor);
    TwoPushed(first, second);
    if MemoryId(1) == MemoryId(2) {
      MemoryIdInjective(1, 2);
    }
  }

  lemma ListedOfTwo(a: Document, b: Document)
    requires a.entry.status == Approved && b.entry.status == Approved
    ensures ListMemory([a, b], Some(Approved)) == [a.entry, b.entry]
  {
    var one, two := [a], [a, b];
    assert two[..|two| - 1] == one && one[..|one| - 1] == [];
    assert ListMemory(one, Some(Approved)) == [a.entry];
  }

  lemma TwoListed(s: Store, scope: Scope, a: Document, b: Document)
    requires a.entry.id == MemoryId(1) && b.entry.id == MemoryId(2)
    requires s.docs == map[(scope, MemoryId(1)) := a, (scope, MemoryId(2)) := b]
    ensures ListsProject(s, scope, [a, b])
  {
    assert Print(1) == ['1'] && Print(2) == ['2'];
    TextLessAfter("mem_", Print(1), Print(2));
  }

  /** Two pushes, two approvals, a blank query with limit 1: the older entry is returned. */
  lemma OldestReturned(first: Command, second: Command, actor: string, lower: string -> string, query: string)
    returns (docs: seq<Document>)
    requires first.Push? && second.Push? && ScopeOf(first) == ScopeOf(second)
    requires Accepted(EMPTY, first) && Accepted(EMPTY, second) && Blank(lower(query))
    ensures var cmds, scope := TwoCommands(first, second, actor), ScopeOf(first);
            var found := Search(lower, docs, query, 1);
            && ListsProject(Run(cmds), scope, docs)
            && |found| == 1 && found[0].id == MemoryId(1)
            && !MostRecent(cmds, scope, ListMemory(docs, Some(Approved)), found)
  {
    var cmds, scope := TwoCommands(first, second, actor), ScopeOf(first);
    var a, b := ApprovedDocument(first, 1), ApprovedDocument(second, 2);
    docs := [a, b];
    TwoApproved(first, second, actor);
    TwoListed(Run(cmds), scope, a, b);
    ListedOfTwo(a, b);
    BlankQuery(lower, docs, query, 1);
    assert |MemoryId(1)| == |MemoryId(2)|;
    InPushOrderIff(cmds, scope, docs, lower, query, 1);
  }
}
