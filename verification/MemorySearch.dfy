/**
 Retrieval from the memory queue: approved entries ranked by keyword overlap, best first, with
 ties in listing order. Lower-casing is a parameter; documents come in the order the storage
 backend lists them.
 */
module MemorySearch {
  import opened Basics
  import opened Text
  import opened CloudMemory

  function ListMemory(docs: seq<Document>, status: Option<Status>): seq<Entry> {
    if docs == [] then []
    else
      var e := docs[|docs| - 1].entry;
      ListMemory(docs[..|docs| - 1], status) + (if status.None? || e.status == status.value then [e] else [])
  }

  function Words(s: string): seq<string>
    decreases |s|
  {
    if s == "" then []
    else if IsWhitespace(s[0]) then Words(s[1..])
    else
      var n := WordLength(s);
      [s[..n]] + Words(s[n..])
  }

  function WordLength(s: string): (n: nat)
    ensures n <= |s|
    ensures s != "" && !IsWhitespace(s[0]) ==> n > 0
  {
    if s == "" || IsWhitespace(s[0]) then 0 else 1 + WordLength(s[1..])
  }

  /** `str::matches(term).count()`: occurrences that do not overlap, from the left. */
  function Count(text: string, term: string): nat
    requires term != ""
    decreases |text|
  {
    if |text| < |term| then 0
    else if term <= text then 1 + Count(text[|term|..], term)
    else Count(text[1..], term)
  }

  predicate NonEmpty(terms: seq<string>) {
    forall i :: 0 <= i < |terms| ==> terms[i] != ""
  }

  lemma {:induction false} WordsNonEmpty(s: string)
    ensures NonEmpty(Words(s))
    decreases |s|
  {
    if s != "" {
      if IsWhitespace(s[0]) {
        WordsNonEmpty(s[1..]);
      } else {
        WordsNonEmpty(s[WordLength(s)..]);
      }
    }
  }

  function Score(text: string, terms: seq<string>): nat
    requires NonEmpty(terms)
  {
    if terms == [] then 0 else Score(text, terms[..|terms| - 1]) + Count(text, terms[|terms| - 1])
  }

  /** An entry with its score and its place in the listing. */
  datatype Scored = Scored(score: nat, pos: nat, entry: Entry)

  function ScoreAll(lower: string -> string, entries: seq<Entry>, terms: seq<string>): seq<Scored>
    requires NonEmpty(terms)
  {
    if entries == [] then []
    else
      var last := |entries| - 1;
      var score := Score(lower(entries[last].content), terms);
      ScoreAll(lower, entries[..last], terms) + (if score > 0 then [Scored(score, last, entries[last])] else [])
  }

  /** A stable sort by decreasing score: each element goes after everything scoring at least as much. */
  function Insert(sorted: seq<Scored>, x: Scored): seq<Scored> {
    if sorted == [] || sorted[0].score < x.score then [x] + sorted
    else [sorted[0]] + Insert(sorted[1..], x)
  }

  function SortByScore(xs: seq<Scored>): seq<Scored> {
    if xs == [] then [] else Insert(SortByScore(xs[..|xs| - 1]), xs[|xs| - 1])
  }

  function Entries(xs: seq<Scored>): seq<Entry> {
    seq(|xs|, i requires 0 <= i < |xs| => xs[i].entry)
  }

  function Search(lower: string -> string, docs: seq<Document>, query: string, limit: nat): seq<Entry> {
    var approved := ListMemory(docs, Some(Approved));
    var terms := Words(lower(query));
    WordsNonEmpty(lower(query));
    if terms == [] then Take(approved, limit)
    else Entries(Take(SortByScore(ScoreAll(lower, approved, terms)), limit))
  }

  // ----- What the ranking promises -----

  /** Higher score first; equal scores in listing order. */
  predicate Before(a: Scored, b: Scored) {
    a.score > b.score || (a.score == b.score && a.pos < b.pos)
  }

  predicate Ranked(xs: seq<Scored>) {
    forall i, j :: 0 <= i < j < |xs| ==> Before(xs[i], xs[j])
  }

  predicate InListingOrder(xs: seq<Scored>) {
    forall i, j :: 0 <= i < j < |xs| ==> xs[i].pos < xs[j].pos
  }

  lemma {:induction false} InsertKeeps(sorted: seq<Scored>, x: Scored)
    ensures multiset(Insert(sorted, x)) == multiset(sorted) + multiset{x}
  {
    if sorted != [] && sorted[0].score >= x.score {
      InsertKeeps(sorted[1..], x);
      assert sorted == [sorted[0]] + sorted[1..];
    }
  }

  lemma {:induction false} InsertRanked(sorted: seq<Scored>, x: Scored)
    requires Ranked(sorted) && forall y :: y in sorted ==> y.pos < x.pos
    ensures Ranked(Insert(sorted, x))
  {
    if sorted != [] && sorted[0].score >= x.score {
      InsertRanked(sorted[1..], x);
      InsertKeeps(sorted[1..], x);
      var rest := Insert(sorted[1..], x);
      forall y | y in rest ensures Before(sorted[0], y) {
        assert y in multiset(rest);
        assert y in sorted[1..] || y == x;
      }
    }
  }

  lemma SameElements<T>(a: seq<T>, b: seq<T>)
    requires multiset(a) == multiset(b)
    ensures forall x :: x in a <==> x in b
  {
    assert forall x :: x in a <==> x in multiset(a);
    assert forall x :: x in b <==> x in multiset(b);
  }

  lemma {:induction false} SortRanks(xs: seq<Scored>)
    requires InListingOrder(xs)
    ensures Ranked(SortByScore(xs)) && multiset(SortByScore(xs)) == multiset(xs)
  {
    if xs != [] {
      var front, last := xs[..|xs| - 1], xs[|xs| - 1];
      SortRanks(front);
      SameElements(SortByScore(front), front);
      InsertRanked(SortByScore(front), last);
      InsertKeeps(SortByScore(front), last);
      assert xs == front + [last];
    }
  }

  lemma SameFirst(a: seq<Scored>, b: seq<Scored>)
    requires Ranked(a) && Ranked(b) && a != [] && multiset(a) == multiset(b)
    ensures b != [] && a[0] == b[0]
  {
    SameElements(a, b);
    assert a[0] in a && a[0] in b && b[0] in a;
    var i :| 0 <= i < |b| && b[i] == a[0];
    var j :| 0 <= j < |a| && a[j] == b[0];
  }

  lemma SameTails<T>(a: seq<T>, b: seq<T>)
    requires a != [] && b != [] && a[0] == b[0] && multiset(a) == multiset(b)
    ensures multiset(a[1..]) == multiset(b[1..])
    ensures a[1..] == b[1..] ==> a == b
  {
    assert a == [a[0]] + a[1..] && b == [b[0]] + b[1..];
    assert multiset(a[1..]) == multiset(a) - multiset{a[0]};
    assert multiset(b[1..]) == multiset(b) - multiset{b[0]};
  }

  lemma RankedTail(a: seq<Scored>)
    requires Ranked(a) && a != []
    ensures Ranked(a[1..])
  {
  }

  /** A ranking is unique, so any stable sort gives this one. */
  lemma {:induction false} RankingUnique(a: seq<Scored>, b: seq<Scored>)
    requires Ranked(a) && Ranked(b) && multiset(a) == multiset(b)
    ensures a == b
  {
    if a == [] {
      assert |b| == |multiset(b)|;
    } else {
      SameFirst(a, b);
      SameTails(a, b);
      RankedTail(a);
      RankedTail(b);
      RankingUnique(a[1..], b[1..]);
    }
  }

  /** Entry `x` of the listing, with its positive score. */
  ghost predicate IsCandidate(lower: string -> string, approved: seq<Entry>, terms: seq<string>, x: Scored)
    requires NonEmpty(terms)
  {
    && x.pos < |approved| && x.entry == approved[x.pos]
    && x.score == Score(lower(x.entry.content), terms) > 0
  }

  lemma {:induction false} ScoreAllFilters(lower: string -> string, approved: seq<Entry>, terms: seq<string>)
    requires NonEmpty(terms)
    ensures InListingOrder(ScoreAll(lower, approved, terms))
    ensures forall x :: x in ScoreAll(lower, approved, terms) <==> IsCandidate(lower, approved, terms, x)
  {
    if approved != [] {
      var front := approved[..|approved| - 1];
      ScoreAllFilters(lower, front, terms);
      var before := ScoreAll(lower, front, terms);
      assert forall i :: 0 <= i < |before| ==> before[i] in before;
      assert forall x :: x in before ==> x.pos < |front|;
    }
  }

  /**
   Stable top-k: for a query with terms the result is the first `limit` entries of the unique
   ranking of all approved entries with a positive score.
   */
  lemma SearchIsTopK(lower: string -> string, docs: seq<Document>, query: string, limit: nat)
    returns (ranking: seq<Scored>)
    requires Words(lower(query)) != []
    ensures NonEmpty(Words(lower(query))) && Ranked(ranking)
    ensures forall x :: x in ranking <==> IsCandidate(lower, ListMemory(docs, Some(Approved)), Words(lower(query)), x)
    ensures Search(lower, docs, query, limit) == Entries(Take(ranking, limit))
  {
    WordsNonEmpty(lower(query));
    var approved, terms := ListMemory(docs, Some(Approved)), Words(lower(query));
    var scored := ScoreAll(lower, approved, terms);
    ScoreAllFilters(lower, approved, terms);
    SortRanks(scored);
    ranking := SortByScore(scored);
    SameElements(ranking, scored);
  }

  /** At most `limit` entries, in ranking order, and nothing left out ranks before anything returned. */
  lemma NothingBetterOmitted(ranking: seq<Scored>, limit: nat, i: nat, x: Scored)
    requires Ranked(ranking) && x in ranking && x !in Take(ranking, limit)
    requires i < |Take(ranking, limit)|
    ensures |Take(ranking, limit)| == limit && Before(Take(ranking, limit)[i], x)
  {
    var j :| 0 <= j < |ranking| && ranking[j] == x;
    assert j >= limit;
  }

  predicate Wanted(d: Document, status: Option<Status>) {
    status.None? || d.entry.status == status.value
  }

  /** `at` picks out, in order, exactly the positions of the wanted documents. */
  ghost predicate PicksWanted(docs: seq<Document>, status: Option<Status>, at: seq<nat>) {
    && (forall k :: 0 <= k < |at| ==> at[k] < |docs|)
    && (forall j, k :: 0 <= j < k < |at| ==> at[j] < at[k])
    && (forall i: nat :: i in at <==> i < |docs| && Wanted(docs[i], status))
  }

  /** The positions picked from all but the last document, and the last one if it is wanted. */
  lemma PicksOneMore(docs: seq<Document>, status: Option<Status>, front: seq<nat>, at: seq<nat>)
    requires docs != [] && PicksWanted(docs[..|docs| - 1], status, front)
    requires at == front + if Wanted(docs[|docs| - 1], status) then [|docs| - 1] else []
    ensures PicksWanted(docs, status, at)
  {
    forall i: nat ensures i in at <==> i < |docs| && Wanted(docs[i], status) {
      assert i in at <==> i in front || (i == |docs| - 1 && Wanted(docs[|docs| - 1], status));
    }
  }

  /** A listing is the stored documents of the wanted status, each once, in storage order. */
  lemma {:induction false} ListMemoryFilters(docs: seq<Document>, status: Option<Status>) returns (at: seq<nat>)
    ensures PicksWanted(docs, status, at)
    ensures |ListMemory(docs, status)| == |at|
    ensures forall k :: 0 <= k < |at| ==> ListMemory(docs, status)[k] == docs[at[k]].entry
  {
    if docs == [] {
      at := [];
    } else {
      var last := |docs| - 1;
      var front := ListMemoryFilters(docs[..last], status);
      at := front + if Wanted(docs[last], status) then [last] else [];
      PicksOneMore(docs, status, front, at);
    }
  }

  /** A query has no terms exactly when it is blank; it then lists the first approved entries. */
  lemma BlankQuery(lower: string -> string, docs: seq<Document>, query: string, limit: nat)
    ensures Words(lower(query)) == [] <==> Blank(lower(query))
    ensures Blank(lower(query)) ==> Search(lower, docs, query, limit) == Take(ListMemory(docs, Some(Approved)), limit)
  {
    WordsOfBlank(lower(query));
  }

  lemma {:induction false} WordsOfBlank(s: string)
    ensures Words(s) == [] <==> Blank(s)
  {
    if s != "" && IsWhitespace(s[0]) {
      WordsOfBlank(s[1..]);
      assert Blank(s[1..]) ==> Blank(s) by {
        assert forall i :: 0 < i < |s| ==> s[i] == s[1..][i - 1];
      }
    }
  }

  ghost predicate Occurs(text: string, term: string) {
    exists i :: 0 <= i <= |text| && term <= text[i..]
  }

  /** A term counts for an entry exactly when it occurs in it. */
  lemma {:induction false} CountsIffOccurs(text: string, term: string)
    requires term != ""
    ensures Count(text, term) > 0 <==> Occurs(text, term)
    decreases |text|
  {
    if |text| >= |term| {
      if term <= text {
        assert text[0..] == text;
      } else {
        CountsIffOccurs(text[1..], term);
        if Occurs(text, term) {
          var i :| 0 <= i <= |text| && term <= text[i..];
          assert text[0..] == text;
          assert text[1..][i - 1..] == text[i..];
        }
        if Occurs(text[1..], term) {
          var i :| 0 <= i <= |text| - 1 && term <= text[1..][i..];
          assert text[1..][i..] == text[i + 1..];
        }
      }
    }
  }

  predicate OccursAt(text: string, term: string, i: nat) {
    i + |term| <= |text| && text[i..i + |term|] == term
  }

  predicate NoneWithin(text: string, term: string, lo: nat, hi: nat) {
    forall k: nat :: lo <= k < hi ==> !OccursAt(text, term, k)
  }

  /**
   `at` are the occurrences to count from `from` on: the next one, then on from its end, until
   there is none.
   */
  predicate Counted(text: string, term: string, from: nat, at: seq<nat>)
    decreases |at|
  {
    if at == [] then NoneWithin(text, term, from, |text| + 1)
    else
      && from <= at[0] && OccursAt(text, term, at[0]) && NoneWithin(text, term, from, at[0])
      && Counted(text, term, at[0] + |term|, at[1..])
  }

  lemma CountedLater(text: string, term: string, from: nat, at: seq<nat>)
    requires !OccursAt(text, term, from) && Counted(text, term, from + 1, at)
    ensures Counted(text, term, from, at)
  {
  }

  lemma {:induction false} CountFrom(text: string, term: string, from: nat) returns (at: seq<nat>)
    requires term != "" && from <= |text|
    ensures Counted(text, term, from, at) && Count(text[from..], term) == |at|
    decreases |text| - from
  {
    var rest := text[from..];
    if |rest| < |term| {
      at := [];
    } else {
      assert text[from..from + |term|] == rest[..|term|];
      if term <= rest {
        at := CountFrom(text, term, from + |term|);
        assert rest[|term|..] == text[from + |term|..];
        assert ([from] + at)[1..] == at;
        at := [from] + at;
      } else {
        at := CountFrom(text, term, from + 1);
        assert rest[1..] == text[from + 1..];
        CountedLater(text, term, from, at);
      }
    }
  }

  /** The count of a term is the number of its occurrences, from the left, that do not overlap. */
  lemma CountIs(text: string, term: string) returns (at: seq<nat>)
    requires term != ""
    ensures Counted(text, term, 0, at) && Count(text, term) == |at|
  {
    at := CountFrom(text, term, 0);
    assert text[0..] == text;
  }

  /** There is only one such list, so this is the count. */
  lemma {:induction false} CountedUnique(text: string, term: string, from: nat, a: seq<nat>, b: seq<nat>)
    requires Counted(text, term, from, a) && Counted(text, term, from, b)
    ensures a == b
    decreases |a|
  {
    if a != [] && b != [] {
      CountedUnique(text, term, a[0] + |term|, a[1..], b[1..]);
      assert a == [a[0]] + a[1..] && b == [b[0]] + b[1..];
    }
  }

  /** The counted occurrences are apart from one another. */
  lemma {:induction false} CountedApart(text: string, term: string, from: nat, at: seq<nat>, i: nat)
    requires Counted(text, term, from, at) && i < |at|
    ensures from <= at[i] && OccursAt(text, term, at[i])
    ensures i > 0 ==> at[i - 1] + |term| <= at[i]
    decreases |at|
  {
    if i > 0 {
      CountedApart(text, term, at[0] + |term|, at[1..], i - 1);
    }
  }

  /** The score adds up the counts of all terms of the query. */
  lemma {:induction false} ScoreIsSum(text: string, a: seq<string>, b: seq<string>)
    requires NonEmpty(a + b) && NonEmpty(a) && NonEmpty(b)
    ensures Score(text, []) == 0
    ensures |b| == 1 ==> Score(text, b) == Count(text, b[0])
    ensures Score(text, a + b) == Score(text, a) + Score(text, b)
  {
    if b == [] {
      assert a + b == a;
    } else {
      var front := b[..|b| - 1];
      assert (a + b)[..|a + b| - 1] == a + front;
      ScoreIsSum(text, a, front);
    }
  }

  /** A stretch of text. */
  datatype Span = Span(from: nat, to: nat)

  /** A stretch without white space that cannot be made longer. */
  predicate IsWord(s: string, w: Span) {
    && w.from < w.to <= |s|
    && (forall k :: w.from <= k < w.to ==> !IsWhitespace(s[k]))
    && (w.from == 0 || IsWhitespace(s[w.from - 1]))
    && (w.to == |s| || IsWhitespace(s[w.to]))
  }

  predicate AllSpace(s: string, lo: nat, hi: nat) {
    forall k :: lo <= k < hi && k < |s| ==> IsWhitespace(s[k])
  }

  /** `at` are the words from `from` on, in order, with only white space between them, and `words` their texts. */
  predicate WordsAt(s: string, from: nat, at: seq<Span>, words: seq<string>)
    decreases |at|
  {
    if at == [] then words == [] && AllSpace(s, from, |s|)
    else
      && words != [] && from <= at[0].from && AllSpace(s, from, at[0].from) && IsWord(s, at[0])
      && words[0] == s[at[0].from..at[0].to]
      && WordsAt(s, at[0].to, at[1..], words[1..])
  }

  lemma {:induction false} WordLengthIs(s: string)
    ensures forall k :: 0 <= k < WordLength(s) ==> !IsWhitespace(s[k])
    ensures WordLength(s) < |s| ==> IsWhitespace(s[WordLength(s)])
  {
    if s != "" && !IsWhitespace(s[0]) {
      WordLengthIs(s[1..]);
      assert forall k :: 0 < k < |s| ==> s[k] == s[1..][k - 1];
    }
  }

  lemma WordsAtSpace(s: string, from: nat, at: seq<Span>, words: seq<string>)
    requires from < |s| && IsWhitespace(s[from]) && WordsAt(s, from + 1, at, words)
    ensures WordsAt(s, from, at, words)
  {
  }

  lemma WordsAtWord(s: string, from: nat, to: nat, at: seq<Span>, words: seq<string>)
    requires IsWord(s, Span(from, to)) && WordsAt(s, to, at, words)
    ensures WordsAt(s, from, [Span(from, to)] + at, [s[from..to]] + words)
  {
    assert ([Span(from, to)] + at)[1..] == at && ([s[from..to]] + words)[1..] == words;
  }

  /** The word that starts at `from`. */
  lemma NextWord(s: string, from: nat)
    requires from < |s| && !IsWhitespace(s[from]) && (from == 0 || IsWhitespace(s[from - 1]))
    ensures var n := WordLength(s[from..]);
            && IsWord(s, Span(from, from + n))
            && Words(s[from..]) == [s[from..from + n]] + Words(s[from + n..])
  {
    var rest := s[from..];
    WordLengthIs(rest);
    var n := WordLength(rest);
    assert rest[0] == s[from];
    assert forall k :: from <= k < from + n ==> s[k] == rest[k - from];
    assert n < |rest| ==> s[from + n] == rest[n];
    assert rest[n..] == s[from + n..] && rest[..n] == s[from..from + n];
  }

  lemma NextSpace(s: string, from: nat)
    requires from < |s| && IsWhitespace(s[from])
    ensures Words(s[from..]) == Words(s[from + 1..])
  {
    assert s[from..][0] == s[from] && s[from..][1..] == s[from + 1..];
  }

  /** No word reaches across this position. */
  predicate Boundary(s: string, from: nat) {
    from <= |s| && (from == 0 || from == |s| || IsWhitespace(s[from - 1]) || IsWhitespace(s[from]))
  }

  lemma {:induction false} WordsFrom(s: string, from: nat) returns (at: seq<Span>)
    requires Boundary(s, from)
    ensures WordsAt(s, from, at, Words(s[from..]))
    decreases |s| - from
  {
    if from == |s| {
      at := [];
    } else if IsWhitespace(s[from]) {
      NextSpace(s, from);
      at := WordsFrom(s, from + 1);
      WordsAtSpace(s, from, at, Words(s[from + 1..]));
    } else {
      NextWord(s, from);
      var to := from + WordLength(s[from..]);
      at := WordsFrom(s, to);
      WordsAtWord(s, from, to, at, Words(s[to..]));
      at := [Span(from, to)] + at;
    }
  }

  /** The terms of a query are its words: the longest stretches without white space, in order. */
  lemma WordsAre(s: string) returns (at: seq<Span>)
    ensures WordsAt(s, 0, at, Words(s))
  {
    at := WordsFrom(s, 0);
    assert s[0..] == s;
  }

  /** An entry is a search result candidate exactly when some term of the query occurs in it. */
  lemma {:induction false} ScoresIffTermOccurs(text: string, terms: seq<string>)
    requires NonEmpty(terms)
    ensures Score(text, terms) > 0 <==> exists term :: term in terms && Occurs(text, term)
  {
    if terms != [] {
      var front, last := terms[..|terms| - 1], terms[|terms| - 1];
      ScoresIffTermOccurs(text, front);
      CountsIffOccurs(text, last);
      assert forall term :: term in terms <==> term in front || term == last;
    }
  }

  lemma SearchWithinApproved(lower: string -> string, docs: seq<Document>, query: string, limit: nat)
    ensures forall e :: e in Search(lower, docs, query, limit) ==> e in ListMemory(docs, Some(Approved))
  {
    if Words(lower(query)) != [] {
      var ranking := SearchIsTopK(lower, docs, query, limit);
      var shown := Take(ranking, limit);
      forall e | e in Entries(shown) ensures e in ListMemory(docs, Some(Approved)) {
        var i :| 0 <= i < |shown| && Entries(shown)[i] == e;
        assert shown[i] in ranking;
      }
    }
  }

  /**
   Across the whole system: in any run, an entry that search returns for a project belongs to
   that project and its latest audit event is an approval.
   */
  lemma SearchReturnsApproved(cmds: seq<Command>, scope: Scope, docs: seq<Document>,
                              lower: string -> string, query: string, limit: nat, e: Entry)
    requires forall d :: d in docs ==>
               (scope, d.entry.id) in Run(cmds).docs && Run(cmds).docs[(scope, d.entry.id)] == d
    requires e in Search(lower, docs, query, limit)
    ensures (scope, e.id) in Run(cmds).docs
    ensures var log := Log(Run(cmds), (scope, e.id)); log != [] && log[|log| - 1].action == DidApprove
  {
    SearchWithinApproved(lower, docs, query, limit);
    var at := ListMemoryFilters(docs, Some(Approved));
    var listed := ListMemory(docs, Some(Approved));
    var k :| 0 <= k < |listed| && listed[k] == e;
    assert at[k] in at;
    assert docs[at[k]] in docs && docs[at[k]].entry == e;
    ApprovedIffLastEvent(cmds, (scope, e.id));
  }
}
