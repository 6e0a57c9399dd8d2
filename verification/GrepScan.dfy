/**
 The `grep` tool's scan: nested loops over files and lines that stop one match past the
 requested window. Each line carries the regular expression's verdict on it, so every line
 predicate is covered; a file the tool skips (missing, oversized, unreadable or not UTF-8) has
 no lines.
 */
module GrepScan {
  import opened Basics

  const DEFAULT_GREP_LIMIT: nat := 200
  const MAX_GREP_LIMIT: nat := 1_000
  const MAX_CONTEXT_LINES: nat := 20

  /** A line of a file, and whether the regular expression matches it. */
  datatype Line = Line(text: string, hit: bool)

  datatype File = File(path: string, lines: Option<seq<Line>>)

  datatype Context = Context(before: seq<Line>, after: seq<Line>, startLine: nat)

  datatype Match = Match(path: string, line: nat, snippet: Line, context: Option<Context>)

  function Clamp(n: nat, lo: nat, hi: nat): nat {
    if n < lo then lo else if n > hi then hi else n
  }

  /** The context a request asks for: none when concise, otherwise capped. */
  function ContextLines(concise: bool, requested: Option<nat>): nat {
    if concise || requested.None? then 0 else Min(requested.value, MAX_CONTEXT_LINES)
  }

  /** One hit with its surrounding lines. */
  function BuildMatch(path: string, lines: seq<Line>, index: nat, context: nat): Match
    requires index < |lines|
  {
    var start := if index < context then 0 else index - context;
    var end := Min(index + 1 + context, |lines|);
    Match(path, index + 1, lines[index],
          if context > 0 then Some(Context(lines[start..index], lines[index + 1..end], start + 1)) else None)
  }

  /**
   The context of a hit is the stretch of the file around it: it reads back contiguously from
   its reported start line, and is shorter than asked for only at the ends of the file.
   */
  lemma ContextIsContiguous(path: string, lines: seq<Line>, index: nat, context: nat)
    requires index < |lines| && context > 0
    ensures var m := BuildMatch(path, lines, index, context);
            && m.context.Some? && m.line == index + 1 && m.snippet == lines[index]
            && var c := m.context.value;
            && 1 <= c.startLine && c.startLine + |c.before| == m.line
            && m.line + |c.after| <= |lines|
            && c.before + [m.snippet] + c.after == lines[c.startLine - 1..m.line + |c.after|]
            && (|c.before| == context || (|c.before| < context && c.startLine == 1))
            && (|c.after| == context || (|c.after| < context && m.line + |c.after| == |lines|))
  {
    var start := if index < context then 0 else index - context;
    var end := Min(index + 1 + context, |lines|);
    assert lines[start..index] + [lines[index]] + lines[index + 1..end] == lines[start..end];
  }

  // ----- The simple form: every match, then a slice -----

  function LinesOf(f: File): seq<Line> {
    if f.lines.Some? then f.lines.value else []
  }

  /** The matches among the first `k` lines of a file. */
  function FileMatches(f: File, context: nat, k: nat): seq<Match>
    requires k <= |LinesOf(f)|
  {
    if k == 0 then []
    else FileMatches(f, context, k - 1) +
         if LinesOf(f)[k - 1].hit then [BuildMatch(f.path, LinesOf(f), k - 1, context)] else []
  }

  function AllInFile(f: File, context: nat): seq<Match> {
    FileMatches(f, context, |LinesOf(f)|)
  }

  /** The matches of each file. */
  function Groups(files: seq<File>, context: nat): seq<seq<Match>> {
    seq(|files|, i requires 0 <= i < |files| => AllInFile(files[i], context))
  }

  function Concat(groups: seq<seq<Match>>): seq<Match> {
    if groups == [] then [] else Concat(groups[..|groups| - 1]) + groups[|groups| - 1]
  }

  function AllMatches(files: seq<File>, context: nat): seq<Match> {
    Concat(Groups(files, context))
  }

  /** How many groups contribute to the first `cap` matches. */
  function Covering(groups: seq<seq<Match>>, cap: nat): nat {
    if groups == [] then 0
    else
      var front := groups[..|groups| - 1];
      Covering(front, cap) + (if groups[|groups| - 1] != [] && |Concat(front)| < cap then 1 else 0)
  }

  function FilesCovering(files: seq<File>, context: nat, cap: nat): nat {
    Covering(Groups(files, context), cap)
  }

  /** The page a client sees: `limit` matches from `offset`, and whether another match follows. */
  function Window(all: seq<Match>, offset: nat, limit: nat): seq<Match> {
    Take(Drop(all, offset), limit)
  }

  predicate HasMore(all: seq<Match>, offset: nat, limit: nat) {
    |all| > offset + limit
  }

  // ----- Which lines are matches -----

  /** The match shows line `k` of the file, with its path, number and text, and the context asked for. */
  predicate ShowsLine(m: Match, path: string, lines: seq<Line>, k: nat, context: nat) {
    && k < |lines| && m.path == path && m.line == k + 1 && m.snippet == lines[k]
    && (m.context.None? <==> context == 0)
    && (m.context.Some? ==>
          var c := m.context.value;
          && 1 <= c.startLine && c.startLine + |c.before| == m.line && m.line + |c.after| <= |lines|
          && c.before + [m.snippet] + c.after == lines[c.startLine - 1..m.line + |c.after|]
          && (|c.before| == context || (|c.before| < context && c.startLine == 1))
          && (|c.after| == context || (|c.after| < context && m.line + |c.after| == |lines|)))
  }

  lemma BuildMatchShows(path: string, lines: seq<Line>, index: nat, context: nat)
    requires index < |lines|
    ensures ShowsLine(BuildMatch(path, lines, index, context), path, lines, index, context)
  {
    if context > 0 {
      ContextIsContiguous(path, lines, index, context);
    }
  }

  /** `at` lists, in order, exactly the hits among the first `k` lines. */
  ghost predicate ListsHits(lines: seq<Line>, k: nat, at: seq<nat>) {
    && (forall i, j :: 0 <= i < j < |at| ==> at[i] < at[j])
    && (forall n: nat :: n in at <==> n < k && n < |lines| && lines[n].hit)
  }

  lemma ListsHitsMore(lines: seq<Line>, k: nat, at: seq<nat>)
    requires k < |lines| && ListsHits(lines, k, at)
    ensures ListsHits(lines, k + 1, at + if lines[k].hit then [k] else [])
  {
    var more := at + if lines[k].hit then [k] else [];
    assert forall i :: 0 <= i < |at| ==> at[i] in at;
    forall n: nat ensures n in more <==> n < k + 1 && n < |lines| && lines[n].hit {
      assert n in more <==> n in at || (n == k && lines[k].hit);
    }
  }

  /** Match `i` shows line `at[i]` of the file. */
  predicate ShowsLines(ms: seq<Match>, path: string, lines: seq<Line>, at: seq<nat>, context: nat) {
    |ms| == |at| && forall i :: 0 <= i < |at| ==> ShowsLine(ms[i], path, lines, at[i], context)
  }

  lemma ShowsLinesMore(ms: seq<Match>, path: string, lines: seq<Line>, at: seq<nat>, context: nat, m: Match, k: nat)
    requires ShowsLines(ms, path, lines, at, context) && ShowsLine(m, path, lines, k, context)
    ensures ShowsLines(ms + [m], path, lines, at + [k], context)
  {
  }

  lemma {:induction false} FileMatchesAre(f: File, context: nat, k: nat) returns (at: seq<nat>)
    requires k <= |LinesOf(f)|
    ensures ListsHits(LinesOf(f), k, at)
    ensures ShowsLines(FileMatches(f, context, k), f.path, LinesOf(f), at, context)
  {
    at := [];
    if k > 0 {
      var lines := LinesOf(f);
      at := FileMatchesAre(f, context, k - 1);
      ListsHitsMore(lines, k - 1, at);
      if lines[k - 1].hit {
        var m := BuildMatch(f.path, lines, k - 1, context);
        BuildMatchShows(f.path, lines, k - 1, context);
        ShowsLinesMore(FileMatches(f, context, k - 1), f.path, lines, at, context, m, k - 1);
        at := at + [k - 1];
      } else {
        assert at + [] == at && FileMatches(f, context, k - 1) + [] == FileMatches(f, context, k - 1);
      }
    }
  }

  /** A line of the corpus. */
  datatype Place = Place(file: nat, line: nat)

  predicate Earlier(a: Place, b: Place) {
    a.file < b.file || (a.file == b.file && a.line < b.line)
  }

  predicate IsHit(files: seq<File>, p: Place) {
    && p.file < |files| && files[p.file].lines.Some?
    && p.line < |files[p.file].lines.value| && files[p.file].lines.value[p.line].hit
  }

  /** `at` lists, in reading order, exactly the lines the expression matches. */
  ghost predicate ListsPlaces(files: seq<File>, at: seq<Place>) {
    && (forall i, j :: 0 <= i < j < |at| ==> Earlier(at[i], at[j]))
    && (forall p: Place :: p in at <==> IsHit(files, p))
  }

  function InFile(file: nat, at: seq<nat>): seq<Place> {
    seq(|at|, i requires 0 <= i < |at| => Place(file, at[i]))
  }

  lemma ListsPlacesMore(files: seq<File>, front: seq<Place>, at: seq<nat>)
    requires files != []
    requires ListsPlaces(files[..|files| - 1], front)
    requires var lines := LinesOf(files[|files| - 1]); ListsHits(lines, |lines|, at)
    ensures ListsPlaces(files, front + InFile(|files| - 1, at))
  {
    var last := |files| - 1;
    var tail := InFile(last, at);
    forall i | 0 <= i < |front| ensures front[i].file < last {
      assert front[i] in front;
    }
    forall p: Place ensures p in front + tail <==> IsHit(files, p) {
      assert p in front + tail <==> p in front || p in tail;
      assert IsHit(files, p) <==> IsHit(files[..last], p) || (p.file == last && IsHit(files, p));
      InFileIs(last, at, p);
    }
  }

  lemma InFileIs(file: nat, at: seq<nat>, p: Place)
    ensures p in InFile(file, at) <==> p.file == file && p.line in at
  {
    if p.file == file && p.line in at {
      var i :| 0 <= i < |at| && at[i] == p.line;
      assert InFile(file, at)[i] == p;
    }
  }

  ghost predicate ShowsPlace(m: Match, files: seq<File>, p: Place, context: nat) {
    p.file < |files| && ShowsLine(m, files[p.file].path, LinesOf(files[p.file]), p.line, context)
  }

  /**
   The full match list is the lines the expression matches and no others, each once, by file and
   then by line, each shown with its path, number, text and context.
   */
  lemma {:induction false} AllMatchesAre(files: seq<File>, context: nat) returns (at: seq<Place>)
    ensures ListsPlaces(files, at) && |AllMatches(files, context)| == |at|
    ensures forall i :: 0 <= i < |at| ==> ShowsPlace(AllMatches(files, context)[i], files, at[i], context)
  {
    at := [];
    if files != [] {
      var last := |files| - 1;
      var front := AllMatchesAre(files[..last], context);
      assert Groups(files, context)[..last] == Groups(files[..last], context);
      var f := files[last];
      var lines := FileMatchesAre(f, context, |LinesOf(f)|);
      ListsPlacesMore(files, front, lines);
      at := front + InFile(last, lines);
      ShownMore(files, context, front, lines);
    }
  }

  lemma ShownMore(files: seq<File>, context: nat, front: seq<Place>, lines: seq<nat>)
    requires files != []
    requires var before := AllMatches(files[..|files| - 1], context);
             && |before| == |front|
             && forall i :: 0 <= i < |front| ==> ShowsPlace(before[i], files[..|files| - 1], front[i], context)
    requires var f := files[|files| - 1];
             ShowsLines(AllInFile(f, context), f.path, LinesOf(f), lines, context)
    ensures var at, all := front + InFile(|files| - 1, lines), AllMatches(files, context);
            && |all| == |at|
            && forall i :: 0 <= i < |at| ==> ShowsPlace(all[i], files, at[i], context)
  {
    var last := |files| - 1;
    assert Groups(files, context)[..last] == Groups(files[..last], context);
    assert AllMatches(files, context) == AllMatches(files[..last], context) + AllInFile(files[last], context);
  }

  // ----- Facts about prefixes -----

  lemma {:induction false} FileMatchesGrow(f: File, context: nat, j: nat, k: nat)
    requires j <= k <= |LinesOf(f)|
    ensures FileMatches(f, context, j) <= FileMatches(f, context, k)
  {
    if j < k {
      FileMatchesGrow(f, context, j, k - 1);
    }
  }

  lemma {:induction false} ConcatGrows(groups: seq<seq<Match>>, i: nat)
    requires i <= |groups|
    ensures Concat(groups[..i]) <= Concat(groups)
  {
    if i < |groups| {
      ConcatGrows(groups[..|groups| - 1], i);
      assert groups[..|groups| - 1][..i] == groups[..i];
    } else {
      assert groups[..i] == groups;
    }
  }

  /** Once the cap is reached, later groups contribute nothing to the count. */
  lemma {:induction false} CoverSettles(groups: seq<seq<Match>>, cap: nat, i: nat)
    requires i <= |groups| && |Concat(groups[..i])| >= cap
    ensures Covering(groups, cap) == Covering(groups[..i], cap)
  {
    if i < |groups| {
      var front := groups[..|groups| - 1];
      assert front[..i] == groups[..i];
      CoverSettles(front, cap, i);
      ConcatGrows(front, i);
    } else {
      assert groups[..i] == groups;
    }
  }

  lemma OneMore(groups: seq<seq<Match>>, cap: nat, i: nat)
    requires i < |groups|
    ensures Concat(groups[..i + 1]) == Concat(groups[..i]) + groups[i]
    ensures Covering(groups[..i + 1], cap) ==
            Covering(groups[..i], cap) + if groups[i] != [] && |Concat(groups[..i])| < cap then 1 else 0
  {
    assert groups[..i + 1][..i] == groups[..i];
  }

  // ----- The early-stopping scan -----

  /** The inner loop: the matches of one file, stopping as soon as `room` of them are found. */
  method ScanFile(f: File, context: nat, room: nat, ghost group: seq<Match>)
    returns (found: seq<Match>, stopped: bool)
    requires room >= 1 && group == AllInFile(f, context)
    ensures stopped <==> |group| >= room
    ensures found == if stopped then Take(group, room) else group
    ensures found != [] <==> group != []
  {
    var lines := LinesOf(f);
    found := [];
    for index := 0 to |lines|
      invariant found == FileMatches(f, context, index) && |found| < room
    {
      if lines[index].hit {
        found := found + [BuildMatch(f.path, lines, index, context)];
        if |found| >= room {
          FileMatchesGrow(f, context, index + 1, |lines|);
          return found, true;
        }
      }
    }
    return found, false;
  }

  /** The first `i` groups have been scanned, without reaching the cap. */
  ghost predicate Scanned(groups: seq<seq<Match>>, cap: nat, i: nat, all: seq<Match>, count: nat) {
    && i <= |groups| && all == Concat(groups[..i]) && |all| < cap
    && count == Covering(groups[..i], cap)
  }

  lemma ScannedMore(groups: seq<seq<Match>>, cap: nat, i: nat, all: seq<Match>, count: nat)
    requires Scanned(groups, cap, i, all, count) && i < |groups| && |groups[i]| < cap - |all|
    ensures Scanned(groups, cap, i + 1, all + groups[i], count + if groups[i] != [] then 1 else 0)
  {
    OneMore(groups, cap, i);
  }

  lemma ScannedAll(groups: seq<seq<Match>>, cap: nat, all: seq<Match>, count: nat)
    requires Scanned(groups, cap, |groups|, all, count)
    ensures all == Take(Concat(groups), cap) && count == Covering(groups, cap)
  {
    assert groups[..|groups|] == groups;
  }

  /** The scan, given the matches of each file. */
  method ScanGroups(files: seq<File>, context: nat, cap: nat, ghost groups: seq<seq<Match>>)
    returns (all: seq<Match>, filesWithMatches: nat)
    requires cap >= 1 && |groups| == |files|
    requires forall i :: 0 <= i < |files| ==> groups[i] == AllInFile(files[i], context)
    ensures all == Take(Concat(groups), cap)
    ensures filesWithMatches == Covering(groups, cap)
  {
    all, filesWithMatches := [], 0;
    for i := 0 to |files|
      invariant Scanned(groups, cap, i, all, filesWithMatches)
    {
      var found, stopped := ScanFile(files[i], context, cap - |all|, groups[i]);
      if stopped {
        StoppedScan(groups, cap, i);
      } else {
        ScannedMore(groups, cap, i, all, filesWithMatches);
      }
      if found != [] {
        filesWithMatches := filesWithMatches + 1;
      }
      all := all + found;
      if stopped {
        return;
      }
    }
    ScannedAll(groups, cap, all, filesWithMatches);
  }

  /** The scan: collect matches file by file until `cap` of them, counting the files that matched. */
  method Scan(files: seq<File>, context: nat, cap: nat)
    returns (all: seq<Match>, filesWithMatches: nat)
    requires cap >= 1
    ensures all == Take(AllMatches(files, context), cap)
    ensures filesWithMatches == FilesCovering(files, context, cap)
  {
    all, filesWithMatches := ScanGroups(files, context, cap, Groups(files, context));
  }

  /** Stopping inside group `i`, with exactly `cap` matches, loses nothing of the first `cap`. */
  lemma StoppedScan(groups: seq<seq<Match>>, cap: nat, i: nat)
    requires i < |groups|
    requires |Concat(groups[..i])| < cap <= |Concat(groups[..i])| + |groups[i]|
    ensures var before := Concat(groups[..i]);
            before + Take(groups[i], cap - |before|) == Take(Concat(groups), cap)
    ensures Covering(groups, cap) == Covering(groups[..i], cap) + 1
  {
    OneMore(groups, cap, i);
    ConcatGrows(groups, i + 1);
    CoverSettles(groups, cap, i + 1);
  }

  /** The window of a scan that stops one match past it. */
  method Windowed(files: seq<File>, context: nat, skip: nat, want: nat)
    returns (window: seq<Match>, hasMore: bool, filesWithMatches: nat)
    requires |AllMatches(files, context)| < USIZE_MAX
    ensures var full := AllMatches(files, context);
            && window == full[Min(skip, |full|)..Min(skip + want, |full|)]
            && (hasMore <==> |full| > skip + want)
            && filesWithMatches == FilesCovering(files, context, skip + want + 1)
  {
    ghost var full := AllMatches(files, context);
    var scanCap := SaturatingAdd(SaturatingAdd(skip, want), 1);
    var all;
    all, filesWithMatches := Scan(files, context, scanCap);
    hasMore := |all| > SaturatingAdd(skip, want);
    window := Take(Drop(all, skip), want);
    SaturatedCover(Groups(files, context), scanCap, skip + want + 1);
    WindowOfPrefix(full, skip, want, scanCap);
    WindowIsSlice(full, skip, want);
    HasMoreOfPrefix(|full|, skip, want);
  }

  /**
   The tool's result equals slicing the full match list, although the scan stops early: the
   window, whether a later match exists, and the number of files behind the first
   `offset + limit + 1` matches. A match list always fits in a `usize`.
   */
  method Grep(files: seq<File>, concise: bool, contextLines: Option<nat>,
              offset: Option<nat>, limit: Option<nat>)
    returns (window: seq<Match>, hasMore: bool, filesWithMatches: nat)
    requires |AllMatches(files, ContextLines(concise, contextLines))| < USIZE_MAX
    ensures var skip := if offset.None? then 0 else offset.value;
            var want := if limit.None? then 200 else if limit.value < 1 then 1 else Min(limit.value, 1_000);
            var context := if concise || contextLines.None? then 0 else Min(contextLines.value, 20);
            var full := AllMatches(files, context);
            && window == full[Min(skip, |full|)..Min(skip + want, |full|)]
            && (hasMore <==> |full| > skip + want)
            && filesWithMatches == FilesCovering(files, context, skip + want + 1)
  {
    var context := ContextLines(concise, contextLines);
    var skip := if offset.Some? then offset.value else 0;
    var want := Clamp(if limit.Some? then limit.value else DEFAULT_GREP_LIMIT, 1, MAX_GREP_LIMIT);
    window, hasMore, filesWithMatches := Windowed(files, context, skip, want);
  }

  lemma WindowIsSlice(full: seq<Match>, skip: nat, want: nat)
    ensures Window(full, skip, want) == full[Min(skip, |full|)..Min(skip + want, |full|)]
  {
  }

  /** Scanning one match past the window is enough to know whether another follows. */
  lemma HasMoreOfPrefix(n: nat, skip: nat, want: nat)
    requires n < USIZE_MAX
    ensures Min(SaturatingAdd(SaturatingAdd(skip, want), 1), n) > SaturatingAdd(skip, want) <==> n > skip + want
  {
  }

  lemma WindowOfPrefix(full: seq<Match>, skip: nat, want: nat, cap: nat)
    requires cap >= skip + want || cap >= |full|
    ensures Window(Take(full, cap), skip, want) == Window(full, skip, want)
  {
    if cap >= |full| {
      assert Take(full, cap) == full;
    } else {
      var from, to := Min(skip, |full|), Min(skip + want, |full|);
      assert Window(full, skip, want) == full[from..to];
      assert Window(full[..cap], skip, want) == full[..cap][from..to];
      SliceOfPrefix(full, from, to, cap);
    }
  }

  lemma SliceOfPrefix<T>(s: seq<T>, from: nat, to: nat, cap: nat)
    requires from <= to <= cap <= |s|
    ensures s[..cap][from..to] == s[from..to]
  {
  }

  /** Caps beyond the number of matches all cover the same groups. */
  lemma {:induction false} SaturatedCover(groups: seq<seq<Match>>, a: nat, b: nat)
    requires a == b || (|Concat(groups)| <= a && |Concat(groups)| <= b)
    ensures Covering(groups, a) == Covering(groups, b)
  {
    if groups != [] && a != b {
      SaturatedCover(groups[..|groups| - 1], a, b);
    }
  }

  // ----- Paging -----

  /** All pages from `offset` on, following `has_more`. */
  function Pages(all: seq<Match>, offset: nat, limit: nat): seq<Match>
    requires limit > 0
    decreases |all| - offset
  {
    if HasMore(all, offset, limit) then Window(all, offset, limit) + Pages(all, offset + limit, limit)
    else Window(all, offset, limit)
  }

  /** Paging until there is no more yields every match from the offset exactly once, in order. */
  lemma {:induction false} PagingCoversAll(all: seq<Match>, offset: nat, limit: nat)
    requires limit > 0
    ensures Pages(all, offset, limit) == Drop(all, offset)
    decreases |all| - offset
  {
    if HasMore(all, offset, limit) {
      PagingCoversAll(all, offset + limit, limit);
    }
  }

  // ----- Counting files by path -----

  ghost function Paths(ms: seq<Match>): set<string> {
    set m | m in ms :: m.path
  }

  lemma {:induction false} FileMatchesPath(f: File, context: nat, k: nat)
    requires k <= |LinesOf(f)|
    ensures forall m :: m in FileMatches(f, context, k) ==> m.path == f.path
  {
    if k > 0 {
      FileMatchesPath(f, context, k - 1);
    }
  }

  /** Group `i` holds only matches of path `paths[i]`. */
  predicate Labelled(groups: seq<seq<Match>>, paths: seq<string>) {
    |groups| == |paths| && forall i :: 0 <= i < |groups| ==> forall m :: m in groups[i] ==> m.path == paths[i]
  }

  lemma {:induction false} ConcatPaths(groups: seq<seq<Match>>, paths: seq<string>)
    requires Labelled(groups, paths)
    ensures forall m :: m in Concat(groups) ==> m.path in paths
  {
    if groups != [] {
      var n := |groups| - 1;
      ConcatPaths(groups[..n], paths[..n]);
      assert forall path :: path in paths[..n] ==> path in paths;
      assert paths[n] in paths;
    }
  }

  lemma {:induction false} CoverCounts(groups: seq<seq<Match>>, paths: seq<string>, cap: nat)
    requires Labelled(groups, paths) && forall i, j :: 0 <= i < j < |paths| ==> paths[i] != paths[j]
    ensures Covering(groups, cap) == |Paths(Take(Concat(groups), cap))|
  {
    if groups != [] {
      var n := |groups| - 1;
      CoverCounts(groups[..n], paths[..n], cap);
      ConcatPaths(groups[..n], paths[..n]);
      TakeOfConcat(Concat(groups[..n]), groups[n], cap, paths[n]);
    }
  }

  /** With distinct paths, the reported count is the number of distinct paths among the first `cap` matches. */
  lemma CoverCountsPaths(files: seq<File>, context: nat, cap: nat)
    requires forall i, j :: 0 <= i < j < |files| ==> files[i].path != files[j].path
    ensures FilesCovering(files, context, cap) == |Paths(Take(AllMatches(files, context), cap))|
  {
    var groups := Groups(files, context);
    var paths := seq(|files|, i requires 0 <= i < |files| => files[i].path);
    forall i | 0 <= i < |groups| ensures forall m: Match :: m in groups[i] ==> m.path == paths[i] {
      FileMatchesPath(files[i], context, |LinesOf(files[i])|);
    }
    CoverCounts(groups, paths, cap);
  }

  lemma TakeOfConcat(a: seq<Match>, b: seq<Match>, cap: nat, path: string)
    requires forall m :: m in b ==> m.path == path
    requires forall m :: m in a ==> m.path != path
    ensures |Paths(Take(a + b, cap))| == |Paths(Take(a, cap))| + if b != [] && |a| < cap then 1 else 0
  {
    if b == [] || cap <= |a| {
      assert Take(a + b, cap) == Take(a, cap);
    } else {
      var tail := Take(b, cap - |a|);
      assert Take(a + b, cap) == a + tail && Take(a, cap) == a && tail[0] in b;
      assert Paths(a + tail) == Paths(a) + {path} by {
        assert forall m :: m in tail ==> m in b;
        assert forall m :: m in a + tail <==> m in a || m in tail;
        assert tail[0] in tail;
      }
      assert path !in Paths(a);
    }
  }
}
