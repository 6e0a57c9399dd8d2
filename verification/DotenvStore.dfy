/**
 The credential store kept in a dotenv text file: comments, duplicate keys and stray white
 space are tolerated, and lookups behave like a map under `set` and `remove`.
 */
module DotenvStore {
  import opened Basics
  import opened Text

  /** The key and raw value of a line, unless it is a comment or has no `=`. */
  function ParseEntry(line: string): Option<(string, string)> {
    var trimmed := Trim(line);
    if StartsWith(trimmed, "#") then None
    else
      match SplitOnce(trimmed, '=')
      case None => None
      case Some((key, value)) => Some((Trim(key), value))
  }

  function EntryVar(line: string): Option<string> {
    match ParseEntry(line)
    case None => None
    case Some((key, _)) => Some(key)
  }

  function TrimQuotes(s: string): string {
    if s != "" && s[0] == '"' then TrimQuotes(s[1..])
    else if s != "" && s[|s| - 1] == '"' then TrimQuotes(s[..|s| - 1])
    else s
  }

  /** How a stored value is read: trimmed, then stripped of surrounding double quotes. */
  function Clean(value: string): string {
    TrimQuotes(Trim(value))
  }

  /** The first entry for `name` wins. */
  function Lookup(lines: seq<string>, name: string): Option<string> {
    if lines == [] then None
    else if EntryVar(lines[0]) == Some(name) then Some(Clean(ParseEntry(lines[0]).value.1))
    else Lookup(lines[1..], name)
  }

  lemma {:induction false} LookupAt(lines: seq<string>, i: nat, name: string)
    requires i <= |lines| && (i < |lines| ==> EntryVar(lines[i]) == Some(name))
    requires forall k :: 0 <= k < i ==> EntryVar(lines[k]) != Some(name)
    ensures Lookup(lines, name) == if i < |lines| then Some(Clean(ParseEntry(lines[i]).value.1)) else None
  {
    if i > 0 {
      LookupAt(lines[1..], i - 1, name);
    }
  }

  /** Replace the first entry for `name`, or append one. */
  function SetLine(lines: seq<string>, name: string, entry: string): seq<string> {
    if lines == [] then [entry]
    else if EntryVar(lines[0]) == Some(name) then [entry] + lines[1..]
    else [lines[0]] + SetLine(lines[1..], name, entry)
  }

  lemma PlacedInTail<T>(s: seq<T>, i: nat, x: T)
    requires 0 < i <= |s|
    ensures i < |s| ==> s[i := x] == [s[0]] + s[1..][i - 1 := x]
    ensures s + [x] == [s[0]] + (s[1..] + [x])
  {
  }

  lemma {:induction false} SetLineAt(lines: seq<string>, i: nat, name: string, entry: string)
    requires i <= |lines| && (i < |lines| ==> EntryVar(lines[i]) == Some(name))
    requires forall k :: 0 <= k < i ==> EntryVar(lines[k]) != Some(name)
    ensures SetLine(lines, name, entry) == if i < |lines| then lines[i := entry] else lines + [entry]
  {
    if i > 0 {
      SetLineAt(lines[1..], i - 1, name, entry);
      PlacedInTail(lines, i, entry);
    }
  }

  /** Drop every entry for `name`. */
  function DropLines(lines: seq<string>, name: string): seq<string> {
    if lines == [] then []
    else if EntryVar(lines[0]) == Some(name) then DropLines(lines[1..], name)
    else [lines[0]] + DropLines(lines[1..], name)
  }

  lemma {:induction false} DropLinesAppend(lines: seq<string>, line: string, name: string)
    ensures DropLines(lines + [line], name) ==
            DropLines(lines, name) + if EntryVar(line) == Some(name) then [] else [line]
  {
    if lines == [] {
      assert lines + [line] == [line];
    } else {
      DropLinesAppend(lines[1..], line, name);
      assert (lines + [line])[1..] == lines[1..] + [line];
    }
  }

  lemma {:induction false} DropsIffFound(lines: seq<string>, name: string)
    ensures |DropLines(lines, name)| <= |lines|
    ensures |DropLines(lines, name)| < |lines| <==> Lookup(lines, name).Some?
  {
    if lines != [] {
      DropsIffFound(lines[1..], name);
    }
  }

  /** A missing or unreadable file has no lines. */
  function FileLines(file: Option<string>): seq<string> {
    match file
    case None => []
    case Some(text) => Lines(text)
  }

  function FileLookup(file: Option<string>, name: string): Option<string> {
    Lookup(FileLines(file), name)
  }

  function FileSet(file: Option<string>, name: string, value: string): string {
    JoinLines(SetLine(FileLines(file), name, name + "=" + value)) + "\n"
  }

  function FileRemove(file: Option<string>, name: string): Option<string> {
    var kept := DropLines(FileLines(file), name);
    if |kept| == |FileLines(file)| then file
    else
      var contents := JoinLines(kept);
      Some(if contents == "" then "" else contents + "\n")
  }

  class DotenvCredentialStore {
    var file: Option<string>

    constructor (initial: Option<string>)
      ensures file == initial
    {
      file := initial;
    }

    /** A non-empty environment variable shadows the file. */
    method Get(env: Option<string>, name: string) returns (value: Option<string>)
      ensures value == if env.Some? && env.value != "" then env else FileLookup(file, name)
    {
      if env.Some? && env.value != "" {
        return env;
      }
      var lines := FileLines(file);
      for i := 0 to |lines|
        invariant forall k :: 0 <= k < i ==> EntryVar(lines[k]) != Some(name)
      {
        var entry := ParseEntry(lines[i]);
        if entry.Some? && entry.value.0 == name {
          LookupAt(lines, i, name);
          return Some(Clean(entry.value.1));
        }
      }
      LookupAt(lines, |lines|, name);
      return None;
    }

    method Set(name: string, value: string)
      modifies this
      ensures file == Some(FileSet(old(file), name, value))
    {
      var lines := FileLines(file);
      var entry := name + "=" + value;
      ghost var updated := SetLine(lines, name, entry);
      var replaced := false;
      for i := 0 to |lines|
        invariant !replaced && lines == FileLines(file)
        invariant forall k :: 0 <= k < i ==> EntryVar(lines[k]) != Some(name)
      {
        if EntryVar(lines[i]) == Some(name) {
          SetLineAt(lines, i, name, entry);
          lines := lines[i := entry];
          replaced := true;
          break;
        }
      }
      if !replaced {
        SetLineAt(lines, |lines|, name, entry);
        lines := lines + [entry];
      }
      assert lines == updated;
      file := Some(JoinLines(lines) + "\n");
    }

    method Remove(name: string) returns (removed: bool)
      modifies this
      ensures file == FileRemove(old(file), name)
      ensures removed <==> FileLookup(old(file), name).Some?
    {
      var lines := FileLines(file);
      var kept := [];
      removed := false;
      for i := 0 to |lines|
        invariant file == old(file)
        invariant kept == DropLines(lines[..i], name)
        invariant |kept| <= i && (removed <==> |kept| < i)
      {
        assert lines[..i + 1] == lines[..i] + [lines[i]];
        DropLinesAppend(lines[..i], lines[i], name);
        if EntryVar(lines[i]) == Some(name) {
          removed := true;
        } else {
          kept := kept + [lines[i]];
        }
      }
      assert lines[..|lines|] == lines;
      DropsIffFound(lines, name);
      if removed {
        var contents := JoinLines(kept);
        if contents != "" {
          contents := contents + "\n";
        }
        file := Some(contents);
      }
    }
  }

  // ----- The file is a map -----

  /** A key that reads back as itself: trimmed, on one line, without `=` and not a comment. */
  predicate ProperName(name: string) {
    Trimmed(name) && '\n' !in name && '=' !in name && !StartsWith(name, "#")
  }

  /** A value that reads back as itself: on one line, with no white space or quote at either end. */
  predicate CleanValue(value: string) {
    && '\n' !in value
    && Trimmed(value)
    && (value == "" || (value[0] != '"' && value[|value| - 1] != '"'))
  }

  lemma {:induction false} TrimQuotesShorter(s: string)
    ensures |TrimQuotes(s)| <= |s|
    ensures TrimQuotes(s) == s <==> s == "" || (s[0] != '"' && s[|s| - 1] != '"')
  {
    if s != "" && s[0] == '"' {
      TrimQuotesShorter(s[1..]);
    } else if s != "" && s[|s| - 1] == '"' {
      TrimQuotesShorter(s[..|s| - 1]);
    }
  }

  lemma CleanFixed(value: string)
    requires '\n' !in value
    ensures Clean(value) == value <==> CleanValue(value)
  {
    TrimIsTrimmed(value);
    TrimFixed(value);
    TrimQuotesShorter(Trim(value));
    TrimQuotesShorter(value);
  }

  /** A line written by `set` parses back to its key and its value, up to trimming. */
  lemma WrittenEntry(name: string, value: string)
    requires ProperName(name) && '\n' !in value
    ensures EntryVar(name + "=" + value) == Some(name)
    ensures Clean(ParseEntry(name + "=" + value).value.1) == Clean(value)
  {
    var line := name + "=" + value;
    var core := TrimEnd(line);
    TrimEndSplit(line);
    TrimEndOfEntry(name, value);
    var kept := core[|name| + 1..];
    assert core == name + "=" + kept;
    assert Trimmed(core);
    TrimFixed(core);
    assert TrimStart(line) == line;
    SplitOnceAt(name, '=', kept);
    TrimFixed(name);
    assert !StartsWith(core, "#");
  }

  lemma TrimEndOfEntry(name: string, value: string)
    ensures var line := name + "=" + value;
            && |name| < |TrimEnd(line)| <= |line| && TrimEnd(line) == line[..|TrimEnd(line)|]
            && Trim(TrimEnd(line)[|name| + 1..]) == Trim(value)
  {
    var line := name + "=" + value;
    TrimEndSplit(line);
    var n := |TrimEnd(line)|;
    forall k | n <= k < |line| ensures IsWhitespace(line[k]) {
      assert line[k] == line[n..][k - n];
    }
    assert line[|name|] == '=';
    var kept := TrimEnd(line)[|name| + 1..];
    assert value == line[|name| + 1..] == line[|name| + 1..n] + line[n..];
    TrimDropsTail(kept, line[n..]);
  }

  lemma StripCrHarmless(line: string)
    ensures ParseEntry(StripCr(line)) == ParseEntry(line)
  {
    if StripCr(line) != line {
      assert line == StripCr(line) + "\r";
      TrimDropsTail(StripCr(line), "\r");
    }
  }

  lemma {:induction false} LookupStripCrs(lines: seq<string>, name: string)
    ensures Lookup(StripCrs(lines), name) == Lookup(lines, name)
  {
    if lines != [] {
      StripCrHarmless(lines[0]);
      LookupStripCrs(lines[1..], name);
    }
  }

  // ----- What a line means -----

  /** The first character that is not white space is `#`. */
  ghost predicate IsComment(line: string) {
    exists i :: 0 <= i < |line| && line[i] == '#' && Blank(line[..i])
  }

  lemma CommentIff(line: string)
    ensures IsComment(line) <==> StartsWith(Trim(line), "#")
  {
    if i :| 0 <= i < |line| && line[i] == '#' && Blank(line[..i]) {
      FirstNonBlank(line, i);
    }
    if StartsWith(Trim(line), "#") {
      var a, b := TrimParts(line);
      assert line[|a|] == Trim(line)[0] && line[..|a|] == a;
    }
  }

  /** Where the first `=` of a line lies, inside what trimming leaves. */
  lemma EqualsInside(line: string, i: nat) returns (a: string, b: string)
    requires i < |line| && line[i] == '='
    ensures Blank(a) && Blank(b) && line == a + Trim(line) + b && |a| <= i < |a| + |Trim(line)|
  {
    a, b := TrimParts(line);
    assert !IsWhitespace('=');
    assert forall k :: 0 <= k < |a| ==> IsWhitespace(line[k]);
    assert forall k :: |a| + |Trim(line)| <= k < |line| ==> line[k] == b[k - |a| - |Trim(line)|];
  }

  /** A line that is no comment is cut at its first `=`: the key is trimmed, the value cleaned when read. */
  lemma EntryIs(line: string, i: nat)
    requires !IsComment(line) && i < |line| && line[i] == '=' && '=' !in line[..i]
    ensures EntryVar(line) == Some(Trim(line[..i]))
    ensures Clean(ParseEntry(line).value.1) == Clean(line[i + 1..])
  {
    CommentIff(line);
    var a, b := EqualsInside(line, i);
    var core := Trim(line);
    var key, value := core[..i - |a|], core[i - |a| + 1..];
    assert line[..i] == a + key;
    assert core == key + ['='] + value && forall c :: c in key ==> c in line[..i];
    SplitOnceAt(key, '=', value);
    TrimDropsHead(a, key);
    assert line[i + 1..] == value + b;
    TrimDropsTail(value, b);
  }

  lemma NoEqualsNoEntry(line: string)
    requires '=' !in line
    ensures ParseEntry(line).None?
  {
    TrimWithin(line);
    IndexOfAbsent(Trim(line), '=');
  }

  /** A line is no entry exactly when it is a comment or holds no `=`. */
  lemma NoEntryIff(line: string)
    ensures EntryVar(line).None? <==> IsComment(line) || '=' !in line
  {
    CommentIff(line);
    if '=' !in line {
      NoEqualsNoEntry(line);
    } else if !IsComment(line) {
      var i := IndexOf(line, '=');
      assert i < |line|;
      EntryIs(line, i);
    }
  }

  /** A comment, or a line without `=`, changes no lookup, wherever it stands. */
  lemma InertLine(before: seq<string>, line: string, after: seq<string>, name: string)
    requires IsComment(line) || '=' !in line
    ensures Lookup(before + [line] + after, name) == Lookup(before + after, name)
  {
    NoEntryIff(line);
    LookupConcat(before + [line], after, name);
    LookupConcat(before, [line], name);
    LookupConcat(before, after, name);
    assert [line][1..] == [];
  }

  /** The same for the text of a file. */
  lemma InertInFile(before: seq<string>, line: string, after: seq<string>, name: string)
    requires SingleLines(before) && SingleLines(after) && '\n' !in line && (IsComment(line) || '=' !in line)
    ensures FileLookup(Some(JoinLines(before + [line] + after) + "\n"), name) == Lookup(before + after, name)
  {
    InertLine(before, line, after, name);
    LinesOfJoin(before + [line] + after);
    LookupStripCrs(before + [line] + after, name);
  }

  /** An entry line, with white space around its key, answers for that key alone. */
  lemma EntryLine(a: string, key: string, b: string, value: string, name: string)
    requires Blank(a) && Blank(b) && Trimmed(key) && '=' !in key && !StartsWith(key, "#")
    ensures Lookup([a + key + b + "=" + value], name) == if name == key then Some(Clean(value)) else None
  {
    var line := a + key + b + "=" + value;
    var i := |a| + |key| + |b|;
    assert line[..i] == a + key + b && line[i + 1..] == value && line[i] == '=';
    assert !IsWhitespace('=') && forall c :: c in line[..i] ==> c != '=';
    EntryLineNoComment(a, key, b, value);
    EntryIs(line, i);
    TrimPadded(a, key, b);
    assert [line][1..] == [];
  }

  lemma EntryLineNoComment(a: string, key: string, b: string, value: string)
    requires Blank(a) && Blank(b) && Trimmed(key) && '=' !in key && !StartsWith(key, "#")
    ensures !IsComment(a + key + b + "=" + value)
  {
    var line := a + key + b + "=" + value;
    assert !IsWhitespace('=');
    CommentIff(line);
    var rest := key + b + "=" + value;
    assert line == a + rest;
    if key == "" {
      var k := |a| + |b|;
      assert line[..k] == a + b && line[k] == '=';
      FirstNonBlank(line, k);
    } else {
      assert line[..|a|] == a && line[|a|] == key[0];
      FirstNonBlank(line, |a|);
      assert key[0] != '#' by {
        assert key[..1] == [key[0]];
        assert "#" <= key <==> key[0] == '#';
      }
    }
  }

  predicate AllQuotes(s: string) {
    forall i :: 0 <= i < |s| ==> s[i] == '"'
  }

  predicate Unquoted(s: string) {
    s == "" || (s[0] != '"' && s[|s| - 1] != '"')
  }

  lemma {:induction false} TrimQuotesPadded(p: string, core: string, q: string)
    requires AllQuotes(p) && AllQuotes(q) && Unquoted(core)
    ensures TrimQuotes(p + core + q) == core
  {
    var s := p + core + q;
    if p != "" {
      assert s[1..] == p[1..] + core + q;
      TrimQuotesPadded(p[1..], core, q);
    } else if q != "" {
      if core == "" {
        assert s[1..] == "" + "" + q[1..];
        TrimQuotesPadded("", "", q[1..]);
      } else {
        assert s[..|s| - 1] == "" + core + q[..|q| - 1];
        TrimQuotesPadded("", core, q[..|q| - 1]);
      }
    } else {
      assert s == core;
    }
  }

  /** Cleaning takes off white space, and then every double quote at either end. */
  lemma CleanIs(a: string, p: string, core: string, q: string, b: string)
    requires Blank(a) && Blank(b) && AllQuotes(p) && AllQuotes(q) && Unquoted(core) && Trimmed(p + core + q)
    ensures Clean(a + (p + core + q) + b) == core
  {
    TrimPadded(a, p + core + q, b);
    TrimQuotesPadded(p, core, q);
  }

  lemma {:induction false} QuoteParts(s: string) returns (p: string, q: string)
    ensures AllQuotes(p) && AllQuotes(q) && Unquoted(TrimQuotes(s)) && s == p + TrimQuotes(s) + q
  {
    if s != "" && s[0] == '"' {
      p, q := QuoteParts(s[1..]);
      p := ['"'] + p;
    } else if s != "" && s[|s| - 1] == '"' {
      p, q := QuoteParts(s[..|s| - 1]);
      q := q + ['"'];
    } else {
      p, q := "", "";
    }
  }

  /** Every value has those parts, so this says what cleaning does to any value. */
  lemma CleanParts(value: string) returns (a: string, p: string, q: string, b: string)
    ensures Blank(a) && Blank(b) && AllQuotes(p) && AllQuotes(q) && Unquoted(Clean(value))
    ensures Trimmed(p + Clean(value) + q) && value == a + (p + Clean(value) + q) + b
  {
    a, b := TrimParts(value);
    TrimIsTrimmed(value);
    p, q := QuoteParts(Trim(value));
  }

  // ----- What is written -----

  /** `set` keeps every line but the first entry for the key, which it replaces, or adds a line at the end. */
  lemma FileSetIs(file: Option<string>, name: string, value: string) returns (i: nat)
    ensures var lines, entry := FileLines(file), name + "=" + value;
            && i <= |lines|
            && (forall k :: 0 <= k < i ==> EntryVar(lines[k]) != Some(name))
            && (i < |lines| ==> EntryVar(lines[i]) == Some(name))
            && FileSet(file, name, value) ==
               JoinLines(if i < |lines| then lines[i := entry] else lines + [entry]) + "\n"
  {
    var lines := FileLines(file);
    i := FirstEntry(lines, name);
    SetLineAt(lines, i, name, name + "=" + value);
  }

  lemma {:induction false} FirstEntry(lines: seq<string>, name: string) returns (i: nat)
    ensures i <= |lines| && (i < |lines| ==> EntryVar(lines[i]) == Some(name))
    ensures forall k :: 0 <= k < i ==> EntryVar(lines[k]) != Some(name)
  {
    if lines == [] || EntryVar(lines[0]) == Some(name) {
      i := 0;
    } else {
      i := FirstEntry(lines[1..], name);
      i := i + 1;
    }
  }

  /** `at` lists, in order, exactly the lines that are no entries for the key. */
  ghost predicate ListsKept(lines: seq<string>, name: string, at: seq<nat>) {
    && (forall i, j :: 0 <= i < j < |at| ==> at[i] < at[j])
    && (forall n: nat :: n in at <==> n < |lines| && EntryVar(lines[n]) != Some(name))
  }

  lemma ListsKeptMore(lines: seq<string>, name: string, at: seq<nat>)
    requires lines != [] && ListsKept(lines[..|lines| - 1], name, at)
    ensures ListsKept(lines, name, at + if EntryVar(lines[|lines| - 1]) == Some(name) then [] else [|lines| - 1])
  {
    var k := |lines| - 1;
    var more := at + if EntryVar(lines[k]) == Some(name) then [] else [k];
    assert forall i :: 0 <= i < |at| ==> at[i] in at;
    forall n: nat ensures n in more <==> n < |lines| && EntryVar(lines[n]) != Some(name) {
      assert n in more <==> n in at || (n == k && EntryVar(lines[k]) != Some(name));
    }
  }

  /** `kept[i]` is line `at[i]`. */
  predicate LinesAt(lines: seq<string>, at: seq<nat>, kept: seq<string>) {
    |kept| == |at| && forall i :: 0 <= i < |at| ==> at[i] < |lines| && kept[i] == lines[at[i]]
  }

  lemma LinesAtMore(lines: seq<string>, at: seq<nat>, kept: seq<string>)
    requires lines != [] && LinesAt(lines[..|lines| - 1], at, kept)
    ensures LinesAt(lines, at, kept) && LinesAt(lines, at + [|lines| - 1], kept + [lines[|lines| - 1]])
  {
  }

  /** `remove` keeps every other line, in order. */
  lemma {:induction false} DropLinesAre(lines: seq<string>, name: string) returns (at: seq<nat>)
    ensures ListsKept(lines, name, at) && LinesAt(lines, at, DropLines(lines, name))
  {
    at := [];
    if lines != [] {
      var k := |lines| - 1;
      at := DropLinesAre(lines[..k], name);
      ListsKeptMore(lines, name, at);
      LinesAtMore(lines, at, DropLines(lines[..k], name));
      assert lines == lines[..k] + [lines[k]];
      DropLinesAppend(lines[..k], lines[k], name);
      if EntryVar(lines[k]) == Some(name) {
        assert at + [] == at && DropLines(lines[..k], name) + [] == DropLines(lines[..k], name);
      } else {
        at := at + [k];
      }
    }
  }

  // ----- Values of several lines -----

  /** The lines a value takes up in the file. */
  function Parts(value: string): seq<string> {
    SplitOn(value, '\n')
  }

  /** No line of the value after the first is an entry for another key. */
  predicate Harmless(name: string, value: string) {
    forall k :: 1 <= k < |Parts(value)| ==>
      EntryVar(Parts(value)[k]) == None || EntryVar(Parts(value)[k]) == Some(name)
  }

  /** The lines that `set` writes for a key. */
  function WrittenLines(name: string, value: string): seq<string> {
    [name + "=" + Parts(value)[0]] + Parts(value)[1..]
  }

  /** `SetLine` as the reader of the file sees it: several lines in place of one. */
  function Splice(lines: seq<string>, name: string, written: seq<string>): seq<string> {
    if lines == [] then written
    else if EntryVar(lines[0]) == Some(name) then written + lines[1..]
    else [lines[0]] + Splice(lines[1..], name, written)
  }

  lemma {:induction false} SpliceJoins(lines: seq<string>, name: string, entry: string, written: seq<string>)
    requires written != [] && JoinLines(written) == entry
    ensures Splice(lines, name, written) != []
    ensures JoinLines(SetLine(lines, name, entry)) == JoinLines(Splice(lines, name, written))
  {
    if lines != [] {
      if EntryVar(lines[0]) == Some(name) {
        if |lines| > 1 {
          JoinConcat([entry], lines[1..]);
          JoinConcat(written, lines[1..]);
        } else {
          assert [entry] + lines[1..] == [entry] && written + lines[1..] == written;
        }
      } else {
        SpliceJoins(lines[1..], name, entry, written);
        JoinConcat([lines[0]], SetLine(lines[1..], name, entry));
        JoinConcat([lines[0]], Splice(lines[1..], name, written));
      }
    }
  }

  lemma {:induction false} SpliceSingle(lines: seq<string>, name: string, written: seq<string>)
    requires SingleLines(lines) && SingleLines(written)
    ensures SingleLines(Splice(lines, name, written))
  {
    if lines != [] && EntryVar(lines[0]) != Some(name) {
      SpliceSingle(lines[1..], name, written);
    }
  }

  lemma {:induction false} LookupConcat(a: seq<string>, b: seq<string>, name: string)
    ensures Lookup(a + b, name) == if Lookup(a, name).Some? then Lookup(a, name) else Lookup(b, name)
  {
    if a == [] {
      assert a + b == b;
    } else {
      LookupConcat(a[1..], b, name);
      assert (a + b)[1..] == a[1..] + b;
    }
  }

  lemma {:induction false} LookupSplice(lines: seq<string>, name: string, written: seq<string>, other: string)
    requires written != [] && EntryVar(written[0]) == Some(name)
    ensures other == name ==>
              Lookup(Splice(lines, name, written), other) == Some(Clean(ParseEntry(written[0]).value.1))
    ensures other != name && Lookup(written, other) == None ==>
              Lookup(Splice(lines, name, written), other) == Lookup(lines, other)
  {
    if lines != [] {
      if EntryVar(lines[0]) == Some(name) {
        LookupConcat(written, lines[1..], other);
      } else {
        LookupSplice(lines[1..], name, written, other);
      }
    }
  }

  lemma {:induction false} LookupFinds(lines: seq<string>, i: nat, name: string)
    requires i < |lines| && EntryVar(lines[i]) == Some(name)
    ensures Lookup(lines, name).Some?
  {
    if EntryVar(lines[0]) != Some(name) {
      LookupFinds(lines[1..], i - 1, name);
    }
  }

  /** The written lines are what the newlines of the written text cut it into. */
  lemma WrittenJoins(name: string, value: string)
    requires '\n' !in name
    ensures JoinLines(WrittenLines(name, value)) == name + "=" + value && SingleLines(WrittenLines(name, value))
  {
    var head := name + "=";
    SplitOnAfter(head, value, '\n');
    JoinSplit(head + value);
    assert name + "=" + Parts(value)[0] == head + Parts(value)[0];
  }

  /** The file after `set`, as lookups see it. */
  lemma SetIsSplice(file: Option<string>, name: string, value: string, other: string)
    requires '\n' !in name
    ensures FileLookup(Some(FileSet(file, name, value)), other) ==
            Lookup(Splice(FileLines(file), name, WrittenLines(name, value)), other)
  {
    var lines, written := FileLines(file), WrittenLines(name, value);
    if file.Some? {
      LinesAreSingle(file.value);
    }
    WrittenJoins(name, value);
    SpliceJoins(lines, name, name + "=" + value, written);
    SpliceSingle(lines, name, written);
    LinesOfJoin(Splice(lines, name, written));
    LookupStripCrs(Splice(lines, name, written), other);
  }

  lemma FirstLineIsEntry(name: string, value: string)
    requires ProperName(name)
    ensures EntryVar(WrittenLines(name, value)[0]) == Some(name)
    ensures Clean(ParseEntry(WrittenLines(name, value)[0]).value.1) == Clean(Parts(value)[0])
  {
    JoinSplit(value);
    WrittenEntry(name, Parts(value)[0]);
  }

  /** The written lines answer for another key exactly when some later line of the value does. */
  lemma WrittenAnswers(name: string, value: string, other: string)
    requires ProperName(name) && other != name
    ensures Lookup(WrittenLines(name, value), other).Some? <==>
            exists k :: 1 <= k < |Parts(value)| && EntryVar(Parts(value)[k]) == Some(other)
  {
    FirstLineIsEntry(name, value);
    var parts, written := Parts(value), WrittenLines(name, value);
    assert forall k :: 1 <= k < |parts| ==> written[k] == parts[k];
    if k :| 1 <= k < |parts| && EntryVar(parts[k]) == Some(other) {
      LookupFinds(written, k, other);
    } else {
      LookupAt(written, |written|, other);
    }
  }

  /**
   `set` then lookup, through the write, join and line-split round trip, with comments and
   duplicate keys present: the key reads back the first line of its value, cleaned, and every
   other key is unchanged unless the value plants an entry for it.
   */
  lemma SetThenLookup(file: Option<string>, name: string, value: string, other: string)
    requires ProperName(name) && (other == name || Harmless(name, value))
    ensures FileLookup(Some(FileSet(file, name, value)), other) ==
            if other == name then Some(Clean(Parts(value)[0])) else FileLookup(file, other)
  {
    SetIsSplice(file, name, value, other);
    FirstLineIsEntry(name, value);
    if other != name {
      WrittenAnswers(name, value, other);
    }
    LookupSplice(FileLines(file), name, WrittenLines(name, value), other);
  }

  /**
   The exact condition: `set` leaves every other key of every file alone if and only if no
   later line of the value is an entry for another key.
   */
  lemma SetKeepsOthersIff(name: string, value: string)
    requires ProperName(name)
    ensures (forall file, other :: other != name ==>
               FileLookup(Some(FileSet(file, name, value)), other) == FileLookup(file, other)) <==>
            Harmless(name, value)
  {
    if Harmless(name, value) {
      forall file, other | other != name
        ensures FileLookup(Some(FileSet(file, name, value)), other) == FileLookup(file, other)
      {
        SetThenLookup(file, name, value, other);
      }
    } else {
      var k :| 1 <= k < |Parts(value)| && EntryVar(Parts(value)[k]).Some? && EntryVar(Parts(value)[k]) != Some(name);
      var other := EntryVar(Parts(value)[k]).value;
      SetIsSplice(None, name, value, other);
      WrittenAnswers(name, value, other);
      assert FileLookup(Some(FileSet(None, name, value)), other) != FileLookup(None, other);
    }
  }

  lemma OneLine(name: string, value: string)
    requires '\n' !in value
    ensures Parts(value) == [value] && Harmless(name, value)
  {
    IndexOfAbsent(value, '\n');
  }

  /** The round trip is exact for precisely the clean single-line values. */
  lemma SetRoundTripIff(file: Option<string>, name: string, value: string)
    requires ProperName(name)
    ensures FileLookup(Some(FileSet(file, name, value)), name) == Some(value) <==> CleanValue(value)
  {
    if '\n' in value {
      LookupIsSingleLine(Lines(FileSet(file, name, value)), name, FileSet(file, name, value));
    } else {
      OneLine(name, value);
      SetThenLookup(file, name, value, name);
      CleanFixed(value);
    }
  }

  lemma {:induction false} LookupIsSingleLine(lines: seq<string>, name: string, text: string)
    requires lines == Lines(text)
    ensures Lookup(lines, name).Some? ==> '\n' !in Lookup(lines, name).value
  {
    LinesAreSingle(text);
    SingleLinesLookup(lines, name);
  }

  lemma {:induction false} SingleLinesLookup(lines: seq<string>, name: string)
    requires SingleLines(lines)
    ensures Lookup(lines, name).Some? ==> '\n' !in Lookup(lines, name).value
  {
    if lines != [] {
      if EntryVar(lines[0]) == Some(name) {
        var line := lines[0];
        var value := ParseEntry(line).value.1;
        TrimWithin(line);
        TrimWithin(value);
        TrimQuotesWithin(Trim(value));
      } else {
        SingleLinesLookup(lines[1..], name);
      }
    }
  }

  lemma TrimWithin(s: string)
    ensures forall c :: c in Trim(s) ==> c in s
  {
    var a, b := TrimParts(s);
  }

  lemma {:induction false} TrimQuotesWithin(s: string)
    ensures forall c :: c in TrimQuotes(s) ==> c in s
  {
    if s != "" && s[0] == '"' {
      TrimQuotesWithin(s[1..]);
    } else if s != "" && s[|s| - 1] == '"' {
      TrimQuotesWithin(s[..|s| - 1]);
    }
  }

  /** A value with a newline can plant an entry for any other key. */
  lemma MultiLineValueLeaks(name: string, value: string, other: string, planted: string)
    requires ProperName(name) && ProperName(other) && name != other && '\n' !in value && '\n' !in planted
    ensures FileLookup(Some(FileSet(None, name, value + "\n" + other + "=" + planted)), other) == Some(Clean(planted))
    ensures FileLookup(None, other) == None
  {
    var first, second := name + "=" + value, other + "=" + planted;
    var lines := [first, second];
    var entry := name + "=" + (value + "\n" + other + "=" + planted);
    assert lines[1..] == [second];
    assert entry == JoinLines(lines);
    LinesOfJoin(lines);
    LookupStripCrs(lines, other);
    WrittenEntry(name, value);
    WrittenEntry(other, planted);
  }

  lemma {:induction false} DropLinesLookup(lines: seq<string>, name: string, other: string)
    ensures Lookup(DropLines(lines, name), other) == if other == name then None else Lookup(lines, other)
  {
    if lines != [] {
      DropLinesLookup(lines[1..], name, other);
    }
  }

  lemma {:induction false} DropLinesSingle(lines: seq<string>, name: string)
    requires SingleLines(lines)
    ensures SingleLines(DropLines(lines, name)) && |DropLines(lines, name)| <= |lines|
    ensures |DropLines(lines, name)| == |lines| ==> DropLines(lines, name) == lines
  {
    if lines != [] {
      DropLinesSingle(lines[1..], name);
    }
  }

  /** `remove` then lookup, through the same round trip: the key is gone, every other key is unchanged. */
  lemma RemoveThenLookup(file: Option<string>, name: string, other: string)
    ensures FileLookup(FileRemove(file, name), other) == if other == name then None else FileLookup(file, other)
  {
    var lines := FileLines(file);
    if file.Some? {
      LinesAreSingle(file.value);
    }
    var kept := DropLines(lines, name);
    DropLinesLookup(lines, name, other);
    DropLinesSingle(lines, name);
    if |kept| < |lines| {
      if JoinLines(kept) == "" {
        EmptyJoin(kept, other);
      } else {
        LinesOfJoin(kept);
        LookupStripCrs(kept, other);
      }
    }
  }

  /** Lines that join to nothing hold no entries. */
  lemma EmptyJoin(lines: seq<string>, name: string)
    requires JoinLines(lines) == ""
    ensures Lookup(lines, name) == None
  {
    if lines != [] {
      assert lines == [""];
    }
  }

  // ----- Whole runs -----

  datatype Op = SetOp(name: string, value: string) | RemoveOp(name: string)

  function RunFile(file: Option<string>, ops: seq<Op>): Option<string>
    decreases |ops|
  {
    if ops == [] then file
    else
      match ops[0]
      case SetOp(name, value) => RunFile(Some(FileSet(file, name, value)), ops[1..])
      case RemoveOp(name) => RunFile(FileRemove(file, name), ops[1..])
  }

  function RunMap(m: map<string, string>, ops: seq<Op>): map<string, string>
    decreases |ops|
  {
    if ops == [] then m
    else
      match ops[0]
      case SetOp(name, value) => RunMap(m[name := Clean(Parts(value)[0])], ops[1..])
      case RemoveOp(name) => RunMap(m - {name}, ops[1..])
  }

  ghost predicate Represents(file: Option<string>, m: map<string, string>) {
    forall name :: FileLookup(file, name) == if name in m then Some(m[name]) else None
  }

  /** Every run of `set` and `remove` on a file behaves as the same run on a map. */
  lemma {:induction false} FileRefinesMap(file: Option<string>, m: map<string, string>, ops: seq<Op>)
    requires Represents(file, m)
    requires forall i :: 0 <= i < |ops| && ops[i].SetOp? ==>
               ProperName(ops[i].name) && Harmless(ops[i].name, ops[i].value)
    ensures Represents(RunFile(file, ops), RunMap(m, ops))
    decreases |ops|
  {
    if ops != [] {
      match ops[0] {
        case SetOp(name, value) =>
          forall other { SetThenLookup(file, name, value, other); }
          FileRefinesMap(Some(FileSet(file, name, value)), m[name := Clean(Parts(value)[0])], ops[1..]);
        case RemoveOp(name) =>
          forall other { RemoveThenLookup(file, name, other); }
          FileRefinesMap(FileRemove(file, name), m - {name}, ops[1..]);
      }
    }
  }
}
