/**
 The string operations of the source language that the models rely on: trimming Unicode white
 space, splitting at a character, splitting into lines and joining lines.
 */
module Text {
  import opened Basics

  /** The Unicode `White_Space` characters. */
  predicate IsWhitespace(c: char) {
    || '\t' <= c <= '\r' || c == ' ' || c == '\U{85}' || c == '\U{A0}' || c == '\U{1680}'
    || '\U{2000}' <= c <= '\U{200A}' || c == '\U{2028}' || c == '\U{2029}' || c == '\U{202F}'
    || c == '\U{205F}' || c == '\U{3000}'
  }

  /** White space, code point by code point. */
  lemma WhitespaceIs(c: char)
    ensures IsWhitespace(c) <==>
            c as int in {0x09, 0x0A, 0x0B, 0x0C, 0x0D, 0x20, 0x85, 0xA0, 0x1680, 0x2000, 0x2001, 0x2002, 0x2003,
                         0x2004, 0x2005, 0x2006, 0x2007, 0x2008, 0x2009, 0x200A, 0x2028, 0x2029, 0x202F, 0x205F,
                         0x3000}
  {
  }

  predicate Blank(s: string) {
    forall i :: 0 <= i < |s| ==> IsWhitespace(s[i])
  }

  function TrimStart(s: string): string {
    if s != "" && IsWhitespace(s[0]) then TrimStart(s[1..]) else s
  }

  function TrimEnd(s: string): string {
    if s != "" && IsWhitespace(s[|s| - 1]) then TrimEnd(s[..|s| - 1]) else s
  }

  function Trim(s: string): string {
    TrimEnd(TrimStart(s))
  }

  /** Nothing to trim: the ends are not white space. */
  predicate Trimmed(s: string) {
    s == "" || (!IsWhitespace(s[0]) && !IsWhitespace(s[|s| - 1]))
  }

  lemma {:induction false} TrimStartSplit(s: string)
    ensures |TrimStart(s)| <= |s| && TrimStart(s) == s[|s| - |TrimStart(s)|..]
    ensures Blank(s[..|s| - |TrimStart(s)|])
    ensures TrimStart(s) != "" ==> !IsWhitespace(TrimStart(s)[0])
  {
    if s != "" && IsWhitespace(s[0]) {
      TrimStartSplit(s[1..]);
      var t := TrimStart(s);
      assert s[1..][|s| - 1 - |t|..] == s[|s| - |t|..];
      assert s[..|s| - |t|] == [s[0]] + s[1..][..|s| - 1 - |t|];
    } else {
      assert s[0..] == s;
    }
  }

  lemma {:induction false} TrimEndSplit(s: string)
    ensures |TrimEnd(s)| <= |s| && TrimEnd(s) == s[..|TrimEnd(s)|]
    ensures Blank(s[|TrimEnd(s)|..])
    ensures TrimEnd(s) != "" ==> !IsWhitespace(TrimEnd(s)[|TrimEnd(s)| - 1])
  {
    if s != "" && IsWhitespace(s[|s| - 1]) {
      TrimEndSplit(s[..|s| - 1]);
      assert s[|TrimEnd(s)|..] == s[..|s| - 1][|TrimEnd(s)|..] + [s[|s| - 1]];
    }
  }

  lemma TrimIsTrimmed(s: string)
    ensures Trimmed(Trim(s)) && |Trim(s)| <= |s|
    ensures |Trim(s)| == |s| ==> Trim(s) == s
    ensures Trim(Trim(s)) == Trim(s)
  {
    TrimStartSplit(s);
    TrimEndSplit(TrimStart(s));
    TrimPadded("", Trim(s), "");
    assert "" + Trim(s) + "" == Trim(s);
  }

  /** Trimming finds exactly the white space that surrounds a trimmed core. */
  lemma {:induction false} TrimPadded(a: string, core: string, b: string)
    requires Blank(a) && Blank(b) && Trimmed(core)
    ensures Trim(a + core + b) == core
  {
    var s := a + core + b;
    if a != "" {
      TrimPadded(a[1..], core, b);
      assert s[1..] == a[1..] + core + b;
    } else if core != "" {
      TrimEndPadded(core, b);
      assert s == core + b;
    } else {
      assert s == b;
      TrimStartSplit(b);
      TrimEndSplit(TrimStart(b));
    }
  }

  lemma {:induction false} TrimEndPadded(core: string, b: string)
    requires Blank(b) && core != "" && Trimmed(core)
    ensures TrimEnd(core + b) == core
  {
    if b == "" {
      assert core + b == core;
    } else {
      TrimEndPadded(core, b[..|b| - 1]);
      assert (core + b)[..|core + b| - 1] == core + b[..|b| - 1];
    }
  }

  /** Trimming a string that already has nothing to trim returns it, and nothing else does. */
  lemma TrimFixed(s: string)
    ensures Trim(s) == s <==> Trimmed(s)
  {
    TrimIsTrimmed(s);
    if Trimmed(s) {
      TrimPadded("", s, "");
      assert "" + s + "" == s;
    }
  }

  /** Every string is its trimmed core between blanks. */
  lemma TrimParts(s: string) returns (a: string, b: string)
    ensures Blank(a) && Blank(b) && s == a + Trim(s) + b
  {
    TrimStartSplit(s);
    TrimEndSplit(TrimStart(s));
    a, b := s[..|s| - |TrimStart(s)|], TrimStart(s)[|Trim(s)|..];
  }

  lemma BlankIffTrimEmpty(s: string)
    ensures Blank(s) <==> Trim(s) == ""
  {
    if Blank(s) {
      TrimPadded(s, "", "");
      assert s + "" + "" == s;
    } else {
      var a, b := TrimParts(s);
      assert Trim(s) == "" ==> s == a + b;
    }
  }

  /** The first index of `c`, or the length. */
  function IndexOf(s: string, c: char): (i: nat)
    ensures i <= |s|
    ensures i < |s| ==> s[i] == c
    ensures c !in s[..i]
  {
    if s == "" || s[0] == c then 0
    else
      var i := IndexOf(s[1..], c) + 1;
      assert s[..i] == [s[0]] + s[1..][..i - 1];
      i
  }

  /** `split_once`: around the first `c`. */
  function SplitOnce(s: string, c: char): Option<(string, string)> {
    var i := IndexOf(s, c);
    if i == |s| then None else Some((s[..i], s[i + 1..]))
  }

  lemma {:induction false} IndexOfAt(a: string, c: char, b: string)
    requires c !in a
    ensures IndexOf(a + [c] + b, c) == |a|
  {
    if a != "" {
      IndexOfAt(a[1..], c, b);
      assert (a + [c] + b)[1..] == a[1..] + [c] + b;
    }
  }

  lemma {:induction false} IndexOfAbsent(s: string, c: char)
    requires c !in s
    ensures IndexOf(s, c) == |s|
  {
    if s != "" {
      IndexOfAbsent(s[1..], c);
    }
  }

  lemma SplitOnceAt(a: string, c: char, b: string)
    requires c !in a
    ensures SplitOnce(a + [c] + b, c) == Some((a, b))
  {
    IndexOfAt(a, c, b);
    var s := a + [c] + b;
    assert s[..|a|] == a && s[|a| + 1..] == b;
  }

  /** `split`: around every `c`. */
  function SplitOn(s: string, c: char): (parts: seq<string>)
    ensures parts != []
    decreases |s|
  {
    var i := IndexOf(s, c);
    if i == |s| then [s] else [s[..i]] + SplitOn(s[i + 1..], c)
  }

  /** The parts with the separator between them. */
  function JoinWith(parts: seq<string>, c: char): string
    requires parts != []
  {
    if |parts| == 1 then parts[0] else parts[0] + [c] + JoinWith(parts[1..], c)
  }

  /** Parts that do not hold the separator are found again. */
  lemma {:induction false} SplitJoined(parts: seq<string>, c: char)
    requires parts != [] && forall i :: 0 <= i < |parts| ==> c !in parts[i]
    ensures SplitOn(JoinWith(parts, c), c) == parts
  {
    if |parts| == 1 {
      IndexOfAbsent(parts[0], c);
    } else {
      var rest := JoinWith(parts[1..], c);
      var s := parts[0] + [c] + rest;
      SplitJoined(parts[1..], c);
      IndexOfAt(parts[0], c, rest);
      assert s[..|parts[0]|] == parts[0] && s[|parts[0]| + 1..] == rest;
    }
  }

  lemma {:induction false} IndexOfAfter(a: string, s: string, c: char)
    requires c !in a
    ensures IndexOf(a + s, c) == |a| + IndexOf(s, c)
  {
    if a == "" {
      assert a + s == s;
    } else {
      IndexOfAfter(a[1..], s, c);
      assert (a + s)[1..] == a[1..] + s;
    }
  }

  /** Text without the separator goes to the first part. */
  lemma SplitOnAfter(a: string, s: string, c: char)
    requires c !in a
    ensures SplitOn(a + s, c) == [a + SplitOn(s, c)[0]] + SplitOn(s, c)[1..]
  {
    IndexOfAfter(a, s, c);
    var i := IndexOf(s, c);
    assert (a + s)[..|a| + i] == a + s[..i];
    if i < |s| {
      assert (a + s)[|a| + i + 1..] == s[i + 1..];
    } else {
      assert s[..i] == s;
    }
  }

  function StripCr(line: string): string {
    if line != "" && line[|line| - 1] == '\r' then line[..|line| - 1] else line
  }

  /** `str::lines`: cut at each newline, dropping one carriage return before it; no empty last line. */
  function Lines(s: string): seq<string>
    decreases |s|
  {
    if s == "" then []
    else
      var i := IndexOf(s, '\n');
      if i == |s| then [s] else [StripCr(s[..i])] + Lines(s[i + 1..])
  }

  function JoinLines(lines: seq<string>): string {
    if lines == [] then ""
    else if |lines| == 1 then lines[0]
    else lines[0] + "\n" + JoinLines(lines[1..])
  }

  predicate SingleLines(lines: seq<string>) {
    forall i :: 0 <= i < |lines| ==> '\n' !in lines[i]
  }

  function StripCrs(lines: seq<string>): seq<string> {
    if lines == [] then [] else [StripCr(lines[0])] + StripCrs(lines[1..])
  }

  lemma {:induction false} LinesAreSingle(s: string)
    ensures SingleLines(Lines(s))
    decreases |s|
  {
    if s != "" {
      var i := IndexOf(s, '\n');
      if i == |s| {
        assert s[..i] == s;
      } else {
        LinesAreSingle(s[i + 1..]);
      }
    }
  }

  /** Writing lines out and reading them back only loses a carriage return at the end of each. */
  lemma {:induction false} LinesOfJoin(lines: seq<string>)
    requires SingleLines(lines) && lines != []
    ensures Lines(JoinLines(lines) + "\n") == StripCrs(lines)
  {
    var rest := if |lines| == 1 then "" else JoinLines(lines[1..]) + "\n";
    var s := JoinLines(lines) + "\n";
    assert s == lines[0] + "\n" + rest;
    SplitOnceAt(lines[0], '\n', rest);
    assert Lines(s) == [StripCr(lines[0])] + Lines(rest);
    if |lines| > 1 {
      LinesOfJoin(lines[1..]);
    }
  }

  /** A last line without a newline is read too, and as it stands. */
  lemma {:induction false} LinesUnterminated(lines: seq<string>, last: string)
    requires SingleLines(lines) && '\n' !in last && last != ""
    ensures Lines(JoinLines(lines + [last])) == StripCrs(lines) + [last]
  {
    if lines == [] {
      assert lines + [last] == [last];
      IndexOfAbsent(last, '\n');
    } else {
      var rest := JoinLines(lines[1..] + [last]);
      assert (lines + [last])[1..] == lines[1..] + [last];
      var s := JoinLines(lines + [last]);
      assert s == lines[0] + ['\n'] + rest;
      LinesUnterminated(lines[1..], last);
      IndexOfAt(lines[0], '\n', rest);
      assert s[..|lines[0]|] == lines[0] && s[|lines[0]| + 1..] == rest;
    }
  }

  lemma TrimDropsHead(head: string, s: string)
    requires Blank(head)
    ensures Trim(head + s) == Trim(s)
  {
    var a, b := TrimParts(s);
    TrimIsTrimmed(s);
    assert head + s == (head + a) + Trim(s) + b;
    TrimPadded(head + a, Trim(s), b);
  }

  /** White space after a string does not change what trimming leaves. */
  lemma TrimDropsTail(s: string, tail: string)
    requires Blank(tail)
    ensures Trim(s + tail) == Trim(s)
  {
    var a, b := TrimParts(s);
    TrimIsTrimmed(s);
    assert s + tail == a + Trim(s) + (b + tail);
    TrimPadded(a, Trim(s), b + tail);
  }

  /** Trimming starts at the first character that is not white space. */
  lemma FirstNonBlank(s: string, i: nat)
    requires i < |s| && Blank(s[..i]) && !IsWhitespace(s[i])
    ensures Trim(s) != "" && Trim(s)[0] == s[i]
  {
    TrimDropsHead(s[..i], s[i..]);
    assert s == s[..i] + s[i..];
    var t := s[i..];
    assert TrimStart(t) == t && t[0] == s[i];
    TrimEndSplit(t);
    assert t == TrimEnd(t) + t[|TrimEnd(t)|..];
  }

  /** A text cut at its newlines and joined again is the text. */
  lemma {:induction false} JoinSplit(s: string)
    ensures JoinLines(SplitOn(s, '\n')) == s && SingleLines(SplitOn(s, '\n'))
    decreases |s|
  {
    var i := IndexOf(s, '\n');
    if i < |s| {
      JoinSplit(s[i + 1..]);
      assert s == s[..i] + "\n" + s[i + 1..];
      assert SplitOn(s, '\n')[1..] == SplitOn(s[i + 1..], '\n');
    } else {
      assert s[..i] == s;
    }
  }

  lemma {:induction false} JoinConcat(a: seq<string>, b: seq<string>)
    requires a != [] && b != []
    ensures JoinLines(a + b) == JoinLines(a) + "\n" + JoinLines(b)
  {
    assert (a + b)[1..] == a[1..] + b;
    if |a| == 1 {
      assert a[1..] + b == b;
    } else {
      JoinConcat(a[1..], b);
    }
  }

  predicate StartsWith(s: string, prefix: string) {
    prefix <= s
  }
}
