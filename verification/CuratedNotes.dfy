/**
 The capped, always-in-context notes: two small files edited by `add`, `replace` and `remove`,
 refused rather than truncated when they would outgrow their caps, and rendered into one block.
 File writes succeed.
 */
module CuratedNotes {
  import opened Basics
  import opened Text

  const NOTES_CHAR_CAP: nat := 2000
  const USER_CHAR_CAP: nat := 1200

  datatype Target = Agent | User

  function CharCap(target: Target): nat {
    match target
    case Agent => NOTES_CHAR_CAP
    case User => USER_CHAR_CAP
  }

  datatype Error = EmptyText | NoMatch | OverCap(len: nat)

  datatype Result<+T> = Ok(value: T) | Fail(error: Error)

  /** The two files of an agent home; a missing file reads as empty. */
  datatype Home = Home(agent: Option<string>, user: Option<string>)
  {
    function File(target: Target): Option<string> {
      match target
      case Agent => agent
      case User => user
    }

    function With(target: Target, text: string): Home {
      match target
      case Agent => this.(agent := Some(text))
      case User => this.(user := Some(text))
    }
  }

  const EMPTY := Home(None, None)

  function ReadNote(home: Home, target: Target): string {
    match home.File(target)
    case None => ""
    case Some(text) => Trim(text)
  }

  /** The first index where `p` occurs in `s`. */
  function Find(s: string, p: string): (i: Option<nat>)
    ensures i.Some? ==> i.value + |p| <= |s| && s[i.value..i.value + |p|] == p
    ensures i.Some? ==> forall j :: 0 <= j < i.value ==> !(p <= s[j..])
    ensures i.None? ==> forall j :: 0 <= j <= |s| ==> !(p <= s[j..])
  {
    if p <= s then Some(0)
    else if s == "" then None
    else
      var rest := Find(s[1..], p);
      assert forall j :: 1 <= j <= |s| ==> s[1..][j - 1..] == s[j..];
      if rest.None? then None else Some(rest.value + 1)
  }

  /** `replacen(find, replacement, 1)`. */
  function ReplaceFirst(s: string, find: string, replacement: string): string {
    match Find(s, find)
    case None => s
    case Some(i) => s[..i] + replacement + s[i + |find|..]
  }

  function NonBlank(lines: seq<string>): seq<string> {
    if lines == [] then []
    else if Trim(lines[0]) == "" then NonBlank(lines[1..])
    else [lines[0]] + NonBlank(lines[1..])
  }

  datatype Op = Add(text: string) | Replace(find: string, replacement: string) | Remove(find: string)

  /** The new body an operation asks for. */
  function Edited(current: string, op: Op): Result<string> {
    match op
    case Add(text) =>
      if Trim(text) == "" then Fail(EmptyText)
      else Ok(if current == "" then Trim(text) else current + "\n" + Trim(text))
    case Replace(find, replacement) =>
      if find == "" then Fail(EmptyText)
      else if Find(current, find).None? then Fail(NoMatch)
      else Ok(Trim(ReplaceFirst(current, find, replacement)))
    case Remove(find) =>
      if find == "" then Fail(EmptyText)
      else if Find(current, find).None? then Fail(NoMatch)
      else Ok(Trim(JoinLines(NonBlank(Lines(ReplaceFirst(current, find, ""))))))
  }

  function Written(home: Home, target: Target, body: string): (Home, Result<string>) {
    if |body| > CharCap(target) then (home, Fail(OverCap(|body|)))
    else (home.With(target, body + "\n"), Ok(body))
  }

  function Apply(home: Home, target: Target, op: Op): (Home, Result<string>) {
    match Edited(ReadNote(home, target), op)
    case Fail(error) => (home, Fail(error))
    case Ok(body) => Written(home, target, body)
  }

  class NoteFiles {
    var home: Home

    constructor ()
      ensures home == EMPTY
    {
      home := EMPTY;
    }

    method WriteCapped(target: Target, contents: string) returns (r: Result<string>)
      modifies this
      ensures (home, r) == Written(old(home), target, contents)
    {
      if |contents| > CharCap(target) {
        return Fail(OverCap(|contents|));
      }
      home := home.With(target, contents + "\n");
      r := Ok(contents);
    }

    method AppendNote(target: Target, text: string) returns (r: Result<string>)
      modifies this
      ensures (home, r) == Apply(old(home), target, Add(text))
    {
      var addition := Trim(text);
      if addition == "" {
        return Fail(EmptyText);
      }
      var current := ReadNote(home, target);
      var next := if current == "" then addition else current + "\n" + addition;
      r := WriteCapped(target, next);
    }

    method ReplaceNote(target: Target, find: string, replacement: string) returns (r: Result<string>)
      modifies this
      ensures (home, r) == Apply(old(home), target, Replace(find, replacement))
    {
      if find == "" {
        return Fail(EmptyText);
      }
      var current := ReadNote(home, target);
      if Find(current, find).None? {
        return Fail(NoMatch);
      }
      r := WriteCapped(target, Trim(ReplaceFirst(current, find, replacement)));
    }

    method RemoveNote(target: Target, find: string) returns (r: Result<string>)
      modifies this
      ensures (home, r) == Apply(old(home), target, Remove(find))
    {
      if find == "" {
        return Fail(EmptyText);
      }
      var current := ReadNote(home, target);
      if Find(current, find).None? {
        return Fail(NoMatch);
      }
      var next := JoinLines(NonBlank(Lines(ReplaceFirst(current, find, ""))));
      r := WriteCapped(target, Trim(next));
    }
  }

  // ----- Every run keeps the files trimmed and within their caps -----

  /** A file is absent, or a trimmed body within the cap followed by one newline. */
  predicate GoodFile(home: Home, target: Target) {
    home.File(target).Some? ==>
      && home.File(target).value == ReadNote(home, target) + "\n"
      && |ReadNote(home, target)| <= CharCap(target)
  }

  predicate Good(home: Home) {
    GoodFile(home, Agent) && GoodFile(home, User)
  }

  lemma BodyReadsBack(body: string)
    requires Trimmed(body)
    ensures Trim(body + "\n") == body
  {
    TrimPadded("", body, "\n");
    assert "" + body + "\n" == body + "\n";
  }

  lemma ReadIsTrimmed(home: Home, target: Target)
    ensures Trimmed(ReadNote(home, target))
  {
    if home.File(target).Some? {
      TrimIsTrimmed(home.File(target).value);
    }
  }

  lemma EditedIsTrimmed(current: string, op: Op)
    requires Trimmed(current) && Edited(current, op).Ok?
    ensures Trimmed(Edited(current, op).value)
  {
    match op {
      case Add(text) => TrimIsTrimmed(text);
      case Replace(find, replacement) => TrimIsTrimmed(ReplaceFirst(current, find, replacement));
      case Remove(find) => TrimIsTrimmed(JoinLines(NonBlank(Lines(ReplaceFirst(current, find, "")))));
    }
  }

  /**
   One operation: the other file is untouched; a failure changes nothing; a success returns
   exactly what the next read returns, trimmed and within the cap.
   */
  lemma ApplyEffect(home: Home, target: Target, other: Target, op: Op)
    requires other != target
    ensures var (home', r) := Apply(home, target, op);
            && home'.File(other) == home.File(other)
            && (r.Fail? ==> home' == home)
            && (r.Ok? ==> ReadNote(home', target) == r.value && Trimmed(r.value) && |r.value| <= CharCap(target)
                          && home'.File(target) == Some(r.value + "\n"))
  {
    ReadIsTrimmed(home, target);
    var r := Edited(ReadNote(home, target), op);
    if r.Ok? {
      EditedIsTrimmed(ReadNote(home, target), op);
      BodyReadsBack(r.value);
    }
  }

  /** The two targets are two files, with a cap each. */
  lemma TargetsAre(agent: Option<string>, user: Option<string>, text: string)
    ensures Home(agent, user).File(Agent) == agent && Home(agent, user).File(User) == user
    ensures Home(agent, user).With(Agent, text) == Home(Some(text), user)
    ensures Home(agent, user).With(User, text) == Home(agent, Some(text))
    ensures CharCap(Agent) == 2_000 && CharCap(User) == 1_200
  {
  }

  /** An edit is stored when it fits the cap of its file, and refused with its length otherwise. */
  lemma StoredIff(home: Home, target: Target, op: Op)
    ensures var edited, cap := Edited(ReadNote(home, target), op), if target == Agent then 2_000 else 1_200;
            Apply(home, target, op) ==
            if edited.Fail? then (home, Fail(edited.error))
            else if |edited.value| > cap then (home, Fail(OverCap(|edited.value|)))
            else (if target == Agent then Home(Some(edited.value + "\n"), home.user)
                  else Home(home.agent, Some(edited.value + "\n")), Ok(edited.value))
  {
  }

  /** Adding puts the trimmed text on a line of its own, after what is there. */
  lemma AddIs(current: string, text: string)
    ensures Blank(text) ==> Edited(current, Add(text)) == Fail(EmptyText)
    ensures !Blank(text) && current == "" ==> Edited(current, Add(text)) == Ok(Trim(text))
    ensures !Blank(text) && current != "" ==> Edited(current, Add(text)) == Ok(current + "\n" + Trim(text))
  {
    BlankIffTrimEmpty(text);
  }

  lemma FindAt(a: string, find: string, b: string)
    requires forall j :: 0 <= j < |a| ==> !(find <= (a + find + b)[j..])
    ensures Find(a + find + b, find) == Some(|a|)
  {
    var s := a + find + b;
    assert s[|a|..] == find + b;
    var i := Find(s, find);
    if i.Some? {
      assert s[i.value..][..|find|] == s[i.value..i.value + |find|];
      assert find <= s[i.value..];
    }
  }

  lemma ReplaceFirstAt(a: string, find: string, b: string, replacement: string)
    requires forall j :: 0 <= j < |a| ==> !(find <= (a + find + b)[j..])
    ensures Find(a + find + b, find).Some? && ReplaceFirst(a + find + b, find, replacement) == a + replacement + b
  {
    FindAt(a, find, b);
    var s := a + find + b;
    assert s[..|a|] == a && s[|a| + |find|..] == b;
  }

  /** Replacing exchanges the first occurrence, and only that one. */
  lemma ReplaceIs(a: string, find: string, b: string, replacement: string)
    requires find != "" && forall j :: 0 <= j < |a| ==> !(find <= (a + find + b)[j..])
    ensures Edited(a + find + b, Replace(find, replacement)) == Ok(Trim(a + replacement + b))
  {
    ReplaceFirstAt(a, find, b, replacement);
  }

  /** Removing takes out the first occurrence and every line that is then blank. */
  lemma RemoveIs(a: string, find: string, b: string)
    requires find != "" && forall j :: 0 <= j < |a| ==> !(find <= (a + find + b)[j..])
    ensures Edited(a + find + b, Remove(find)) == Ok(Trim(JoinLines(NonBlank(Lines(a + b)))))
  {
    ReplaceFirstAt(a, find, b, "");
    assert a + "" == a;
  }

  /** Text that is empty, or nowhere in the body, cannot be replaced or removed. */
  lemma RefusedEdits(current: string, find: string, replacement: string)
    ensures find == "" ==>
              Edited(current, Replace(find, replacement)) == Edited(current, Remove(find)) == Fail(EmptyText)
    ensures find != "" && (forall j :: 0 <= j <= |current| ==> !(find <= current[j..])) ==>
              Edited(current, Replace(find, replacement)) == Edited(current, Remove(find)) == Fail(NoMatch)
  {
    var i := Find(current, find);
    if i.Some? {
      assert current[i.value..][..|find|] == current[i.value..i.value + |find|];
      assert find <= current[i.value..];
    }
  }

  /** The lines that are not blank, all of them, in order. */
  lemma {:induction false} NonBlankIs(a: seq<string>, b: seq<string>)
    ensures NonBlank(a + b) == NonBlank(a) + NonBlank(b)
  {
    if a == [] {
      assert a + b == b;
    } else {
      NonBlankIs(a[1..], b);
      assert (a + b)[0] == a[0] && (a + b)[1..] == a[1..] + b;
      Regroup([a[0]], NonBlank(a[1..]), NonBlank(b));
    }
  }

  lemma NonBlankOne(line: string)
    ensures NonBlank([line]) == if Blank(line) then [] else [line]
  {
    BlankIffTrimEmpty(line);
    assert [line][1..] == [];
  }

  function Run(ops: seq<(Target, Op)>): Home {
    if ops == [] then EMPTY
    else
      var (target, op) := ops[|ops| - 1];
      Apply(Run(ops[..|ops| - 1]), target, op).0
  }

  /** In every run from empty files, both files stay trimmed and within their caps. */
  lemma {:induction false} RunStaysGood(ops: seq<(Target, Op)>)
    ensures Good(Run(ops))
  {
    if ops != [] {
      var (target, op) := ops[|ops| - 1];
      RunStaysGood(ops[..|ops| - 1]);
      ApplyEffect(Run(ops[..|ops| - 1]), target, if target == Agent then User else Agent, op);
    }
  }

  // ----- Removing never overflows -----

  lemma {:induction false} LinesNoLonger(s: string)
    ensures |JoinLines(Lines(s))| <= |s|
    decreases |s|
  {
    if s != "" {
      var i := IndexOf(s, '\n');
      if i < |s| {
        LinesNoLonger(s[i + 1..]);
      }
    }
  }

  lemma {:induction false} NonBlankNoLonger(lines: seq<string>)
    ensures |JoinLines(NonBlank(lines))| <= |JoinLines(lines)|
    ensures NonBlank(lines) != [] && Trim(lines[0]) == "" ==> |JoinLines(NonBlank(lines))| < |JoinLines(lines)|
    ensures |NonBlank(lines)| <= |lines|
  {
    if |lines| > 0 {
      NonBlankNoLonger(lines[1..]);
    }
  }

  lemma RemoveShrinks(current: string, find: string)
    requires find != "" && Find(current, find).Some?
    ensures Edited(current, Remove(find)).Ok? && |Edited(current, Remove(find)).value| < |current|
  {
    var cut := ReplaceFirst(current, find, "");
    LinesNoLonger(cut);
    NonBlankNoLonger(Lines(cut));
    TrimIsTrimmed(JoinLines(NonBlank(Lines(cut))));
  }

  /** In any run, a `remove` succeeds exactly when its text is not empty and occurs; it never hits the cap. */
  lemma RemoveSucceedsIff(ops: seq<(Target, Op)>, target: Target, find: string)
    ensures Apply(Run(ops), target, Remove(find)).1.Ok? <==>
            find != "" && Find(ReadNote(Run(ops), target), find).Some?
  {
    RunStaysGood(ops);
    var current := ReadNote(Run(ops), target);
    assert |current| <= CharCap(target);
    if find != "" && Find(current, find).Some? {
      RemoveShrinks(current, find);
    }
  }

  /** Lines of which none is blank or ends in a carriage return. */
  predicate Compact(lines: seq<string>) {
    SingleLines(lines) && forall i :: 0 <= i < |lines| ==> Trim(lines[i]) != "" && StripCr(lines[i]) == lines[i]
  }

  lemma {:induction false} CompactKept(lines: seq<string>)
    requires Compact(lines)
    ensures StripCrs(lines) == lines && NonBlank(lines) == lines
  {
    if lines != [] {
      CompactKept(lines[1..]);
    }
  }

  /**
   On a compact body, the empty one included, removing text just added restores the body, unless
   the text already occurs earlier.
   */
  lemma RemoveUndoesAdd(lines: seq<string>, text: string)
    requires Compact(lines) && Trimmed(JoinLines(lines)) && Trim(text) != ""
    requires var added := Edited(JoinLines(lines), Add(text)).value;
             Find(added, Trim(text)) == Some(|added| - |Trim(text)|)
    ensures var added := Edited(JoinLines(lines), Add(text)).value;
            Edited(added, Remove(Trim(text))) == Ok(JoinLines(lines))
  {
    var body, t := JoinLines(lines), Trim(text);
    TrimFixed(body);
    if lines == [] {
      assert ReplaceFirst(t, t, "") == "";
    } else {
      assert ReplaceFirst(body + "\n" + t, t, "") == body + "\n";
      LinesOfJoin(lines);
      CompactKept(lines);
    }
  }

  // ----- The injected block -----

  const HEADER := "# Curated memory (what I durably know)\nMy capped, always-in-context notes. "
                  + "Keep them accurate and consolidated; curate with the `note` tool.\n"
  const NOTES_HEADING := "\n## Notes (env, conventions, lessons)\n"
  const USER_HEADING := "\n## About the user\n"

  function Section(heading: string, body: string): string {
    if body == "" then "" else heading + body + "\n"
  }

  function Block(home: Home): Option<string> {
    var notes, user := ReadNote(home, Agent), ReadNote(home, User);
    if notes == "" && user == "" then None
    else Some(HEADER + Section(NOTES_HEADING, notes) + Section(USER_HEADING, user))
  }

  method AssembleBlock(home: Home) returns (block: Option<string>)
    ensures block == Block(home)
    ensures var notes, user := ReadNote(home, Agent), ReadNote(home, User);
            block == if notes == "" && user == "" then None
                     else if user == "" then Some(HEADER + (NOTES_HEADING + notes + "\n"))
                     else if notes == "" then Some(HEADER + (USER_HEADING + user + "\n"))
                     else Some(HEADER + (NOTES_HEADING + notes + "\n") + (USER_HEADING + user + "\n"))
  {
    var notes := ReadNote(home, Agent);
    var user := ReadNote(home, User);
    if notes == "" && user == "" {
      return None;
    }
    var text := HEADER;
    if notes != "" {
      text := text + NOTES_HEADING;
      text := text + notes;
      text := text + "\n";
    }
    assert text == HEADER + Section(NOTES_HEADING, notes);
    ghost var head := text;
    if user != "" {
      text := text + USER_HEADING;
      text := text + user;
      text := text + "\n";
    }
    assert text == head + Section(USER_HEADING, user);
    block := Some(text);
  }

  /**
   In any run the block is absent exactly when both files are empty, and otherwise its size is
   bounded by a constant plus the two caps.
   */
  lemma BlockBounded(ops: seq<(Target, Op)>)
    ensures Block(Run(ops)).None? <==> ReadNote(Run(ops), Agent) == "" && ReadNote(Run(ops), User) == ""
    ensures Block(Run(ops)).Some? ==>
              |Block(Run(ops)).value| <=
              |HEADER| + |NOTES_HEADING| + |USER_HEADING| + 2 + NOTES_CHAR_CAP + USER_CHAR_CAP
  {
    RunStaysGood(ops);
  }
}
