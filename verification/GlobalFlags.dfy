/**
 The position-tolerant global flags of the command line: five flags that may stand anywhere,
 each taking the next token as its value, with every other token passed through in order.
 */
module GlobalFlags {
  import opened Basics

  datatype Result<+T> = Ok(value: T) | MissingValue(flag: string)

  datatype Flag = MemoryDb | OrganizationId | ProjectId | ProjectName | AgentName

  function FlagOf(token: string): Option<Flag> {
    if token == "--memory-db" then Some(MemoryDb)
    else if token == "--organization-id" then Some(OrganizationId)
    else if token == "--project-id" then Some(ProjectId)
    else if token == "--project-name" then Some(ProjectName)
    else if token == "--agent" then Some(AgentName)
    else None
  }

  datatype Overrides = Overrides(memoryDb: Option<string>, organizationId: Option<string>, projectId: Option<string>,
                                 projectName: Option<string>, agent: Option<string>)
  {
    function Get(flag: Flag): Option<string> {
      match flag
      case MemoryDb => memoryDb
      case OrganizationId => organizationId
      case ProjectId => projectId
      case ProjectName => projectName
      case AgentName => agent
    }

    function With(flag: Flag, value: string): Overrides {
      match flag
      case MemoryDb => this.(memoryDb := Some(value))
      case OrganizationId => this.(organizationId := Some(value))
      case ProjectId => this.(projectId := Some(value))
      case ProjectName => this.(projectName := Some(value))
      case AgentName => this.(agent := Some(value))
    }
  }

  const NO_OVERRIDES := Overrides(None, None, None, None, None)

  /** A value must be there and must not look like a flag. */
  predicate IsValue(token: string) {
    !("--" <= token)
  }

  function RequiredValue(args: seq<string>, index: nat, name: string): Result<string> {
    if index + 1 < |args| && IsValue(args[index + 1]) then Ok(args[index + 1]) else MissingValue(name)
  }

  /** What the parser makes of `args[i..]`, given what it has so far. */
  function ParseFrom(args: seq<string>, i: nat, o: Overrides, rest: seq<string>): Result<(Overrides, seq<string>)>
    requires i <= |args|
    decreases |args| - i
  {
    if i == |args| then Ok((o, rest))
    else
      match FlagOf(args[i])
      case None => ParseFrom(args, i + 1, o, rest + [args[i]])
      case Some(flag) =>
        match RequiredValue(args, i, args[i])
        case MissingValue(name) => MissingValue(name)
        case Ok(value) => ParseFrom(args, i + 2, o.With(flag, value), rest)
  }

  method ParseGlobalOverrides(args: seq<string>) returns (r: Result<(Overrides, seq<string>)>)
    ensures r == ParseFrom(args, 0, NO_OVERRIDES, [])
  {
    var overrides := NO_OVERRIDES;
    var rest := [];
    var index := 0;
    while index < |args|
      invariant 0 <= index <= |args|
      invariant ParseFrom(args, index, overrides, rest) == ParseFrom(args, 0, NO_OVERRIDES, [])
    {
      var flag := FlagOf(args[index]);
      if flag.Some? {
        var value := RequiredValue(args, index, args[index]);
        if value.MissingValue? {
          return MissingValue(value.flag);
        }
        overrides := overrides.With(flag.value, value.value);
        index := index + 2;
      } else {
        rest := rest + [args[index]];
        index := index + 1;
      }
    }
    r := Ok((overrides, rest));
  }

  // ----- The meaning of an argument list -----

  /** An argument list is read as flag/value pairs and plain tokens. */
  datatype Item = Pair(name: string, flag: Flag, value: string) | Plain(token: string)

  predicate ItemOk(item: Item) {
    match item
    case Pair(name, flag, value) => FlagOf(name) == Some(flag) && IsValue(value)
    case Plain(token) => FlagOf(token).None?
  }

  predicate ItemsOk(items: seq<Item>) {
    forall i :: 0 <= i < |items| ==> ItemOk(items[i])
  }

  function Flatten(items: seq<Item>): seq<string> {
    if items == [] then []
    else
      match items[0]
      case Pair(name, _, value) => [name, value] + Flatten(items[1..])
      case Plain(token) => [token] + Flatten(items[1..])
  }

  function Plains(items: seq<Item>): seq<string> {
    if items == [] then []
    else if items[0].Plain? then [items[0].token] + Plains(items[1..])
    else Plains(items[1..])
  }

  /** The last value given for a flag. */
  function LastValue(items: seq<Item>, flag: Flag): Option<string> {
    if items == [] then None
    else
      var last := items[|items| - 1];
      if last.Pair? && last.flag == flag then Some(last.value) else LastValue(items[..|items| - 1], flag)
  }

  function Applied(o: Overrides, items: seq<Item>): Overrides
    decreases |items|
  {
    if items == [] then o
    else if items[0].Pair? then Applied(o.With(items[0].flag, items[0].value), items[1..])
    else Applied(o, items[1..])
  }

  /** On a readable list the parser succeeds; the overrides fold the pairs and the plain tokens remain. */
  lemma {:induction false} ParseFlatten(prefix: seq<string>, items: seq<Item>, o: Overrides, rest: seq<string>)
    requires ItemsOk(items)
    ensures ParseFrom(prefix + Flatten(items), |prefix|, o, rest) == Ok((Applied(o, items), rest + Plains(items)))
    decreases |items|
  {
    var args := prefix + Flatten(items);
    if items == [] {
      assert rest + [] == rest;
    } else {
      var item, more := items[0], items[1..];
      assert ItemOk(item);
      match item {
        case Pair(name, flag, value) =>
          ParseFlatten(prefix + [name, value], more, o.With(flag, value), rest);
          assert args == prefix + [name, value] + Flatten(more);
        case Plain(token) =>
          ParseFlatten(prefix + [token], more, o, rest + [token]);
          assert args == prefix + [token] + Flatten(more);
          assert rest + [token] + Plains(more) == rest + ([token] + Plains(more));
      }
    }
  }

  /** Every accepted list is readable. */
  lemma {:induction false} AcceptedIsReadable(args: seq<string>, i: nat, o: Overrides, rest: seq<string>)
    returns (items: seq<Item>)
    requires i <= |args| && ParseFrom(args, i, o, rest).Ok?
    ensures ItemsOk(items) && Flatten(items) == args[i..]
    decreases |args| - i
  {
    if i == |args| {
      items := [];
    } else if FlagOf(args[i]).None? {
      var more := AcceptedIsReadable(args, i + 1, o, rest + [args[i]]);
      items := [Plain(args[i])] + more;
    } else {
      var flag := FlagOf(args[i]).value;
      var more := AcceptedIsReadable(args, i + 2, o.With(flag, args[i + 1]), rest);
      items := [Pair(args[i], flag, args[i + 1])] + more;
    }
  }

  /** The last value wins, per flag. */
  lemma {:induction false} AppliedGet(o: Overrides, items: seq<Item>, flag: Flag)
    ensures Applied(o, items).Get(flag) == if LastValue(items, flag).Some? then LastValue(items, flag) else o.Get(flag)
  {
    if items != [] {
      var front, last := items[..|items| - 1], items[|items| - 1];
      AppliedGet(o, front, flag);
      AppliedSnoc(o, items);
    }
  }

  lemma {:induction false} AppliedSnoc(o: Overrides, items: seq<Item>)
    requires items != []
    ensures var front, last := items[..|items| - 1], items[|items| - 1];
            Applied(o, items) == if last.Pair? then Applied(o, front).With(last.flag, last.value) else Applied(o, front)
    decreases |items|
  {
    if |items| > 1 {
      AppliedSnoc(if items[0].Pair? then o.With(items[0].flag, items[0].value) else o, items[1..]);
      assert items[1..][..|items| - 2] == items[..|items| - 1][1..];
    }
  }

  /** The whole result, for every readable list: the last value of each flag, and the plain tokens in order. */
  lemma ParseMeaning(items: seq<Item>, flag: Flag)
    requires ItemsOk(items)
    ensures var r := ParseFrom(Flatten(items), 0, NO_OVERRIDES, []);
            && r.Ok?
            && r.value.0.Get(flag) == LastValue(items, flag)
            && r.value.1 == Plains(items)
  {
    ParseFlatten([], items, NO_OVERRIDES, []);
    assert [] + Flatten(items) == Flatten(items) && [] + Plains(items) == Plains(items);
    AppliedGet(NO_OVERRIDES, items, flag);
  }

  /** The last value that follows this text. */
  function LastNamed(items: seq<Item>, name: string): Option<string> {
    if items == [] then None
    else
      var last := items[|items| - 1];
      if last.Pair? && last.name == name then Some(last.value) else LastNamed(items[..|items| - 1], name)
  }

  lemma FlagTexts(token: string, flag: Flag)
    ensures FlagOf(token) == Some(flag) <==> token == FlagText(flag)
  {
    assert "--memory-db"[2] == 'm' && "--organization-id"[2] == 'o' && "--agent"[2] == 'a';
    assert "--project-id"[10] == 'i' && "--project-name"[10] == 'n' && "--project-id"[2] == 'p';
  }

  function FlagText(flag: Flag): string {
    match flag
    case MemoryDb => "--memory-db"
    case OrganizationId => "--organization-id"
    case ProjectId => "--project-id"
    case ProjectName => "--project-name"
    case AgentName => "--agent"
  }

  lemma {:induction false} LastByText(items: seq<Item>, flag: Flag)
    requires ItemsOk(items)
    ensures LastValue(items, flag) == LastNamed(items, FlagText(flag))
  {
    if items != [] {
      var last := items[|items| - 1];
      assert ItemOk(last);
      if last.Pair? {
        FlagTexts(last.name, last.flag);
        FlagTexts(last.name, flag);
      }
      LastByText(items[..|items| - 1], flag);
    }
  }

  /** Each flag sets its own field, to the last value that follows it. */
  lemma ParseFields(items: seq<Item>)
    requires ItemsOk(items)
    ensures var r := ParseFrom(Flatten(items), 0, NO_OVERRIDES, []);
            && r.Ok?
            && r.value.0.memoryDb == LastNamed(items, "--memory-db")
            && r.value.0.organizationId == LastNamed(items, "--organization-id")
            && r.value.0.projectId == LastNamed(items, "--project-id")
            && r.value.0.projectName == LastNamed(items, "--project-name")
            && r.value.0.agent == LastNamed(items, "--agent")
  {
    FieldIs(items, MemoryDb);
    FieldIs(items, OrganizationId);
    FieldIs(items, ProjectId);
    FieldIs(items, ProjectName);
    FieldIs(items, AgentName);
  }

  lemma FieldIs(items: seq<Item>, flag: Flag)
    requires ItemsOk(items)
    ensures var r := ParseFrom(Flatten(items), 0, NO_OVERRIDES, []);
            r.Ok? && r.value.0.Get(flag) == LastNamed(items, FlagText(flag))
  {
    ParseMeaning(items, flag);
    LastByText(items, flag);
  }

  /** A value is any token that does not begin with two dashes. */
  lemma IsValueIff(token: string)
    ensures IsValue(token) <==> !(|token| >= 2 && token[0] == '-' && token[1] == '-')
  {
    if |token| >= 2 {
      assert token[..2] == [token[0], token[1]];
    }
  }

  /** After a readable stretch the parser stands at what follows it. */
  lemma {:induction false} ParseThrough(prefix: seq<string>, items: seq<Item>, suffix: seq<string>, o: Overrides,
                                        rest: seq<string>)
    requires ItemsOk(items)
    ensures var args := prefix + Flatten(items) + suffix;
            ParseFrom(args, |prefix|, o, rest) ==
            ParseFrom(args, |prefix + Flatten(items)|, Applied(o, items), rest + Plains(items))
    decreases |items|
  {
    var args := prefix + Flatten(items) + suffix;
    if items == [] {
      assert rest + [] == rest && prefix + [] == prefix;
    } else {
      var item, more := items[0], items[1..];
      assert ItemOk(item);
      match item {
        case Pair(name, flag, value) =>
          ParseThrough(prefix + [name, value], more, suffix, o.With(flag, value), rest);
          assert prefix + Flatten(items) == prefix + [name, value] + Flatten(more);
        case Plain(token) =>
          ParseThrough(prefix + [token], more, suffix, o, rest + [token]);
          assert prefix + Flatten(items) == prefix + [token] + Flatten(more);
          assert rest + [token] + Plains(more) == rest + ([token] + Plains(more));
      }
    }
  }

  lemma MissingHere(args: seq<string>, i: nat, o: Overrides, rest: seq<string>)
    requires i < |args| && FlagOf(args[i]).Some? && (i + 1 == |args| || !IsValue(args[i + 1]))
    ensures ParseFrom(args, i, o, rest) == MissingValue(args[i])
  {
  }

  /** The first flag without a value is the one the error names. */
  lemma RefusedAt(items: seq<Item>, name: string, suffix: seq<string>)
    requires ItemsOk(items) && FlagOf(name).Some? && (suffix == [] || !IsValue(suffix[0]))
    ensures ParseFrom(Flatten(items) + ([name] + suffix), 0, NO_OVERRIDES, []) == MissingValue(name)
  {
    var args := Flatten(items) + ([name] + suffix);
    ParseThrough([], items, [name] + suffix, NO_OVERRIDES, []);
    assert [] + Flatten(items) == Flatten(items);
    assert args[|Flatten(items)|] == name;
    assert suffix != [] ==> args[|Flatten(items)| + 1] == suffix[0];
    MissingHere(args, |Flatten(items)|, Applied(NO_OVERRIDES, items), [] + Plains(items));
  }

  /** A list is accepted exactly when it reads as pairs and plain tokens. */
  lemma AcceptedIff(args: seq<string>)
    ensures ParseFrom(args, 0, NO_OVERRIDES, []).Ok? <==> exists items :: ItemsOk(items) && Flatten(items) == args
  {
    if ParseFrom(args, 0, NO_OVERRIDES, []).Ok? {
      var items := AcceptedIsReadable(args, 0, NO_OVERRIDES, []);
      assert args[0..] == args;
    }
    forall items | ItemsOk(items) && Flatten(items) == args ensures ParseFrom(args, 0, NO_OVERRIDES, []).Ok? {
      ParseMeaning(items, AgentName);
    }
  }

  lemma OverridesEqual(a: Overrides, b: Overrides)
    requires forall flag :: a.Get(flag) == b.Get(flag)
    ensures a == b
  {
    assert a.Get(MemoryDb) == b.Get(MemoryDb) && a.Get(OrganizationId) == b.Get(OrganizationId);
    assert a.Get(ProjectId) == b.Get(ProjectId) && a.Get(ProjectName) == b.Get(ProjectName);
    assert a.Get(AgentName) == b.Get(AgentName);
  }

  /**
   Position tolerance in full: any two readable lists with the same plain tokens in order and
   the same last value per flag parse alike, however their pairs are placed.
   */
  lemma PositionTolerant(a: seq<Item>, b: seq<Item>)
    requires ItemsOk(a) && ItemsOk(b) && Plains(a) == Plains(b)
    requires forall flag :: LastValue(a, flag) == LastValue(b, flag)
    ensures ParseFrom(Flatten(a), 0, NO_OVERRIDES, []) == ParseFrom(Flatten(b), 0, NO_OVERRIDES, [])
  {
    ParseMeaning(a, AgentName);
    ParseMeaning(b, AgentName);
    var x, y := ParseFrom(Flatten(a), 0, NO_OVERRIDES, []).value.0, ParseFrom(Flatten(b), 0, NO_OVERRIDES, []).value.0;
    forall flag ensures x.Get(flag) == y.Get(flag) {
      ParseMeaning(a, flag);
      ParseMeaning(b, flag);
    }
    OverridesEqual(x, y);
  }

  lemma {:induction false} PlainsConcat(a: seq<Item>, b: seq<Item>)
    ensures Plains(a + b) == Plains(a) + Plains(b)
  {
    if a == [] {
      assert a + b == b;
    } else {
      PlainsConcat(a[1..], b);
      assert (a + b)[1..] == a[1..] + b;
    }
  }

  lemma {:induction false} LastValueConcat(a: seq<Item>, b: seq<Item>, flag: Flag)
    ensures LastValue(a + b, flag) == if LastValue(b, flag).Some? then LastValue(b, flag) else LastValue(a, flag)
  {
    if b == [] {
      assert a + b == a;
    } else {
      LastValueConcat(a, b[..|b| - 1], flag);
      assert (a + b)[..|a + b| - 1] == a + b[..|b| - 1];
    }
  }

  /** Moving a pair past a plain token, in the middle of any readable list, changes nothing. */
  lemma PairMovesPastToken(before: seq<Item>, pair: Item, token: Item, after: seq<Item>)
    requires ItemsOk(before + [pair, token] + after) && pair.Pair? && token.Plain?
    ensures ItemsOk(before + [token, pair] + after)
    ensures ParseFrom(Flatten(before + [pair, token] + after), 0, NO_OVERRIDES, []) ==
            ParseFrom(Flatten(before + [token, pair] + after), 0, NO_OVERRIDES, [])
  {
    var a, b := before + [pair, token] + after, before + [token, pair] + after;
    assert ItemOk(a[|before|]) && ItemOk(a[|before| + 1]);
    assert forall i :: 0 <= i < |b| && i != |before| && i != |before| + 1 ==> b[i] == a[i];
    assert b[|before|] == token && b[|before| + 1] == pair;
    PlainsConcat(before + [pair, token], after);
    PlainsConcat(before, [pair, token]);
    PlainsConcat(before + [token, pair], after);
    PlainsConcat(before, [token, pair]);
    forall flag ensures LastValue(a, flag) == LastValue(b, flag) {
      LastValueConcat(before + [pair, token], after, flag);
      LastValueConcat(before, [pair, token], flag);
      LastValueConcat(before + [token, pair], after, flag);
      LastValueConcat(before, [token, pair], flag);
    }
    PositionTolerant(a, b);
  }

  lemma {:induction false} PlainsStayPlain(items: seq<Item>) returns (plain: seq<Item>)
    requires ItemsOk(items)
    ensures ItemsOk(plain) && Flatten(plain) == Plains(items) == Plains(plain)
    ensures forall i :: 0 <= i < |plain| ==> plain[i].Plain?
  {
    if items == [] {
      plain := [];
    } else {
      plain := PlainsStayPlain(items[1..]);
      assert ItemOk(items[0]);
      if items[0].Plain? {
        plain := [items[0]] + plain;
      }
    }
  }

  lemma {:induction false} NoPairNoValue(items: seq<Item>, flag: Flag)
    requires forall i :: 0 <= i < |items| ==> items[i].Plain?
    ensures LastValue(items, flag) == None
  {
    if items != [] {
      NoPairNoValue(items[..|items| - 1], flag);
    }
  }

  /** Parsing what remains of an accepted list finds no overrides and returns it unchanged. */
  lemma RemainderReparses(args: seq<string>)
    requires ParseFrom(args, 0, NO_OVERRIDES, []).Ok?
    ensures var rest := ParseFrom(args, 0, NO_OVERRIDES, []).value.1;
            ParseFrom(rest, 0, NO_OVERRIDES, []) == Ok((NO_OVERRIDES, rest))
  {
    var items := AcceptedIsReadable(args, 0, NO_OVERRIDES, []);
    assert args[0..] == args;
    ParseMeaning(items, AgentName);
    var plain := PlainsStayPlain(items);
    ParseMeaning(plain, AgentName);
    var o := ParseFrom(Plains(items), 0, NO_OVERRIDES, []).value.0;
    forall flag ensures o.Get(flag) == NO_OVERRIDES.Get(flag) {
      ParseMeaning(plain, flag);
      NoPairNoValue(plain, flag);
    }
    OverridesEqual(o, NO_OVERRIDES);
  }
}
