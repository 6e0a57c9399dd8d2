/** Schedule specs: parsing `every 30m`-style intervals and describing an interval compactly. */
module CronSchedule {
  import opened Basics
  import opened Text
  import opened Decimal

  const U64_MOD: nat := 0x1_0000_0000_0000_0000

  datatype Parse = Parsed(secs: nat) | Invalid

  predicate IsAlpha(c: char) {
    'a' <= c <= 'z' || 'A' <= c <= 'Z'
  }

  function FindAlpha(s: string): nat {
    if s == "" || IsAlpha(s[0]) then 0 else 1 + FindAlpha(s[1..])
  }

  function UnitSecs(unit: string): Option<nat> {
    if unit in {"s", "sec", "secs", "second", "seconds"} then Some(1)
    else if unit in {"m", "min", "mins", "minute", "minutes"} then Some(60)
    else if unit in {"h", "hr", "hrs", "hour", "hours"} then Some(3_600)
    else if unit in {"d", "day", "days"} then Some(86_400)
    else if unit in {"w", "week", "weeks"} then Some(604_800)
    else None
  }

  function StripEvery(s: string): string {
    if StartsWith(s, "every ") then s[6..] else if StartsWith(s, "every") then s[5..] else s
  }

  /** The amount times the unit, when both parsed: a `u64` product, which wraps in a release build. */
  function Interval(amount: Option<nat>, unit: Option<nat>): Parse {
    if amount.None? || amount.value == 0 || unit.None? then Invalid
    else Parsed(amount.value * unit.value % U64_MOD)
  }

  function ParseBody(body: string): Parse {
    var split := FindAlpha(body);
    if split >= |body| then Invalid else Interval(ParseU64(Trim(body[..split])), UnitSecs(Trim(body[split..])))
  }

  function ParseSchedule(spec: string): Parse {
    ParseBody(Trim(StripEvery(Trim(spec))))
  }

  /** The largest unit that divides the interval. */
  function Humanize(secs: nat): string {
    if secs >= 604_800 && secs % 604_800 == 0 then Print(secs / 604_800) + "w"
    else if secs >= 86_400 && secs % 86_400 == 0 then Print(secs / 86_400) + "d"
    else if secs >= 3_600 && secs % 3_600 == 0 then Print(secs / 3_600) + "h"
    else if secs >= 60 && secs % 60 == 0 then Print(secs / 60) + "m"
    else Print(secs) + "s"
  }

  function Describe(secs: nat): string {
    "every " + Humanize(secs)
  }

  lemma {:induction false} FindAlphaAt(s: string, rest: string)
    requires rest != "" && IsAlpha(rest[0]) && forall i :: 0 <= i < |s| ==> !IsAlpha(s[i])
    ensures FindAlpha(s + rest) == |s|
  {
    if s != "" {
      FindAlphaAt(s[1..], rest);
      assert (s + rest)[1..] == s[1..] + rest;
    } else {
      assert s + rest == rest;
    }
  }

  /** A word the unit table may hold: it starts and ends with a letter. */
  predicate Word(unit: string) {
    unit != "" && IsAlpha(unit[0]) && IsAlpha(unit[|unit| - 1])
  }

  lemma UnitIsWord(unit: string)
    requires UnitSecs(unit).Some?
    ensures Word(unit) && 1 <= UnitSecs(unit).value <= 604_800
  {
  }

  /** What may stand before the unit: no letter, no white space at its ends. */
  predicate NumberText(number: string) {
    number != "" && Trimmed(number) && forall i :: 0 <= i < |number| ==> !IsAlpha(number[i])
  }

  /** The body is cut at its first letter. */
  lemma BodySplits(number: string, gap: string, unit: string)
    requires NumberText(number) && Blank(gap) && Word(unit)
    ensures var body := number + gap + unit;
            && FindAlpha(body) == |number| + |gap| < |body|
            && Trim(body[..|number| + |gap|]) == number && Trim(body[|number| + |gap|..]) == unit
  {
    var head := number + gap;
    forall i | 0 <= i < |head| ensures !IsAlpha(head[i]) {
      assert if i < |number| then !IsAlpha(number[i]) else IsWhitespace(gap[i - |number|]);
    }
    FindAlphaAt(head, unit);
    var body := number + gap + unit;
    assert body[..|head|] == head && body[|head|..] == unit;
    TrimPadded("", number, gap);
    assert "" + number + gap == head;
    TrimFixed(unit);
  }

  lemma StripsEvery(every: bool, gap: string, body: string)
    requires Blank(gap) && body != "" && Trimmed(body) && !IsAlpha(body[0])
    ensures Trim(StripEvery(if every then "every" + gap + body else body)) == body
  {
    if every {
      var s := "every" + gap + body;
      if StartsWith(s, "every ") {
        assert s[5] == ' ';
        assert gap != "" && s[6..] == gap[1..] + body + "";
        TrimPadded(gap[1..], body, "");
      } else {
        assert StartsWith(s, "every");
        assert s[5..] == gap + body + "";
        TrimPadded(gap, body, "");
      }
    } else {
      TrimFixed(body);
    }
  }

  /** A spec: white space, an optional `every`, a number, white space, a unit, white space. */
  function Spec(lead: string, every: bool, gap: string, number: string, inner: string, unit: string, tail: string)
    : string
  {
    lead + (if every then "every" + gap + (number + inner + unit) else number + inner + unit) + tail
  }

  /**
   Every such spelling is understood, or refused, by its number and its unit alone: the number
   as a `u64` (with an optional plus sign), the unit by the table.
   */
  lemma SpecParses(lead: string, every: bool, gap: string, number: string, inner: string, unit: string, tail: string)
    requires Blank(lead) && Blank(gap) && Blank(inner) && Blank(tail)
    requires NumberText(number) && Word(unit)
    ensures ParseSchedule(Spec(lead, every, gap, number, inner, unit, tail)) ==
            Interval(ParseU64(number), UnitSecs(unit))
  {
    var body := number + inner + unit;
    var core := if every then "every" + gap + body else body;
    assert body[0] == number[0] && body[|body| - 1] == unit[|unit| - 1];
    assert core[|core| - 1] == unit[|unit| - 1];
    assert core[0] == if every then 'e' else number[0];
    TrimPadded(lead, core, tail);
    StripsEvery(every, gap, body);
    BodySplits(number, inner, unit);
  }

  lemma DigitsAreNumber(plus: bool, digits: string)
    requires AllDigits(digits)
    ensures NumberText(if plus then "+" + digits else digits)
    ensures ParseU64(if plus then "+" + digits else digits) ==
            if Value(digits) <= U64_MAX then Some(Value(digits)) else None
  {
    var number := if plus then "+" + digits else digits;
    assert IsDigit(digits[0]) && number[|number| - 1] == digits[|digits| - 1];
    assert plus ==> number[1..] == digits;
  }

  // ----- Which specs are accepted -----

  /** A way of writing an interval. */
  datatype Spelling = Spelling(lead: string, every: bool, gap: string, number: string, inner: string, unit: string,
                               tail: string)

  /** `spec` is written this way: blank gaps, a positive number that is a `u64`, a unit of the table. */
  predicate Spells(p: Spelling, spec: string) {
    && Blank(p.lead) && Blank(p.gap) && Blank(p.inner) && Blank(p.tail)
    && ParseU64(p.number).Some? && ParseU64(p.number).value > 0
    && UnitSecs(p.unit).Some?
    && spec == Spec(p.lead, p.every, p.gap, p.number, p.inner, p.unit, p.tail)
  }

  lemma ParsedNumberText(number: string)
    requires ParseU64(number).Some?
    ensures NumberText(number)
  {
    var plus := StartsWith(number, "+");
    var digits := if plus then number[1..] else number;
    DigitsAreNumber(plus, digits);
    assert plus ==> number == "+" + digits;
  }

  lemma SpelledIsAccepted(p: Spelling, spec: string)
    requires Spells(p, spec)
    ensures ParseSchedule(spec) == Interval(ParseU64(p.number), UnitSecs(p.unit))
    ensures ParseSchedule(spec).Parsed?
  {
    ParsedNumberText(p.number);
    UnitIsWord(p.unit);
    SpecParses(p.lead, p.every, p.gap, p.number, p.inner, p.unit, p.tail);
  }

  lemma {:induction false} FindAlphaSplits(s: string)
    ensures FindAlpha(s) <= |s|
    ensures FindAlpha(s) < |s| ==> IsAlpha(s[FindAlpha(s)])
  {
    if s != "" && !IsAlpha(s[0]) {
      FindAlphaSplits(s[1..]);
    }
  }

  /** Text that starts with no white space has nothing to trim in front. */
  lemma TrimmedInFront(s: string) returns (b: string)
    requires s == "" || !IsWhitespace(s[0])
    ensures Blank(b) && s == Trim(s) + b
  {
    TrimEndSplit(s);
    assert TrimStart(s) == s;
    b := s[|Trim(s)|..];
  }

  /** The body of an accepted spec: a number, a gap and a unit. */
  lemma BodyShape(body: string) returns (inner: string)
    requires Trimmed(body) && FindAlpha(body) < |body|
    ensures Blank(inner)
    ensures body == Trim(body[..FindAlpha(body)]) + inner + Trim(body[FindAlpha(body)..])
  {
    FindAlphaSplits(body);
    var k := FindAlpha(body);
    var head, unit := body[..k], body[k..];
    assert body == head + unit && unit[0] == body[k] && unit[|unit| - 1] == body[|body| - 1];
    TrimFixed(unit);
    inner := TrimmedInFront(head);
  }

  lemma Regrouped(a: string, b: string, c: string, d: string)
    ensures a + (b + c + d) == (a + b + c) + d
  {
  }

  /** What `every` and the white space after it leave of a spec. */
  lemma EveryShape(core: string) returns (gap: string, tail: string)
    requires StartsWith(core, "every")
    ensures Blank(gap) && Blank(tail) && core == "every" + gap + Trim(StripEvery(core)) + tail
  {
    var a;
    a, tail := TrimParts(StripEvery(core));
    var body := Trim(StripEvery(core));
    if StartsWith(core, "every ") {
      gap := " " + a;
      assert core == "every" + (" " + core[6..]);
      assert " " + (a + body + tail) == gap + body + tail;
    } else {
      gap := a;
      assert core == "every" + core[5..];
    }
    Regrouped("every", gap, body, tail);
  }

  /** What is left of a trimmed spec after its optional `every`, and what stood before it. */
  lemma StripShape(core: string) returns (every: bool, gap: string, tail: string)
    requires Trimmed(core)
    ensures Blank(gap) && Blank(tail)
    ensures var body := Trim(StripEvery(core));
            core == (if every then "every" + gap + body else body) + tail
  {
    every := StartsWith(core, "every");
    if every {
      gap, tail := EveryShape(core);
    } else {
      TrimFixed(core);
      gap, tail := "", "";
    }
  }

  lemma AcceptedBody(spec: string)
    requires ParseSchedule(spec).Parsed?
    ensures var body := Trim(StripEvery(Trim(spec)));
            && Trimmed(body) && FindAlpha(body) < |body|
            && ParseU64(Trim(body[..FindAlpha(body)])).Some? && ParseU64(Trim(body[..FindAlpha(body)])).value > 0
            && UnitSecs(Trim(body[FindAlpha(body)..])).Some?
  {
    var body := Trim(StripEvery(Trim(spec)));
    TrimIsTrimmed(StripEvery(Trim(spec)));
    FindAlphaSplits(body);
  }

  lemma Assembled(p: Spelling, core: string, rest: string)
    requires core == (if p.every then "every" + p.gap + (p.number + p.inner + p.unit)
                      else p.number + p.inner + p.unit) + p.tail
    ensures p.lead + core + rest == Spec(p.lead, p.every, p.gap, p.number, p.inner, p.unit, p.tail + rest)
  {
  }

  /** The parts of a trimmed spec whose body is cut at a letter. */
  lemma CoreShape(lead: string, core: string) returns (p: Spelling)
    requires Trimmed(core)
    requires var body := Trim(StripEvery(core)); Trimmed(body) && FindAlpha(body) < |body|
    ensures var body := Trim(StripEvery(core));
            && p.number == Trim(body[..FindAlpha(body)]) && p.unit == Trim(body[FindAlpha(body)..])
    ensures p.lead == lead && Blank(p.gap) && Blank(p.inner) && Blank(p.tail)
    ensures core == (if p.every then "every" + p.gap + (p.number + p.inner + p.unit)
                     else p.number + p.inner + p.unit) + p.tail
  {
    var every, gap, tail := StripShape(core);
    var body := Trim(StripEvery(core));
    var inner := BodyShape(body);
    p := Spelling(lead, every, gap, Trim(body[..FindAlpha(body)]), inner, Trim(body[FindAlpha(body)..]), tail);
  }

  lemma SpellingOf(spec: string) returns (p: Spelling)
    requires var body := Trim(StripEvery(Trim(spec))); Trimmed(body) && FindAlpha(body) < |body|
    ensures var body := Trim(StripEvery(Trim(spec)));
            && p.number == Trim(body[..FindAlpha(body)]) && p.unit == Trim(body[FindAlpha(body)..])
            && Blank(p.lead) && Blank(p.gap) && Blank(p.inner) && Blank(p.tail)
            && spec == Spec(p.lead, p.every, p.gap, p.number, p.inner, p.unit, p.tail)
  {
    var lead, rest := TrimParts(spec);
    TrimIsTrimmed(spec);
    p := CoreShape(lead, Trim(spec));
    Assembled(p, Trim(spec), rest);
    p := p.(tail := p.tail + rest);
  }

  lemma AcceptedIsSpelled(spec: string) returns (p: Spelling)
    requires ParseSchedule(spec).Parsed?
    ensures Spells(p, spec)
  {
    AcceptedBody(spec);
    p := SpellingOf(spec);
  }

  /** A spec is accepted if and only if it is written that way. */
  lemma AcceptedIff(spec: string)
    ensures ParseSchedule(spec).Parsed? <==> exists p :: Spells(p, spec)
  {
    if ParseSchedule(spec).Parsed? {
      var p := AcceptedIsSpelled(spec);
    }
    if p :| Spells(p, spec) {
      SpelledIsAccepted(p, spec);
    }
  }

  /**
   The exact condition for a spec of digits and a known unit to mean their product: the number
   is a positive `u64` and the product fits in a `u64`.
   */
  lemma ProductIff(lead: string, every: bool, gap: string, plus: bool, digits: string, inner: string, unit: string,
                   tail: string)
    requires Blank(lead) && Blank(gap) && Blank(inner) && Blank(tail)
    requires AllDigits(digits) && UnitSecs(unit).Some?
    ensures var number := if plus then "+" + digits else digits;
            ParseSchedule(Spec(lead, every, gap, number, inner, unit, tail)) ==
            Parsed(Value(digits) * UnitSecs(unit).value) <==>
            Value(digits) > 0 && Value(digits) * UnitSecs(unit).value <= U64_MAX
  {
    var number := if plus then "+" + digits else digits;
    UnitIsWord(unit);
    DigitsAreNumber(plus, digits);
    SpecParses(lead, every, gap, number, inner, unit, tail);
    FitsIff(Value(digits), UnitSecs(unit).value);
  }

  lemma FitsIff(n: nat, k: nat)
    requires k >= 1
    ensures Interval(if n <= U64_MAX then Some(n) else None, Some(k)) == Parsed(n * k) <==>
            n > 0 && n * k <= U64_MAX
  {
    assert n * k == n + n * (k - 1);
    assert n * k <= U64_MAX ==> n * k % U64_MOD == n * k;
  }

  /** The spec of a printed number and a unit, with and without `every`. */
  lemma PrintedParses(n: nat, unit: string)
    requires Word(unit) && n <= U64_MAX
    ensures ParseSchedule(Print(n) + unit) == Interval(Some(n), UnitSecs(unit))
    ensures ParseSchedule("every " + (Print(n) + unit)) == Interval(Some(n), UnitSecs(unit))
  {
    PrintValue(n);
    DigitsAreNumber(false, Print(n));
    SpecParses("", false, "", Print(n), "", unit, "");
    SpecParses("", true, " ", Print(n), "", unit, "");
    PrintedSpec(Print(n), unit);
  }

  lemma PrintedSpec(number: string, unit: string)
    ensures Spec("", false, "", number, "", unit, "") == number + unit
    ensures Spec("", true, " ", number, "", unit, "") == "every " + (number + unit)
  {
    assert number + "" == number;
    assert "every" + " " == "every ";
  }

  lemma WeeksWrap(n: nat)
    requires n == 0x200_0000_0000_0000
    ensures Interval(Some(n), Some(604_800)) == Parsed(0)
  {
    assert n * 604_800 == 4_725 * U64_MOD;
  }

  /** The zero check comes before the product, so that many weeks (2 to the 57th) are a zero interval. */
  lemma OverflowGivesZero(n: nat, weeks: string)
    requires n == 0x200_0000_0000_0000 && UnitSecs(weeks) == Some(604_800)
    ensures ParseSchedule(Print(n) + weeks) == Parsed(0)
  {
    UnitIsWord(weeks);
    PrintedParses(n, weeks);
    WeeksWrap(n);
  }

  lemma IntervalFits(n: nat, k: nat, secs: nat)
    requires n * k == secs <= U64_MAX
    ensures Interval(Some(n), Some(k)) == if n == 0 then Invalid else Parsed(secs)
  {
    assert secs % U64_MOD == secs;
  }

  /** `n` units of `k` seconds, described by their number and the unit. */
  lemma SuffixParses(n: nat, unit: string, k: nat, secs: nat)
    requires UnitSecs(unit) == Some(k) && n * k == secs && n <= secs <= U64_MAX
    ensures ParseSchedule("every " + (Print(n) + unit)) == if n == 0 then Invalid else Parsed(secs)
  {
    UnitIsWord(unit);
    PrintedParses(n, unit);
    IntervalFits(n, k, secs);
  }

  /** The suffixes that descriptions use. */
  lemma ShortUnits()
    ensures UnitSecs("w") == Some(604_800) && UnitSecs("d") == Some(86_400)
    ensures UnitSecs("h") == Some(3_600) && UnitSecs("m") == Some(60) && UnitSecs("s") == Some(1)
  {
  }

  /** Describing an interval and parsing the description gives it back exactly for the positive ones. */
  lemma DescribeRoundTripIff(secs: nat)
    requires secs <= U64_MAX
    ensures ParseSchedule(Describe(secs)) == Parsed(secs) <==> secs > 0
  {
    ShortUnits();
    if secs >= 604_800 && secs % 604_800 == 0 {
      SuffixParses(secs / 604_800, "w", 604_800, secs);
    } else if secs >= 86_400 && secs % 86_400 == 0 {
      SuffixParses(secs / 86_400, "d", 86_400, secs);
    } else if secs >= 3_600 && secs % 3_600 == 0 {
      SuffixParses(secs / 3_600, "h", 3_600, secs);
    } else if secs >= 60 && secs % 60 == 0 {
      SuffixParses(secs / 60, "m", 60, secs);
    } else {
      SuffixParses(secs, "s", 1, secs);
    }
  }

  /** The interval is described as `n` units of `k` seconds. */
  predicate DescribesIn(secs: nat, n: nat, unit: string, k: nat) {
    Describe(secs) == "every " + (Print(n) + unit) && n * k == secs
  }

  lemma Multiple(secs: nat, k: nat)
    requires k > 0 && secs > 0 && secs % k == 0
    ensures secs >= k && secs / k * k == secs
  {
  }

  /** A description uses the largest unit that divides the interval, and counts those units. */
  lemma LargestUnit(secs: nat)
    requires secs > 0
    ensures if secs % 604_800 == 0 then DescribesIn(secs, secs / 604_800, "w", 604_800)
            else if secs % 86_400 == 0 then DescribesIn(secs, secs / 86_400, "d", 86_400)
            else if secs % 3_600 == 0 then DescribesIn(secs, secs / 3_600, "h", 3_600)
            else if secs % 60 == 0 then DescribesIn(secs, secs / 60, "m", 60)
            else DescribesIn(secs, secs, "s", 1)
  {
    if secs % 604_800 == 0 {
      Multiple(secs, 604_800);
    } else if secs % 86_400 == 0 {
      Multiple(secs, 86_400);
    } else if secs % 3_600 == 0 {
      Multiple(secs, 3_600);
    } else if secs % 60 == 0 {
      Multiple(secs, 60);
    }
  }

  lemma SecondsAndMinutes()
    ensures UnitSecs("s") == UnitSecs("sec") == UnitSecs("secs") == UnitSecs("second") == UnitSecs("seconds") == Some(1)
    ensures UnitSecs("m") == UnitSecs("min") == UnitSecs("mins") == Some(60)
    ensures UnitSecs("minute") == UnitSecs("minutes") == Some(60)
  {
    assert "s"[0] == 's' && "m"[0] == 'm';
  }

  lemma HoursAndMore()
    ensures UnitSecs("h") == UnitSecs("hr") == UnitSecs("hrs") == UnitSecs("hour") == UnitSecs("hours") == Some(3_600)
    ensures UnitSecs("d") == UnitSecs("day") == UnitSecs("days") == Some(86_400)
    ensures UnitSecs("w") == UnitSecs("week") == UnitSecs("weeks") == Some(604_800)
  {
    assert "h"[0] == 'h' && "d"[0] == 'd' && "w"[0] == 'w';
  }

  /** Nothing else is a unit. */
  lemma NoOtherUnit(unit: string)
    requires UnitSecs(unit).Some?
    ensures unit in ["s", "sec", "secs", "second", "seconds", "m", "min", "mins", "minute", "minutes",
                     "h", "hr", "hrs", "hour", "hours", "d", "day", "days", "w", "week", "weeks"]
  {
  }

  /** So an accepted spec survives describing and reparsing exactly when its interval is positive. */
  lemma AcceptedSpecRoundTripIff(spec: string)
    requires ParseSchedule(spec).Parsed?
    ensures ParseSchedule(spec).secs <= U64_MAX
    ensures ParseSchedule(Describe(ParseSchedule(spec).secs)) == ParseSchedule(spec) <==> ParseSchedule(spec).secs > 0
  {
    DescribeRoundTripIff(ParseSchedule(spec).secs);
  }
}
