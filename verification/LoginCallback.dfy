/**
 The loopback login callback: percent-encoding (sections 2.1 and 2.3 of RFC 3986), decoding,
 and the parser for the request line that carries the token and the state. Text is kept as
 its UTF-8 bytes, each written as a character below 256.
 */
module LoginCallback {
  import opened Basics
  import opened Text

  predicate IsBytes(s: string) {
    forall i :: 0 <= i < |s| ==> (s[i] as int) < 256
  }

  predicate Unreserved(c: char) {
    'A' <= c <= 'Z' || 'a' <= c <= 'z' || '0' <= c <= '9' || c in "-_.~"
  }

  function HexChar(d: nat): char
    requires d < 16
  {
    "0123456789ABCDEF"[d]
  }

  /** `char::to_digit(16)`. */
  function HexValue(c: char): Option<nat> {
    if '0' <= c <= '9' then Some((c as int) - ('0' as int))
    else if 'a' <= c <= 'f' then Some((c as int) - ('a' as int) + 10)
    else if 'A' <= c <= 'F' then Some((c as int) - ('A' as int) + 10)
    else None
  }

  function EncodeByte(c: char): string
    requires (c as int) < 256
  {
    if Unreserved(c) then [c] else ['%', HexChar(c as int / 16), HexChar(c as int % 16)]
  }

  function Encode(s: string): string
    requires IsBytes(s)
  {
    if s == "" then "" else EncodeByte(s[0]) + Encode(s[1..])
  }

  /** The byte an escape at the front of `s` stands for, if there is a complete one. */
  function Escape(s: string): Option<char> {
    if |s| < 3 || s[0] != '%' then None
    else
      match (HexValue(s[1]), HexValue(s[2]))
      case (Some(hi), Some(lo)) => Some((hi * 16 + lo) as char)
      case _ => None
  }

  function Decode(s: string): string {
    if s == "" then ""
    else if Escape(s).Some? then [Escape(s).value] + Decode(s[3..])
    else [if s[0] == '+' then ' ' else s[0]] + Decode(s[1..])
  }

  lemma {:induction false} EncodeAppend(s: string, c: char)
    requires IsBytes(s + [c]) && IsBytes(s) && (c as int) < 256
    ensures Encode(s + [c]) == Encode(s) + EncodeByte(c)
  {
    if s == "" {
      assert s + [c] == [c];
      assert Encode([c]) == EncodeByte(c) + "";
    } else {
      EncodeAppend(s[1..], c);
      assert (s + [c])[1..] == s[1..] + [c];
      assert EncodeByte(s[0]) + (Encode(s[1..]) + EncodeByte(c)) == EncodeByte(s[0]) + Encode(s[1..]) + EncodeByte(c);
    }
  }

  method UrlEncode(value: string) returns (encoded: string)
    requires IsBytes(value)
    ensures encoded == Encode(value)
  {
    encoded := "";
    for i := 0 to |value|
      invariant encoded == Encode(value[..i])
    {
      var byte := value[i];
      assert value[..i + 1] == value[..i] + [byte];
      EncodeAppend(value[..i], byte);
      if Unreserved(byte) {
        encoded := encoded + [byte];
      } else {
        encoded := encoded + ['%', HexChar(byte as int / 16), HexChar(byte as int % 16)];
      }
    }
    assert value[..|value|] == value;
  }

  /** Moving one decoded byte from the rest to the output. */
  lemma Moved(out: string, c: char, rest: string)
    ensures (out + [c]) + rest == out + ([c] + rest)
  {
  }

  method UrlDecode(value: string) returns (out: string)
    ensures out == Decode(value)
  {
    out := "";
    var index := 0;
    while index < |value|
      invariant 0 <= index <= |value|
      invariant out + Decode(value[index..]) == Decode(value)
    {
      ghost var rest := value[index..];
      assert rest[1..] == value[index + 1..];
      if value[index] == '%' && index + 2 < |value| {
        var hi, lo := HexValue(value[index + 1]), HexValue(value[index + 2]);
        if hi.Some? && lo.Some? {
          assert rest[3..] == value[index + 3..];
          var byte := (hi.value * 16 + lo.value) as char;
          Moved(out, byte, Decode(rest[3..]));
          out := out + [byte];
          index := index + 3;
          continue;
        }
        Moved(out, value[index], Decode(rest[1..]));
        out := out + [value[index]];
        index := index + 1;
      } else if value[index] == '+' {
        Moved(out, ' ', Decode(rest[1..]));
        out := out + [' '];
        index := index + 1;
      } else {
        Moved(out, value[index], Decode(rest[1..]));
        out := out + [value[index]];
        index := index + 1;
      }
    }
  }

  // ----- Encoding is invertible and emits no delimiter -----

  lemma EncodeByteDecodes(c: char, rest: string)
    requires (c as int) < 256
    ensures Decode(EncodeByte(c) + rest) == [c] + Decode(rest)
  {
    var s := EncodeByte(c) + rest;
    if Unreserved(c) {
      assert s[1..] == rest;
    } else {
      HexRoundTrip(c as int / 16);
      HexRoundTrip(c as int % 16);
      assert s[3..] == rest;
    }
  }

  lemma HexRoundTrip(d: nat)
    requires d < 16
    ensures HexValue(HexChar(d)) == Some(d)
  {
  }

  const UPPER_HEX := "0123456789ABCDEF"
  const LOWER_HEX := "0123456789abcdef"

  /** Hexadecimal digits are read in either case, and nothing else is. */
  lemma HexDigits(c: char, d: nat)
    requires d < 16
    ensures |UPPER_HEX| == |LOWER_HEX| == 16
    ensures HexValue(c) == Some(d) <==> c == UPPER_HEX[d] || c == LOWER_HEX[d]
    ensures HexValue(c).Some? ==> HexValue(c).value < 16
  {
  }

  /** The four ways a text continues, which together say what decoding does. An escape: */
  lemma DecodeEscape(hi: nat, lo: nat, h: char, l: char, rest: string)
    requires hi < 16 && lo < 16
    requires (h == UPPER_HEX[hi] || h == LOWER_HEX[hi]) && (l == UPPER_HEX[lo] || l == LOWER_HEX[lo])
    ensures Decode(['%', h, l] + rest) == [(16 * hi + lo) as char] + Decode(rest)
  {
    HexDigits(h, hi);
    HexDigits(l, lo);
    assert (['%', h, l] + rest)[3..] == rest;
  }

  /** A plus sign is a space: */
  lemma DecodePlus(rest: string)
    ensures Decode("+" + rest) == " " + Decode(rest)
  {
    assert ("+" + rest)[1..] == rest;
  }

  /** Any other character but `%` stands for itself: */
  lemma DecodePlain(c: char, rest: string)
    requires c != '%' && c != '+'
    ensures Decode([c] + rest) == [c] + Decode(rest)
  {
    assert ([c] + rest)[1..] == rest;
  }

  /** And so does a `%` that two hexadecimal digits do not follow. */
  lemma DecodeBroken(rest: string)
    requires |rest| < 2 || HexValue(rest[0]).None? || HexValue(rest[1]).None?
    ensures Decode("%" + rest) == "%" + Decode(rest)
  {
    assert ("%" + rest)[1..] == rest;
  }

  /** The unreserved characters of section 2.3 of RFC 3986, and no others, stand for themselves. */
  lemma EncodeByteIs(c: char)
    requires (c as int) < 256
    ensures |UPPER_HEX| == 16
    ensures EncodeByte(c) ==
            if c in "ABCDEFGHIJKLMNOPQRSTUVWXYZ" || c in "abcdefghijklmnopqrstuvwxyz" || c in "0123456789"
               || c == '-' || c == '_' || c == '.' || c == '~' then [c]
            else ['%', UPPER_HEX[c as int / 16], UPPER_HEX[c as int % 16]]
  {
    LettersAre(c);
  }

  lemma LettersAre(c: char)
    ensures c in "ABCDEFGHIJKLMNOPQRSTUVWXYZ" <==> 'A' <= c <= 'Z'
    ensures c in "abcdefghijklmnopqrstuvwxyz" <==> 'a' <= c <= 'z'
    ensures c in "0123456789" <==> '0' <= c <= '9'
  {
    Upper(c);
    Lower(c);
    Digit(c);
  }

  lemma Upper(c: char)
    ensures c in "ABCDEFGHIJKLMNOPQRSTUVWXYZ" <==> 'A' <= c <= 'Z'
  {
    var all := "ABCDEFGHIJKLMNOPQRSTUVWXYZ";
    assert forall i :: 0 <= i < 26 ==> all[i] as int == 'A' as int + i;
    if 'A' <= c <= 'Z' {
      assert all[c as int - 'A' as int] == c;
    }
  }

  lemma Lower(c: char)
    ensures c in "abcdefghijklmnopqrstuvwxyz" <==> 'a' <= c <= 'z'
  {
    var all := "abcdefghijklmnopqrstuvwxyz";
    assert forall i :: 0 <= i < 26 ==> all[i] as int == 'a' as int + i;
    if 'a' <= c <= 'z' {
      assert all[c as int - 'a' as int] == c;
    }
  }

  lemma Digit(c: char)
    ensures c in "0123456789" <==> '0' <= c <= '9'
  {
    var all := "0123456789";
    assert forall i :: 0 <= i < 10 ==> all[i] as int == '0' as int + i;
    if '0' <= c <= '9' {
      assert all[c as int - '0' as int] == c;
    }
  }

  /** So encoded text holds none of the delimiters of a URL, no space, no plus sign, and only ASCII. */
  lemma NothingReserved(s: string, c: char)
    requires IsBytes(s) && c in Encode(s)
    ensures '%' <= c <= '~'
    ensures c !in ":/?#[]@!$&'()*+,;= \"<>\\^`{|}"
  {
    EncodeIsSafe(s);
    NotReserved(c);
  }

  lemma NotReserved(c: char)
    requires Unreserved(c) || c == '%'
    ensures '%' <= c <= '~'
    ensures c !in ":/?#[]@!$&'()*+,;= \"<>\\^`{|}"
  {
  }

  /** Decoding undoes encoding, for every byte string. */
  lemma {:induction false} DecodeEncode(s: string)
    requires IsBytes(s)
    ensures Decode(Encode(s)) == s
  {
    if s != "" {
      EncodeByteDecodes(s[0], Encode(s[1..]));
      DecodeEncode(s[1..]);
    }
  }

  lemma EncodeInjective(s: string, t: string)
    requires IsBytes(s) && IsBytes(t) && Encode(s) == Encode(t)
    ensures s == t
  {
    DecodeEncode(s);
    DecodeEncode(t);
  }

  predicate Safe(s: string) {
    forall i :: 0 <= i < |s| ==> Unreserved(s[i]) || s[i] == '%'
  }

  lemma EncodeByteIsSafe(c: char)
    requires (c as int) < 256
    ensures Safe(EncodeByte(c))
  {
  }

  /** Encoded text consists of unreserved characters and escapes, so no delimiter, space or `+`. */
  lemma {:induction false} EncodeIsSafe(s: string)
    requires IsBytes(s)
    ensures Safe(Encode(s))
  {
    if s != "" {
      EncodeIsSafe(s[1..]);
      EncodeByteIsSafe(s[0]);
    }
  }

  // ----- The request line -----

  /** The width of the Unicode white space encoded at `i`, or 0. */
  function SpaceAt(s: string, i: nat): nat
    requires i < |s|
  {
    var c := s[i] as int;
    if c == 0x20 || 0x09 <= c <= 0x0D then 1
    else if c == 0xC2 && i + 1 < |s| && s[i + 1] as int in {0x85, 0xA0} then 2
    else if i + 2 < |s| then
      var d, e := s[i + 1] as int, s[i + 2] as int;
      if (c == 0xE1 && d == 0x9A && e == 0x80)
         || (c == 0xE2 && d == 0x80 && (0x80 <= e <= 0x8A || e in {0xA8, 0xA9, 0xAF}))
         || (c == 0xE2 && d == 0x81 && e == 0x9F)
         || (c == 0xE3 && d == 0x80 && e == 0x80) then 3 else 0
    else 0
  }

  function SkipSpace(s: string): string
    decreases |s|
  {
    if s == "" || SpaceAt(s, 0) == 0 || SpaceAt(s, 0) > |s| then s else SkipSpace(s[SpaceAt(s, 0)..])
  }

  /** The length of the leading run without white space. */
  function WordEnd(s: string, i: nat): (n: nat)
    requires i <= |s|
    ensures i <= n <= |s|
    decreases |s| - i
  {
    if i == |s| || SpaceAt(s, i) > 0 then i else WordEnd(s, i + 1)
  }

  /** `split_whitespace().nth(n)`. */
  function NthWord(s: string, n: nat): Option<string>
    decreases n
  {
    var t := SkipSpace(s);
    if t == "" then None
    else
      var end := WordEnd(t, 0);
      if n == 0 then Some(t[..end]) else NthWord(t[end..], n - 1)
  }

  const CALLBACK := "/callback?"

  /** The query of a callback request line. */
  function CallbackQuery(line: Option<string>): Option<string> {
    if line.None? then None
    else
      var path := NthWord(line.value, 1);
      if path.Some? && CALLBACK <= path.value then Some(path.value[|CALLBACK|..]) else None
  }

  /** The decoded value of the last `key=value` pair. */
  function LastValue(pairs: seq<string>, key: string): Option<string> {
    if pairs == [] then None
    else
      var kv := SplitOnce(pairs[|pairs| - 1], '=');
      if kv.Some? && kv.value.0 == key then Some(Decode(kv.value.1)) else LastValue(pairs[..|pairs| - 1], key)
  }

  function Callback(line: Option<string>): (Option<string>, Option<string>) {
    match CallbackQuery(line)
    case None => (None, None)
    case Some(query) => (LastValue(SplitOn(query, '&'), "token"), LastValue(SplitOn(query, '&'), "state"))
  }

  method ParseCallback(line: Option<string>) returns (token: Option<string>, state: Option<string>)
    ensures (token, state) == Callback(line)
  {
    token, state := None, None;
    var query := CallbackQuery(line);
    if query.None? {
      return;
    }
    var pairs := SplitOn(query.value, '&');
    for i := 0 to |pairs|
      invariant token == LastValue(pairs[..i], "token") && state == LastValue(pairs[..i], "state")
    {
      assert pairs[..i + 1][..i] == pairs[..i];
      var kv := SplitOnce(pairs[i], '=');
      if kv.Some? {
        if kv.value.0 == "token" {
          token := Some(Decode(kv.value.1));
        } else if kv.value.0 == "state" {
          state := Some(Decode(kv.value.1));
        }
      }
    }
    assert pairs[..|pairs|] == pairs;
  }

  // ----- The callback round trip -----

  /** Printable ASCII: never white space, whatever follows. */
  predicate Graphic(s: string) {
    forall i :: 0 <= i < |s| ==> '!' <= s[i] <= '~'
  }

  lemma GraphicNoSpace(s: string, i: nat)
    requires i < |s| && '!' <= s[i] <= '~'
    ensures SpaceAt(s, i) == 0
  {
  }

  lemma {:induction false} WordEndAt(word: string, tail: string, i: nat)
    requires Graphic(word) && i <= |word|
    ensures WordEnd(word + " " + tail, i) == |word|
    decreases |word| - i
  {
    var s := word + " " + tail;
    if i < |word| {
      assert s[i] == word[i];
      GraphicNoSpace(s, i);
      WordEndAt(word, tail, i + 1);
    } else {
      assert s[i] == ' ';
    }
  }

  /** The second word of a request line is its path. */
  lemma SecondWord(verb: string, path: string, tail: string)
    requires Graphic(verb) && Graphic(path) && verb != "" && path != ""
    ensures NthWord(verb + " " + (path + " " + tail), 1) == Some(path)
  {
    var rest := path + " " + tail;
    var line := verb + " " + rest;
    assert line[0] == verb[0];
    GraphicNoSpace(line, 0);
    WordEndAt(verb, rest, 0);
    var after := line[|verb|..];
    assert after[0] == ' ' && after[1..] == rest && rest[0] == path[0];
    GraphicNoSpace(rest, 0);
    assert SkipSpace(after) == rest;
    WordEndAt(path, tail, 0);
    assert rest[..|path|] == path;
    assert NthWord(after, 0) == Some(path);
  }

  /** A pair gives its value to the key before its first `=`. */
  predicate GivesValue(pair: string, key: string) {
    key + "=" <= pair
  }

  lemma PairGives(pair: string, key: string)
    requires '=' !in key
    ensures GivesValue(pair, key) ==> SplitOnce(pair, '=') == Some((key, pair[|key| + 1..]))
    ensures !GivesValue(pair, key) ==> SplitOnce(pair, '=').None? || SplitOnce(pair, '=').value.0 != key
  {
    if GivesValue(pair, key) {
      var value := pair[|key| + 1..];
      assert pair == key + ['='] + value;
      SplitOnceAt(key, '=', value);
    } else {
      var i := IndexOf(pair, '=');
      assert i < |pair| ==> pair[..i + 1] == pair[..i] + "=";
    }
  }

  /** The last pair for a key wins, whatever stands around it. */
  lemma {:induction false} LastPairWins(pairs: seq<string>, key: string, i: nat)
    requires '=' !in key && i <= |pairs| && (i < |pairs| ==> GivesValue(pairs[i], key))
    requires forall j :: 0 <= j < |pairs| && (j > i || i == |pairs|) ==> !GivesValue(pairs[j], key)
    ensures LastValue(pairs, key) == if i < |pairs| then Some(Decode(pairs[i][|key| + 1..])) else None
    decreases |pairs|
  {
    if pairs != [] {
      var last := |pairs| - 1;
      PairGives(pairs[last], key);
      if i < last {
        LastPairWins(pairs[..last], key, i);
      } else if i > last {
        LastPairWins(pairs[..last], key, last);
      }
    }
  }

  lemma {:induction false} WordEndWhole(word: string, i: nat)
    requires Graphic(word) && i <= |word|
    ensures WordEnd(word, i) == |word|
    decreases |word| - i
  {
    if i < |word| {
      GraphicNoSpace(word, i);
      WordEndWhole(word, i + 1);
    }
  }

  /** A request line of one word has no path. */
  lemma OneWord(word: string)
    requires Graphic(word)
    ensures Callback(Some(word)) == (None, None)
  {
    WordEndWhole(word, 0);
    if word != "" {
      GraphicNoSpace(word, 0);
    }
    assert word[|word|..] == "";
  }

  /** A request whose path has another beginning carries neither. */
  lemma OtherPath(verb: string, path: string, tail: string)
    requires Graphic(verb) && Graphic(path) && verb != "" && path != "" && !(CALLBACK <= path)
    ensures Callback(Some(verb + " " + (path + " " + tail))) == (None, None)
    ensures Callback(None) == (None, None)
  {
    SecondWord(verb, path, tail);
  }

  /** A callback request with any pairs, in any order: the last token and the last state, decoded. */
  lemma CallbackOfPairs(verb: string, pairs: seq<string>, tail: string)
    requires Graphic(verb) && verb != "" && pairs != []
    requires forall i :: 0 <= i < |pairs| ==> Graphic(pairs[i]) && '&' !in pairs[i]
    ensures Callback(Some(verb + " " + (CALLBACK + JoinWith(pairs, '&') + " " + tail))) ==
            (LastValue(pairs, "token"), LastValue(pairs, "state"))
  {
    JoinedGraphic(pairs);
    QueryOf(verb, JoinWith(pairs, '&'), tail);
    SplitJoined(pairs, '&');
  }

  lemma CallbackIsGraphic()
    ensures Graphic(CALLBACK) && CALLBACK != ""
  {
  }

  /** The query of a callback request is what follows the path. */
  lemma QueryOf(verb: string, query: string, tail: string)
    requires Graphic(verb) && verb != "" && Graphic(query)
    ensures CallbackQuery(Some(verb + " " + (CALLBACK + query + " " + tail))) == Some(query)
  {
    var path := CALLBACK + query;
    CallbackIsGraphic();
    SecondWord(verb, path, tail);
    assert path[|CALLBACK|..] == query;
  }

  lemma {:induction false} JoinedGraphic(pairs: seq<string>)
    requires pairs != [] && forall i :: 0 <= i < |pairs| ==> Graphic(pairs[i])
    ensures Graphic(JoinWith(pairs, '&'))
  {
    if |pairs| > 1 {
      JoinedGraphic(pairs[1..]);
    }
  }

  lemma LastOfTwo(token: string, state: string)
    requires IsBytes(token) && IsBytes(state)
    ensures var pairs := ["token=" + Encode(token), "state=" + Encode(state)];
            LastValue(pairs, "token") == Some(token) && LastValue(pairs, "state") == Some(state)
  {
    var pairs := ["token=" + Encode(token), "state=" + Encode(state)];
    assert "token" + ['='] + Encode(token) == pairs[0] && "state" + ['='] + Encode(state) == pairs[1];
    SplitOnceAt("token", '=', Encode(token));
    SplitOnceAt("state", '=', Encode(state));
    DecodeEncode(token);
    DecodeEncode(state);
    assert pairs[..1] == [pairs[0]];
    assert "token"[0] != "state"[0];
  }

  /** A pair whose value is encoded is one word and holds no separator. */
  lemma PairIsPlain(key: string, value: string)
    requires Graphic(key) && '&' !in key && IsBytes(value)
    ensures Graphic(key + Encode(value)) && '&' !in key + Encode(value)
  {
    EncodeIsSafe(value);
  }

  /** The request line that carries a token and a state. */
  function CallbackLine(token: string, state: string, tail: string): string
    requires IsBytes(token) && IsBytes(state)
  {
    "GET" + " " + (CALLBACK + ("token=" + Encode(token) + "&" + ("state=" + Encode(state))) + " " + tail)
  }

  /**
   For all byte strings, the callback request built with encoded values parses back through
   the word split, prefix strip, pair splits and decoding to exactly those values.
   */
  lemma CallbackRoundTrip(token: string, state: string, tail: string)
    requires IsBytes(token) && IsBytes(state)
    ensures Callback(Some(CallbackLine(token, state, tail))) == (Some(token), Some(state))
  {
    var a, b := "token=" + Encode(token), "state=" + Encode(state);
    PairIsPlain("token=", token);
    PairIsPlain("state=", state);
    CallbackOf(a, b, tail);
    LastOfTwo(token, state);
  }

  lemma CallbackOf(a: string, b: string, tail: string)
    requires Graphic(a) && Graphic(b) && '&' !in a && '&' !in b
    ensures Callback(Some("GET" + " " + (CALLBACK + (a + "&" + b) + " " + tail))) ==
            (LastValue([a, b], "token"), LastValue([a, b], "state"))
  {
    assert [a, b][1..] == [b];
    assert JoinWith([a, b], '&') == a + "&" + b;
    CallbackOfPairs("GET", [a, b], tail);
  }
}
