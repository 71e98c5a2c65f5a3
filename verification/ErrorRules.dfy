/** Texts searched for upstream markers: ideographs survive lower-casing and JSON quoting. */
module MarkerText {
  import opened Options
  import opened Text

  lemma {:induction false} ContainsRight(a: string, b: string, m: string)
    requires Contains(b, m)
    ensures Contains(a + b, m)
  {
    if a == "" {
      assert a + b == b;
    } else {
      assert (a + b)[1..] == a[1..] + b;
      ContainsRight(a[1..], b, m);
    }
  }

  lemma {:induction false} ContainsLeft(a: string, b: string, m: string)
    requires Contains(a, m)
    ensures Contains(a + b, m)
  {
    if !(m <= a) {
      assert (a + b)[1..] == a[1..] + b;
      ContainsLeft(a[1..], b, m);
    }
  }

  lemma {:induction false} ContainsPrefixOf(s: string, m: string, p: string)
    requires Contains(s, m) && p <= m
    ensures Contains(s, p)
  {
    if !(m <= s) {
      ContainsPrefixOf(s[1..], m, p);
    }
  }

  predicate IsIdeograph(c: char) { '\U{4E00}' <= c <= '\U{9FFF}' }

  /** A marker made of ideographs only. */
  predicate IsMarker(m: string) {
    m != "" && forall i :: 0 <= i < |m| ==> IsIdeograph(m[i])
  }

  predicate NoIdeograph(s: string) {
    forall i :: 0 <= i < |s| ==> !IsIdeograph(s[i])
  }

  lemma {:induction false} MarkerInLower(s: string, m: string)
    requires IsMarker(m)
    ensures Contains(Lower(s), m) <==> Contains(s, m)
  {
    assert m <= Lower(s) <==> m <= s by {
      assert forall i :: 0 <= i < |s| && i < |m| ==> (m[i] == Lower(s)[i] <==> m[i] == s[i]);
    }
    if s != "" {
      assert Lower(s)[1..] == Lower(s[1..]);
      MarkerInLower(s[1..], m);
    }
  }

  /** A marker is in two texts with a space between them exactly when it is in one of them. */
  lemma {:induction false} MarkerInJoined(a: string, b: string, m: string)
    requires IsMarker(m)
    ensures Contains(a + " " + b, m) <==> Contains(a, m) || Contains(b, m)
  {
    var s := a + " " + b;
    if a == "" {
      assert s == " " + b;
      SkipPlain(" ", b, m);
    } else {
      assert s[1..] == a[1..] + " " + b;
      MarkerInJoined(a[1..], b, m);
      assert m <= s <==> m <= a by {
        assert s[|a|] == ' ' && s[..|a|] == a;
      }
    }
  }

  // ----- JSON quoting.

  function HexDigit(n: nat): char
    requires n < 16
  {
    if n < 10 then '0' + n as char else 'a' + (n - 10) as char
  }

  function EscapeChar(c: char): (e: string)
    ensures e != ""
  {
    if c == '"' then "\\\""
    else if c == '\\' then "\\\\"
    else if c == '\U{0008}' then "\\b"
    else if c == '\t' then "\\t"
    else if c == '\n' then "\\n"
    else if c == '\U{000C}' then "\\f"
    else if c == '\r' then "\\r"
    else if c < ' ' then ['\\', 'u', '0', '0', HexDigit(c as nat / 16), HexDigit(c as nat % 16)]
    else [c]
  }

  function EscapeAll(s: string): string {
    if s == "" then "" else EscapeChar(s[0]) + EscapeAll(s[1..])
  }

  /** `JSON.stringify` of a string. */
  function Quote(s: string): string {
    "\"" + EscapeAll(s) + "\""
  }

  // ----- Reading a JSON string back (section 7 of RFC 8259).

  function HexValue(c: char): Option<nat> {
    if '0' <= c <= '9' then Some(c as nat - '0' as nat)
    else if 'a' <= c <= 'f' then Some(c as nat - 'a' as nat + 10)
    else None
  }

  /** The character that a two-character escape stands for. */
  function ShortEscape(c: char): Option<char> {
    match c
    case '"' => Some('"')
    case '\\' => Some('\\')
    case 'b' => Some(8 as char)
    case 't' => Some(9 as char)
    case 'n' => Some(10 as char)
    case 'f' => Some(12 as char)
    case 'r' => Some(13 as char)
    case _ => None
  }

  /** The first character of a string body, and how many characters stand for it. */
  function ReadChar(s: string): Option<(char, nat)> {
    if s == "" || s[0] == '"' || s[0] < ' ' then None
    else if s[0] != '\\' then Some((s[0], 1))
    else if |s| >= 2 && ShortEscape(s[1]).Some? then Some((ShortEscape(s[1]).value, 2))
    else if |s| >= 6 && s[1..4] == "u00" && HexValue(s[4]).Some? && HexValue(s[5]).Some? then
      Some(((16 * HexValue(s[4]).value + HexValue(s[5]).value) as char, 6))
    else None
  }

  /** `body` stands for `s`, and no control character of it has a shorter form. */
  ghost predicate ReadsAs(body: string, s: string)
    decreases |s|
  {
    if s == "" then body == ""
    else
      && ReadChar(body).Some?
      && var (c, n) := ReadChar(body).value;
         c == s[0] && n <= |body| && ReadsAs(body[n..], s[1..])
         && (n == 6 ==> c < ' ' && c !in {8 as char, 9 as char, 10 as char, 12 as char, 13 as char})
  }

  lemma HexDigitReads(n: nat)
    requires n < 16
    ensures HexValue(HexDigit(n)) == Some(n)
  {
  }

  lemma EscapeCharReads(c: char, rest: string)
    ensures ReadChar(EscapeChar(c) + rest) == Some((c, |EscapeChar(c)|))
    ensures |EscapeChar(c)| == 6 ==> c < ' ' && c !in {8 as char, 9 as char, 10 as char, 12 as char, 13 as char}
  {
    if |EscapeChar(c)| == 6 {
      HexDigitReads(c as nat / 16);
      HexDigitReads(c as nat % 16);
      assert (EscapeChar(c) + rest)[1..4] == "u00";
    }
  }

  /** What is quoted reads back as itself, with the shortest escapes. */
  lemma {:induction false} QuoteReadsBack(s: string)
    ensures |Quote(s)| >= 2 && Quote(s)[0] == '"' && Quote(s)[|Quote(s)| - 1] == '"'
    ensures ReadsAs(Quote(s)[1..|Quote(s)| - 1], s)
  {
    assert Quote(s)[1..|Quote(s)| - 1] == EscapeAll(s);
    if s != "" {
      QuoteReadsBack(s[1..]);
      assert Quote(s[1..])[1..|Quote(s[1..])| - 1] == EscapeAll(s[1..]);
      EscapeCharReads(s[0], EscapeAll(s[1..]));
      assert EscapeAll(s)[|EscapeChar(s[0])|..] == EscapeAll(s[1..]);
    }
  }

  lemma EscapeCharFacts(c: char)
    ensures if IsIdeograph(c) then EscapeChar(c) == [c] else NoIdeograph(EscapeChar(c))
  {
  }

  lemma {:induction false} SkipPlain(plain: string, rest: string, m: string)
    requires NoIdeograph(plain) && IsMarker(m)
    ensures Contains(plain + rest, m) <==> Contains(rest, m)
  {
    if plain == "" {
      assert plain + rest == rest;
    } else {
      assert (plain + rest)[1..] == plain[1..] + rest;
      assert (plain + rest)[0] == plain[0];
      SkipPlain(plain[1..], rest, m);
    }
  }

  lemma {:induction false} PrefixOfEscaped(s: string, tail: string, m: string)
    requires NoIdeograph(tail) && (forall i :: 0 <= i < |m| ==> IsIdeograph(m[i]))
    ensures m <= EscapeAll(s) + tail <==> m <= s
  {
    if m != "" {
      if s == "" {
        assert EscapeAll(s) + tail == tail;
        assert tail != "" ==> tail[0] != m[0];
      } else {
        var e, rest := EscapeChar(s[0]), EscapeAll(s[1..]) + tail;
        assert EscapeAll(s) + tail == e + rest;
        EscapeCharFacts(s[0]);
        if IsIdeograph(s[0]) {
          PrefixOfEscaped(s[1..], tail, m[1..]);
          assert (e + rest)[1..] == rest;
          assert m == [m[0]] + m[1..] && s == [s[0]] + s[1..];
          assert m <= e + rest <==> m[0] == s[0] && m[1..] <= rest;
        } else {
          assert (e + rest)[0] == e[0] && !IsIdeograph(e[0]);
        }
      }
    }
  }

  lemma {:induction false} MarkerInEscaped(s: string, tail: string, m: string)
    requires NoIdeograph(tail) && IsMarker(m)
    ensures Contains(EscapeAll(s) + tail, m) <==> Contains(s, m)
  {
    PrefixOfEscaped(s, tail, m);
    if s == "" {
      assert EscapeAll(s) + tail == tail + "";
      SkipPlain(tail, "", m);
    } else {
      var e, rest := EscapeChar(s[0]), EscapeAll(s[1..]) + tail;
      assert EscapeAll(s) + tail == e + rest;
      EscapeCharFacts(s[0]);
      MarkerInEscaped(s[1..], tail, m);
      if IsIdeograph(s[0]) {
        assert (e + rest)[1..] == rest;
      } else {
        SkipPlain(e, rest, m);
      }
    }
  }

  /** A marker is in the lower-cased JSON text of a string exactly when it is in the string. */
  lemma MarkerInQuoted(s: string, m: string)
    requires IsMarker(m)
    ensures Contains(Lower(Quote(s)), m) <==> Contains(s, m)
  {
    MarkerInLower(Quote(s), m);
    assert Quote(s) == "\"" + (EscapeAll(s) + "\"");
    SkipPlain("\"", EscapeAll(s) + "\"", m);
    MarkerInEscaped(s, "\"", m);
  }
}

/** "Resets in N <unit>": the countdown phrase of an upstream error. */
module ResetCountdown {
  import opened Options
  import opened Text

  predicate IsDigit(c: char) { '0' <= c <= '9' }

  predicate IsWordChar(c: char) {
    IsDigit(c) || 'a' <= c <= 'z' || 'A' <= c <= 'Z' || c == '_'
  }

  /** The length of the longest prefix whose characters satisfy `p`. */
  function Run(p: char -> bool, s: string): (n: nat)
    ensures n <= |s|
  {
    if s != "" && p(s[0]) then 1 + Run(p, s[1..]) else 0
  }

  lemma {:induction false} RunOf(p: char -> bool, a: string, b: string)
    requires forall i :: 0 <= i < |a| ==> p(a[i])
    requires b == "" || !p(b[0])
    ensures Run(p, a + b) == |a|
  {
    if a == "" {
      assert a + b == b;
    } else {
      assert (a + b)[1..] == a[1..] + b;
      RunOf(p, a[1..], b);
    }
  }

  function UnitMs(word: string): Option<int> {
    if word == "day" || word == "days" then Some(86400000)
    else if word == "hour" || word == "hours" then Some(3600000)
    else if word == "minute" || word == "minutes" then Some(60000)
    else if word == "second" || word == "seconds" then Some(1000)
    else None
  }

  function DigitsValue(digits: string): int {
    if digits == "" then 0
    else 10 * DigitsValue(digits[..|digits| - 1]) + (digits[|digits| - 1] as int - '0' as int)
  }

  /** Drops a run of at least one space. */
  function SkipSpaces(s: string): Option<string> {
    var n := Run(IsSpace, s);
    if n == 0 then None else Some(s[n..])
  }

  /** The text after a word that starts it. */
  function Skip(s: string, word: string): Option<string> {
    if word <= s then Some(s[|word|..]) else None
  }

  /** Digits, spaces and a whole unit word: the count and the length of the unit. */
  function CountAndUnit(s: string): Option<(int, int)> {
    var d := Run(IsDigit, s);
    var afterSpaces := SkipSpaces(s[d..]);
    if d == 0 || afterSpaces.None? then None
    else
      var w := Run(IsWordChar, afterSpaces.value);
      var unit := UnitMs(afterSpaces.value[..w]);
      if unit.None? then None else Some((DigitsValue(s[..d]), unit.value))
  }

  /** The rest of a phrase: spaces, "in", spaces and a count. */
  function MatchAfterVerb(s: string): Option<(int, int)> {
    var spaced := SkipSpaces(s);
    if spaced.None? || Skip(spaced.value, "in").None? then None
    else
      var counted := SkipSpaces(Skip(spaced.value, "in").value);
      if counted.None? then None else CountAndUnit(counted.value)
  }

  /** The phrase at the start of a text. */
  function MatchAt(s: string): Option<(int, int)> {
    var resets := Skip(s, "reset");
    if resets.None? then None
    else
      var plural := resets.value;
      MatchAfterVerb(if plural != "" && plural[0] == 's' then plural[1..] else plural)
  }

  /** The leftmost phrase of a text. */
  function FirstMatch(s: string): Option<(int, int)> {
    if MatchAt(s).Some? then MatchAt(s)
    else if s == "" then None
    else FirstMatch(s[1..])
  }

  function ParseMs(text: string): Option<int> {
    var m := FirstMatch(text);
    if m.None? || m.value.0 <= 0 then None else Some(m.value.0 * m.value.1)
  }

  // ----- What is printed is what is parsed.

  function Decimal(n: nat): (s: string)
    ensures s != "" && forall i :: 0 <= i < |s| ==> IsDigit(s[i])
  {
    var last := ['0' + (n % 10) as char];
    if n < 10 then last else Decimal(n / 10) + last
  }

  lemma {:induction false} DecimalValue(n: nat)
    ensures DigitsValue(Decimal(n)) == n
  {
    var last := ['0' + (n % 10) as char];
    if n < 10 {
      assert last[..0] == "";
      assert DigitsValue("") == 0;
    } else {
      var s := Decimal(n);
      DecimalValue(n / 10);
      assert s[..|s| - 1] == Decimal(n / 10) && s[|s| - 1] == last[0];
    }
  }

  predicate EndsWord(tail: string) {
    tail == "" || !('0' <= tail[0] <= '9' || 'a' <= tail[0] <= 'z' || 'A' <= tail[0] <= 'Z' || tail[0] == '_')
  }

  predicate IsUnit(word: string) {
    UnitMs(word).Some?
  }

  lemma UnitsAreWords(word: string)
    requires IsUnit(word)
    ensures word != "" && forall i :: 0 <= i < |word| ==> IsWordChar(word[i])
  {
  }

  predicate IsSpaces(s: string) {
    s != "" && forall i :: 0 <= i < |s| ==> IsSpace(s[i])
  }

  predicate IsDigits(s: string) {
    s != "" && forall i :: 0 <= i < |s| ==> '0' <= s[i] <= '9'
  }

  /** A count and a unit that is a whole word, with space between them. */
  predicate IsCount(s: string, digits: string, gap: string, word: string, tail: string) {
    && s == digits + (gap + (word + tail))
    && IsDigits(digits) && IsSpaces(gap) && IsUnit(word) && EndsWord(tail)
  }

  /** "reset" or "resets", "in" and a count, with space between them. */
  predicate IsPhrase(s: string, verb: string, first: string, second: string, count: string) {
    && s == verb + (first + ("in" + (second + count)))
    && (verb == "reset" || verb == "resets") && IsSpaces(first) && IsSpaces(second)
  }

  lemma SkipAllSpaces(gap: string, rest: string)
    requires IsSpaces(gap) && (rest == "" || !IsSpace(rest[0]))
    ensures SkipSpaces(gap + rest) == Some(rest)
  {
    RunOf(IsSpace, gap, rest);
  }

  lemma {:induction false} RunStops(p: char -> bool, s: string)
    ensures var n := Run(p, s);
            (forall i :: 0 <= i < n ==> p(s[i])) && (n < |s| ==> !p(s[n]))
  {
    if s != "" && p(s[0]) {
      RunStops(p, s[1..]);
    }
  }

  lemma SkippedSpaces(s: string) returns (gap: string)
    requires SkipSpaces(s).Some?
    ensures s == gap + SkipSpaces(s).value && IsSpaces(gap)
  {
    RunStops(IsSpace, s);
    gap := s[..Run(IsSpace, s)];
  }

  lemma CountReads(s: string, digits: string, gap: string, word: string, tail: string)
    requires IsCount(s, digits, gap, word, tail)
    ensures CountAndUnit(s) == Some((DigitsValue(digits), UnitMs(word).value))
  {
    UnitsAreWords(word);
    assert s == digits + (gap + (word + tail));
    RunOf(IsDigit, digits, gap + (word + tail));
    assert s[|digits|..] == gap + (word + tail) && s[..|digits|] == digits;
    SkipAllSpaces(gap, word + tail);
    RunOf(IsWordChar, word, tail);
    assert (word + tail)[..|word|] == word;
  }

  lemma CutAt(s: string, n: nat)
    requires n <= |s|
    ensures s == s[..n] + s[n..]
  {
  }

  lemma CountFound(s: string) returns (digits: string, gap: string, word: string, tail: string)
    requires CountAndUnit(s).Some?
    ensures IsCount(s, digits, gap, word, tail)
  {
    var d := Run(IsDigit, s);
    RunStops(IsDigit, s);
    CutAt(s, d);
    digits := s[..d];
    gap := SkippedSpaces(s[d..]);
    var rest := SkipSpaces(s[d..]).value;
    var w := Run(IsWordChar, rest);
    RunStops(IsWordChar, rest);
    CutAt(rest, w);
    word, tail := rest[..w], rest[w..];
  }

  lemma SkipWord(word: string, rest: string)
    ensures Skip(word + rest, word) == Some(rest)
  {
  }

  lemma SkippedWord(s: string, word: string)
    requires Skip(s, word).Some?
    ensures s == word + Skip(s, word).value
  {
  }

  /** A phrase after its verb. */
  lemma GapReads(first: string, second: string, count: string)
    requires IsSpaces(first) && IsSpaces(second) && CountAndUnit(count).Some?
    ensures MatchAfterVerb(first + ("in" + (second + count))) == CountAndUnit(count)
  {
    SkipAllSpaces(first, "in" + (second + count));
    SkipWord("in", second + count);
    SkipAllSpaces(second, count);
  }

  lemma VerbReads(verb: string, rest: string)
    requires (verb == "reset" || verb == "resets") && (rest == "" || rest[0] != 's')
    ensures MatchAt(verb + rest) == MatchAfterVerb(rest)
  {
    if verb == "reset" {
      SkipWord("reset", rest);
    } else {
      assert "resets" == "reset" + "s";
      assert verb + rest == "reset" + ("s" + rest);
      SkipWord("reset", "s" + rest);
      assert ("s" + rest)[1..] == rest;
    }
  }

  lemma PhraseReads(s: string, verb: string, first: string, second: string, count: string)
    requires IsPhrase(s, verb, first, second, count) && CountAndUnit(count).Some?
    ensures MatchAt(s) == CountAndUnit(count)
  {
    var rest := first + ("in" + (second + count));
    assert rest[0] == first[0] && IsSpace(first[0]);
    GapReads(first, second, count);
    VerbReads(verb, rest);
  }

  lemma GapFound(spaced: string) returns (first: string, second: string, count: string)
    requires MatchAfterVerb(spaced).Some?
    ensures spaced == first + ("in" + (second + count)) && IsSpaces(first) && IsSpaces(second)
    ensures CountAndUnit(count) == MatchAfterVerb(spaced)
  {
    first := SkippedSpaces(spaced);
    var word := SkipSpaces(spaced).value;
    SkippedWord(word, "in");
    var counted := Skip(word, "in").value;
    second := SkippedSpaces(counted);
    count := SkipSpaces(counted).value;
  }

  lemma PhraseFound(s: string) returns (verb: string, first: string, second: string, count: string)
    requires MatchAt(s).Some?
    ensures IsPhrase(s, verb, first, second, count) && CountAndUnit(count) == MatchAt(s)
  {
    SkippedWord(s, "reset");
    var rest := Skip(s, "reset").value;
    if rest != "" && rest[0] == 's' {
      verb := "resets";
      first, second, count := GapFound(rest[1..]);
      assert rest == "s" + rest[1..] && "resets" == "reset" + "s";
      assert s == "resets" + rest[1..];
    } else {
      verb := "reset";
      first, second, count := GapFound(rest);
    }
  }

  /** A phrase starts the text: its count and the length of its unit in milliseconds. */
  ghost predicate StartsPhrase(s: string, n: int, unit: int) {
    exists verb, first, second, count, digits, gap, word, tail ::
      && IsPhrase(s, verb, first, second, count) && IsCount(count, digits, gap, word, tail)
      && n == DigitsValue(digits) && IsUnitOf(word, unit)
  }

  /** The unit words and their lengths. */
  predicate IsUnitOf(word: string, ms: int) {
    || (word in {"second", "seconds"} && ms == 1000)
    || (word in {"minute", "minutes"} && ms == 60 * 1000)
    || (word in {"hour", "hours"} && ms == 60 * 60 * 1000)
    || (word in {"day", "days"} && ms == 24 * 60 * 60 * 1000)
  }

  lemma UnitIff(word: string, ms: int)
    ensures UnitMs(word) == Some(ms) <==> IsUnitOf(word, ms)
  {
    assert |"second"| == 6 && |"seconds"| == 7 && |"minute"| == 6 && |"minutes"| == 7;
    assert |"hour"| == 4 && |"hours"| == 5 && |"day"| == 3 && |"days"| == 4;
    assert "second"[0] == 's' && "minute"[0] == 'm' && "hour"[0] == 'h' && "day"[0] == 'd';
    assert "seconds"[0] == 's' && "minutes"[0] == 'm' && "hours"[0] == 'h' && "days"[0] == 'd';
  }

  /** What is matched at the start of a text is what starts it. */
  lemma MatchAtIff(s: string, n: int, unit: int)
    ensures MatchAt(s) == Some((n, unit)) <==> StartsPhrase(s, n, unit)
  {
    if MatchAt(s) == Some((n, unit)) {
      var verb, first, second, count := PhraseFound(s);
      var digits, gap, word, tail := CountFound(count);
      CountReads(count, digits, gap, word, tail);
      UnitIff(word, unit);
    }
    if StartsPhrase(s, n, unit) {
      var verb, first, second, count, digits, gap, word, tail :|
        && IsPhrase(s, verb, first, second, count) && IsCount(count, digits, gap, word, tail)
        && n == DigitsValue(digits) && IsUnitOf(word, unit);
      CountReads(count, digits, gap, word, tail);
      UnitIff(word, unit);
      PhraseReads(s, verb, first, second, count);
    }
  }

  /** No phrase starts in the first `n` characters. */
  predicate NoneStarts(s: string, n: nat)
    requires n <= |s|
  {
    forall i :: 0 <= i < n ==> MatchAt(s[i..]).None?
  }

  lemma {:induction false} FirstMatchSkips(s: string, n: nat)
    requires n <= |s| && NoneStarts(s, n)
    ensures FirstMatch(s) == FirstMatch(s[n..])
  {
    if n == 0 {
      assert s[0..] == s;
    } else {
      assert s[0..] == s && forall i :: 0 <= i < n - 1 ==> s[1..][i..] == s[i + 1..];
      FirstMatchSkips(s[1..], n - 1);
      assert s[1..][n - 1..] == s[n..];
    }
  }

  /** No phrase starts at any position. */
  lemma {:induction false} NoneMatches(s: string)
    requires FirstMatch(s).None?
    ensures NoneStarts(s, |s|) && MatchAt("").None?
  {
    if s != "" {
      NoneMatches(s[1..]);
      assert forall i :: 0 < i < |s| ==> s[i..] == s[1..][i - 1..];
      assert s[0..] == s;
    }
  }

  lemma {:induction false} SomeMatches(s: string) returns (i: nat)
    requires FirstMatch(s).Some?
    ensures i <= |s| && MatchAt(s[i..]) == FirstMatch(s) && NoneStarts(s, i)
  {
    if MatchAt(s).Some? {
      i := 0;
      assert s[0..] == s;
    } else {
      i := SomeMatches(s[1..]);
      assert s[1..][i..] == s[i + 1..];
      assert s[0..] == s && forall j :: 0 < j <= i ==> s[j..] == s[1..][j - 1..];
      i := i + 1;
    }
  }

  ghost predicate Starts(s: string) {
    exists n, unit :: StartsPhrase(s, n, unit)
  }

  lemma StartsIff(s: string)
    ensures MatchAt(s).Some? <==> Starts(s)
  {
    if MatchAt(s).Some? {
      MatchAtIff(s, MatchAt(s).value.0, MatchAt(s).value.1);
      assert StartsPhrase(s, MatchAt(s).value.0, MatchAt(s).value.1);
    }
    if Starts(s) {
      var n, unit :| StartsPhrase(s, n, unit);
      MatchAtIff(s, n, unit);
    }
  }

  /** A phrase starts at this position, with this count and unit, and none before it. */
  ghost predicate IsFirstPhrase(s: string, i: nat, n: int, unit: int) {
    && i <= |s| && StartsPhrase(s[i..], n, unit)
    && forall j :: 0 <= j < i ==> !Starts(s[j..])
  }

  lemma FirstPhraseIff(s: string, i: nat, n: int, unit: int)
    ensures IsFirstPhrase(s, i, n, unit) <==> i <= |s| && NoneStarts(s, i) && MatchAt(s[i..]) == Some((n, unit))
  {
    if i <= |s| {
      MatchAtIff(s[i..], n, unit);
      forall j | 0 <= j < i ensures MatchAt(s[j..]).Some? <==> Starts(s[j..]) {
        StartsIff(s[j..]);
      }
    }
  }

  /**
   * The leftmost "reset(s) in N unit" of a text, with any space and any number of digits, gives its
   * length in milliseconds; a zero count and a text without such a phrase give nothing.
   */
  lemma CountdownIff(text: string, ms: int)
    ensures ParseMs(text) == Some(ms) <==>
            exists i: nat, n, unit :: IsFirstPhrase(text, i, n, unit) && n > 0 && ms == n * unit
  {
    if ParseMs(text) == Some(ms) {
      var i := SomeMatches(text);
      var (n, unit) := FirstMatch(text).value;
      FirstPhraseIff(text, i, n, unit);
      assert IsFirstPhrase(text, i, n, unit);
    }
    if exists i: nat, n, unit :: IsFirstPhrase(text, i, n, unit) && n > 0 && ms == n * unit {
      var i: nat, n, unit :| IsFirstPhrase(text, i, n, unit) && n > 0 && ms == n * unit;
      FirstPhraseIff(text, i, n, unit);
      FirstMatchSkips(text, i);
    }
  }

  function PrintedPhrase(n: nat, word: string, tail: string): string {
    "resets" + (" " + ("in" + (" " + (Decimal(n) + (" " + (word + tail))))))
  }

  lemma PrintedStarts(n: nat, word: string, tail: string, unit: int)
    requires IsUnitOf(word, unit) && EndsWord(tail)
    ensures StartsPhrase(PrintedPhrase(n, word, tail), n, unit)
  {
    UnitIff(word, unit);
    DecimalValue(n);
    var count := Decimal(n) + (" " + (word + tail));
    assert IsCount(count, Decimal(n), " ", word, tail);
    assert IsPhrase(PrintedPhrase(n, word, tail), "resets", " ", " ", count);
  }

  /** A printed count reads as itself, when no other phrase stands before it. */
  lemma PrintedCountdown(before: string, n: nat, word: string, tail: string, unit: int)
    requires IsUnitOf(word, unit) && EndsWord(tail)
    requires forall j :: 0 <= j < |before| ==> !Starts((before + PrintedPhrase(n, word, tail))[j..])
    ensures ParseMs(before + PrintedPhrase(n, word, tail)) == if n == 0 then None else Some(n * unit)
  {
    var text := before + PrintedPhrase(n, word, tail);
    forall j | 0 <= j < |before| ensures MatchAt(text[j..]).None? { StartsIff(text[j..]); }
    FirstMatchSkips(text, |before|);
    assert text[|before|..] == PrintedPhrase(n, word, tail);
    PrintedStarts(n, word, tail, unit);
    MatchAtIff(PrintedPhrase(n, word, tail), n, unit);
  }
}

/** Gateways that misstate temporary quota exhaustion get their status restated. */
module StatusRestatement {
  import opened Options
  import opened Text
  import opened MarkerText

  datatype Rule = Rule(
    id: string, fromStatuses: set<int>, toStatus: int,
    textMarkers: seq<string>, excludeMarkers: seq<string>, defaultRetryAfterMs: Option<int>)

  /** An error body: none, a text, or a structured value given by its JSON text. */
  datatype Body = NoBody | TextBody(text: string) | JsonBody(json: string)

  datatype Input = Input(
    provider: Option<string>, status: int, message: Option<string>, body: Body, retryAfterMs: Option<int>)

  datatype Outcome = Outcome(status: int, retryAfterMs: Option<int>, ruleId: Option<string>, fromStatus: int)

  type Registry = map<string, seq<Rule>>

  function Stringify(b: Body): string {
    match b
    case NoBody => ""
    case TextBody(text) => text
    case JsonBody(json) => json
  }

  function Haystack(i: Input): string {
    Lower(i.message.GetOr("") + " " + Stringify(i.body))
  }

  function FirstApplying(rules: seq<Rule>, status: int, haystack: string): Option<Rule> {
    if rules == [] then None
    else if && status in rules[0].fromStatuses
            && (exists i :: 0 <= i < |rules[0].textMarkers| && Contains(haystack, rules[0].textMarkers[i]))
            && !(exists i :: 0 <= i < |rules[0].excludeMarkers| && Contains(haystack, rules[0].excludeMarkers[i]))
    then Some(rules[0])
    else FirstApplying(rules[1..], status, haystack)
  }

  function RulesFor(registry: Registry, provider: Option<string>): seq<Rule> {
    if provider.Some? && provider.value != "" && Lower(provider.value) in registry
    then registry[Lower(provider.value)] else []
  }

  function Restate(registry: Registry, i: Input): Outcome {
    var haystack := Haystack(i);
    var rules := RulesFor(registry, i.provider);
    var rule := if Trim(haystack) == "" then None else FirstApplying(rules, i.status, haystack);
    match rule
    case None => Outcome(i.status, i.retryAfterMs, None, i.status)
    case Some(rule) =>
      var upstream := if i.retryAfterMs.Some? && i.retryAfterMs.value > 0 then i.retryAfterMs else None;
      Outcome(rule.toStatus, if upstream.Some? then upstream else rule.defaultRetryAfterMs, Some(rule.id), i.status)
  }

  // ----- What is restated.

  predicate Positive(ms: Option<int>) {
    ms.Some? && ms.value > 0
  }

  predicate AnyMarker(text: string, markers: seq<string>) {
    exists i :: 0 <= i < |markers| && Contains(text, markers[i])
  }

  /** The rule is for this status, and the text has one of its markers and none of those that veto it. */
  predicate Applies(rule: Rule, status: int, text: string) {
    status in rule.fromStatuses && AnyMarker(text, rule.textMarkers) && !AnyMarker(text, rule.excludeMarkers)
  }

  predicate IsFirstApplying(rules: seq<Rule>, status: int, text: string, k: nat) {
    && k < |rules| && Applies(rules[k], status, text)
    && forall j :: 0 <= j < k ==> !Applies(rules[j], status, text)
  }

  lemma {:induction false} FirstApplyingIff(rules: seq<Rule>, status: int, text: string)
    ensures var r := FirstApplying(rules, status, text);
            if r.None? then forall k :: 0 <= k < |rules| ==> !Applies(rules[k], status, text)
            else exists k: nat :: IsFirstApplying(rules, status, text, k) && r.value == rules[k]
  {
    if rules != [] {
      if Applies(rules[0], status, text) {
        assert IsFirstApplying(rules, status, text, 0);
      } else {
        FirstApplyingIff(rules[1..], status, text);
        assert forall k :: 0 < k < |rules| ==> rules[k] == rules[1..][k - 1];
        if k: nat :| IsFirstApplying(rules[1..], status, text, k) {
          assert IsFirstApplying(rules, status, text, k + 1);
        }
      }
    }
  }

  /**
   * For any table: the first rule of the provider that applies to the lower-case message and body
   * gives the status; the delay is the upstream's when that is positive, and else the rule's. With
   * no such rule, no provider or no text, everything passes through.
   */
  lemma RestateSpec(registry: Registry, i: Input, rules: seq<Rule>)
    requires rules == if i.provider.Some? && i.provider.value != "" && Lower(i.provider.value) in registry
                      then registry[Lower(i.provider.value)] else []
    ensures var text := Lower(i.message.GetOr("") + " " + (if i.body.TextBody? then i.body.text
                                                          else if i.body.JsonBody? then i.body.json else ""));
            if Trim(text) == "" || (forall k :: 0 <= k < |rules| ==> !Applies(rules[k], i.status, text))
            then Restate(registry, i) == Outcome(i.status, i.retryAfterMs, None, i.status)
            else exists k: nat ::
                   && IsFirstApplying(rules, i.status, text, k)
                   && Restate(registry, i) == Outcome(
                        rules[k].toStatus,
                        if Positive(i.retryAfterMs) then i.retryAfterMs else rules[k].defaultRetryAfterMs,
                        Some(rules[k].id), i.status)
  {
    FirstApplyingIff(rules, i.status, Haystack(i));
  }

  /** No rule of the provider restates a status that another one produces. */
  predicate Settles(rules: seq<Rule>) {
    forall i, j :: 0 <= i < |rules| && 0 <= j < |rules| ==> rules[i].toStatus !in rules[j].fromStatuses
  }

  lemma {:induction false} FirstApplyingIsListed(rules: seq<Rule>, status: int, haystack: string)
    ensures var r := FirstApplying(rules, status, haystack);
            && (r.Some? ==> r.value in rules && Applies(r.value, status, haystack))
            && (r.None? ==> forall i :: 0 <= i < |rules| ==> !Applies(rules[i], status, haystack))
  {
    if rules != [] {
      FirstApplyingIsListed(rules[1..], status, haystack);
    }
  }

  lemma {:induction false} NoneApplies(rules: seq<Rule>, status: int, haystack: string)
    requires forall i :: 0 <= i < |rules| ==> status !in rules[i].fromStatuses
    ensures FirstApplying(rules, status, haystack) == None
  {
    if rules != [] {
      NoneApplies(rules[1..], status, haystack);
    }
  }

  /** Restating twice equals restating once, on status and retry delay. */
  lemma RestateTwice(registry: Registry, i: Input)
    requires Settles(RulesFor(registry, i.provider))
    ensures var once := Restate(registry, i);
            var twice := Restate(registry, i.(status := once.status, retryAfterMs := once.retryAfterMs));
            twice.status == once.status && twice.retryAfterMs == once.retryAfterMs
  {
    var rules, haystack := RulesFor(registry, i.provider), Haystack(i);
    var once := Restate(registry, i);
    FirstApplyingIsListed(rules, i.status, haystack);
    if once.ruleId.Some? {
      var first := FirstApplying(rules, i.status, haystack).value;
      var x :| 0 <= x < |rules| && rules[x] == first;
      NoneApplies(rules, once.status, haystack);
    }
  }

  /**
   * For any table, restating twice equals restating once on status and retry delay exactly when
   * the status that was restated meets no rule, or one that gives that status and delay again.
   */
  lemma RestateTwiceIff(registry: Registry, i: Input)
    ensures var once := Restate(registry, i);
            var twice := Restate(registry, i.(status := once.status, retryAfterMs := once.retryAfterMs));
            twice.status == once.status && twice.retryAfterMs == once.retryAfterMs
            <==> || once.ruleId.None?
                 || var next := FirstApplying(RulesFor(registry, i.provider), once.status, Haystack(i));
                    || next.None?
                    || (next.value.toStatus == once.status
                        && (Positive(once.retryAfterMs) || next.value.defaultRetryAfterMs == once.retryAfterMs))
  {
  }

  // ----- agentrouter.

  /** "user quota is not enough", "no access", and "no access to the model". */
  const QUOTA_MARKER := "\U{989D}\U{5EA6}\U{4E0D}\U{8DB3}"
  const NO_ACCESS := "\U{65E0}\U{6743}\U{8BBF}\U{95EE}"
  const NO_MODEL_ACCESS := "\U{65E0}\U{6743}\U{8BBF}\U{95EE}\U{6A21}\U{578B}"

  const AGENTROUTER_RULE :=
    Rule("agentrouter-quota-misstatus", {403, 400}, 429, [QUOTA_MARKER], [NO_ACCESS], Some(60000))

  lemma MarkersAreMarkers()
    ensures IsMarker(QUOTA_MARKER) && IsMarker(NO_ACCESS) && IsMarker(NO_MODEL_ACCESS)
    ensures NO_ACCESS <= NO_MODEL_ACCESS
  {
  }

  const REGISTRY: Registry := map["agentrouter" := [AGENTROUTER_RULE]]

  /** The text a rule searches, before lower-casing. */
  function SearchedText(i: Input): string {
    i.message.GetOr("") + " " + Stringify(i.body)
  }

  predicate IsProvider(provider: Option<string>, name: string) {
    provider.Some? && provider.value != "" && Lower(provider.value) == name
  }

  /** When the agentrouter rule applies, in terms of the text itself. */
  lemma AgentrouterAppliesIff(status: int, text: string)
    ensures Applies(AGENTROUTER_RULE, status, Lower(text)) <==>
            status in {403, 400} && Contains(text, QUOTA_MARKER) && !Contains(text, NO_ACCESS)
  {
    MarkersAreMarkers();
    MarkerInLower(text, QUOTA_MARKER);
    MarkerInLower(text, NO_ACCESS);
    var markers, excluded := AGENTROUTER_RULE.textMarkers, AGENTROUTER_RULE.excludeMarkers;
    assert markers[0] == QUOTA_MARKER && excluded[0] == NO_ACCESS;
  }

  /** A text with a marker in it is not blank. */
  lemma {:induction false} MarkedIsNotBlank(s: string, m: string)
    requires IsMarker(m) && Contains(s, m)
    ensures TrimStart(s) != "" && exists i :: 0 <= i < |TrimStart(s)| && IsIdeograph(TrimStart(s)[i])
  {
    if m <= s {
      assert s[0] == m[0];
    } else {
      MarkedIsNotBlank(s[1..], m);
      var rest := TrimStart(s[1..]);
      var i :| 0 <= i < |rest| && IsIdeograph(rest[i]);
      TrimStartIsSuffix(s[1..]);
      assert !IsSpace(s[0]) ==> s[|s| - |rest| + i] == rest[i];
    }
  }

  lemma {:induction false} TrimEndKeepsIdeographs(s: string, i: nat)
    requires i < |s| && IsIdeograph(s[i])
    ensures TrimEnd(s) != ""
  {
    if IsSpace(s[|s| - 1]) {
      TrimEndKeepsIdeographs(s[..|s| - 1], i);
    }
  }

  lemma FirstOfOne(rule: Rule, status: int, haystack: string)
    ensures FirstApplying([], status, haystack) == None
    ensures FirstApplying([rule], status, haystack) == if Applies(rule, status, haystack) then Some(rule) else None
  {
    assert [rule][1..] == [];
  }

  /** The message or the text of the body contains the marker. */
  predicate Mentions(i: Input, m: string) {
    || Contains(i.message.GetOr(""), m)
    || (i.body.TextBody? && Contains(i.body.text, m))
    || (i.body.JsonBody? && Contains(i.body.json, m))
  }

  lemma MentionsIff(i: Input, m: string)
    requires IsMarker(m)
    ensures Contains(SearchedText(i), m) <==> Mentions(i, m)
  {
    MarkerInJoined(i.message.GetOr(""), Stringify(i.body), m);
  }

  /** A quota error with a permanent status, and no denial of access anywhere in it. */
  predicate Misstated(i: Input) {
    && IsProvider(i.provider, "agentrouter") && i.status in {403, 400}
    && Mentions(i, QUOTA_MARKER) && !Mentions(i, NO_ACCESS)
  }

  /** Exactly which upstream errors are restated, and to what. */
  lemma RestatedIff(i: Input)
    ensures Restate(REGISTRY, i) ==
            if Misstated(i)
            then Outcome(429, if Positive(i.retryAfterMs) then i.retryAfterMs else Some(60000),
                         Some("agentrouter-quota-misstatus"), i.status)
            else Outcome(i.status, i.retryAfterMs, None, i.status)
  {
    var text, rules := SearchedText(i), RulesFor(REGISTRY, i.provider);
    MarkersAreMarkers();
    MentionsIff(i, QUOTA_MARKER);
    MentionsIff(i, NO_ACCESS);
    AgentrouterAppliesIff(i.status, text);
    assert Haystack(i) == Lower(text);
    FirstOfOne(AGENTROUTER_RULE, i.status, Lower(text));
    if Applies(AGENTROUTER_RULE, i.status, Lower(text)) {
      MarkerInLower(text, QUOTA_MARKER);
      MarkedIsText(Lower(text), QUOTA_MARKER);
    }
  }

  lemma MarkedIsText(s: string, m: string)
    requires IsMarker(m) && Contains(s, m)
    ensures Trim(s) != ""
  {
    MarkedIsNotBlank(s, m);
    var start := TrimStart(s);
    var k :| 0 <= k < |start| && IsIdeograph(start[k]);
    TrimEndKeepsIdeographs(start, k);
  }

  /** With the shipped table, restating is idempotent on status and retry delay for every input. */
  lemma ShippedRestateTwice(i: Input)
    ensures var once := Restate(REGISTRY, i);
            var twice := Restate(REGISTRY, i.(status := once.status, retryAfterMs := once.retryAfterMs));
            twice.status == once.status && twice.retryAfterMs == once.retryAfterMs
  {
    RestateTwice(REGISTRY, i);
  }
}

/** Provider error rules: operator rules first, then the built-in catalogue. */
module ProviderErrorRules {
  import opened Options
  import opened Text
  import opened MarkerText
  import opened StatusRestatement
  import ResetCountdown

  datatype Scope = ModelScope | ProviderScope | ConnectionScope

  datatype RuleMatch = RuleMatch(reason: string, scope: Scope, cooldownMs: Option<int>)

  datatype OperatorRule =
    OperatorRule(status: int, pattern: string, scope: Scope, reason: Option<string>, cooldownMs: Option<int>)

  type Headers = map<string, string>
  type BuiltInRule = (int, Headers, Body) -> Option<RuleMatch>
  type BuiltIns = map<string, seq<BuiltInRule>>
  type OperatorTable = map<string, seq<OperatorRule>>

  datatype Failure = Failure(provider: Option<string>, status: int, headers: Headers)

  // ----- The operator table.

  /** Empty lists and values that are not lists (`None`) are skipped; later entries replace earlier ones. */
  function TableOf(entries: seq<(string, Option<seq<OperatorRule>>)>): OperatorTable {
    if entries == [] then map[] else
      var last := entries[|entries| - 1];
      var table := TableOf(entries[..|entries| - 1]);
      if last.1.Some? && last.1.value != [] then table[Lower(last.0) := last.1.value] else table
  }

  ghost predicate LastEntryFor(
    entries: seq<(string, Option<seq<OperatorRule>>)>, key: string, rules: seq<OperatorRule>)
  {
    exists i :: 0 <= i < |entries| && EntryFor(entries[i], key) && entries[i].1 == Some(rules)
             && forall j :: i < j < |entries| ==> !EntryFor(entries[j], key)
  }

  predicate EntryFor(entry: (string, Option<seq<OperatorRule>>), key: string) {
    Lower(entry.0) == key && entry.1.Some? && entry.1.value != []
  }

  /** A key is in the table exactly when some usable entry names it, and the last such entry counts. */
  lemma {:induction false} TableSpec(entries: seq<(string, Option<seq<OperatorRule>>)>, key: string)
    ensures (exists i :: 0 <= i < |entries| && EntryFor(entries[i], key)) ==> key in TableOf(entries)
    ensures key in TableOf(entries) ==> LastEntryFor(entries, key, TableOf(entries)[key])
  {
    if entries != [] {
      var n := |entries| - 1;
      var init, table := entries[..n], TableOf(entries);
      if EntryFor(entries[n], key) {
        assert table[key] == entries[n].1.value;
        assert LastEntryFor(entries, key, table[key]);
      } else {
        TableSpec(init, key);
        if key in table {
          LastEntryStep(entries, key, table[key]);
        }
      }
    }
  }

  lemma LastEntryStep(entries: seq<(string, Option<seq<OperatorRule>>)>, key: string, rules: seq<OperatorRule>)
    requires entries != [] && !EntryFor(entries[|entries| - 1], key)
    requires LastEntryFor(entries[..|entries| - 1], key, rules)
    ensures LastEntryFor(entries, key, rules)
  {
    var init := entries[..|entries| - 1];
    var i :| 0 <= i < |init| && EntryFor(init[i], key) && init[i].1 == Some(rules)
          && forall j :: i < j < |init| ==> !EntryFor(init[j], key);
    assert EntryFor(entries[i], key);
    forall j | i < j < |entries| ensures !EntryFor(entries[j], key) {
      if j < |init| { assert init[j] == entries[j]; }
    }
  }

  /** The settings-backed operator rules. */
  class OperatorRules {
    var table: OperatorTable

    constructor ()
      ensures table == map[]
    {
      table := map[];
    }

    method SetRules(rules: Option<seq<(string, Option<seq<OperatorRule>>)>>)
      modifies this
      ensures table == TableOf(rules.GetOr([]))
    {
      table := map[];
      if rules.None? {
        return;
      }
      var entries := rules.value;
      for i := 0 to |entries|
        invariant table == TableOf(entries[..i])
      {
        assert entries[..i + 1][..i] == entries[..i];
        var (provider, list) := entries[i];
        if list.Some? && list.value != [] {
          table := table[Lower(provider) := list.value];
        }
      }
      assert entries[..|entries|] == entries;
    }
  }

  predicate HasOperatorRule(table: OperatorTable, provider: Option<string>) {
    provider.Some? && provider.value != ""
    && Lower(provider.value) in table && table[Lower(provider.value)] != []
  }

  // ----- Matching.

  /** The JSON text of a body, with `""` for a missing one. */
  function JsonText(body: Body): string {
    match body
    case NoBody => Quote("")
    case TextBody(text) => Quote(text)
    case JsonBody(json) => json
  }

  /** Built-in rules search the lower-cased JSON text. */
  function BuiltInText(body: Body): string {
    Lower(JsonText(body))
  }

  /** Operator rules search a text body as it is. */
  function OperatorText(body: Body): string {
    Lower(if body.TextBody? then body.text else JsonText(body))
  }

  function FirstOperator(rules: seq<OperatorRule>, status: int, text: string): Option<RuleMatch> {
    if rules == [] then None
    else if rules[0].status == status && Contains(text, Lower(rules[0].pattern))
    then Some(RuleMatch(rules[0].reason.GetOr("quota_exhausted"), rules[0].scope, rules[0].cooldownMs))
    else FirstOperator(rules[1..], status, text)
  }

  function FirstBuiltIn(rules: seq<BuiltInRule>, f: Failure, body: Body): Option<RuleMatch> {
    if rules == [] then None
    else
      var hit := rules[0](f.status, f.headers, body);
      if hit.Some? then hit else FirstBuiltIn(rules[1..], f, body)
  }

  function GetMatch(builtIns: BuiltIns, table: OperatorTable, f: Failure, body: Body): Option<RuleMatch> {
    if f.provider.None? || f.provider.value == "" then None else
      var key := Lower(f.provider.value);
      var operator := if key in table then FirstOperator(table[key], f.status, OperatorText(body)) else None;
      if operator.Some? then operator
      else if key in builtIns then FirstBuiltIn(builtIns[key], f, body)
      else None
  }

  function ResolveRuleMatchBody(
    fullText: set<string>, table: OperatorTable, provider: Option<string>, structured: Body, errorText: string): Body
  {
    if && provider.Some? && provider.value != ""
       && (Lower(provider.value) in fullText || HasOperatorRule(table, provider))
       && errorText != ""
    then TextBody(errorText)
    else structured
  }

  /** The lookup as the fallback check performs it. */
  function Classify(
    builtIns: BuiltIns, fullText: set<string>, table: OperatorTable, f: Failure, structured: Body, errorText: string)
    : Option<RuleMatch>
  {
    GetMatch(builtIns, table, f, ResolveRuleMatchBody(fullText, table, f.provider, structured, errorText))
  }

  // ----- Operator rules.

  predicate OperatorHit(rule: OperatorRule, status: int, text: string) {
    rule.status == status && Contains(text, Lower(rule.pattern))
  }

  /** What a rule that decides answers: its own reason, scope and cooldown, a quota without a reason. */
  function OperatorMatch(rule: OperatorRule): RuleMatch {
    RuleMatch(if rule.reason.Some? then rule.reason.value else "quota_exhausted", rule.scope, rule.cooldownMs)
  }

  ghost predicate FirstHit(rules: seq<OperatorRule>, status: int, text: string, i: nat) {
    && i < |rules| && OperatorHit(rules[i], status, text)
    && forall j :: 0 <= j < i ==> !OperatorHit(rules[j], status, text)
  }

  predicate NoHit(rules: seq<OperatorRule>, status: int, text: string) {
    forall j :: 0 <= j < |rules| ==> !OperatorHit(rules[j], status, text)
  }

  lemma {:induction false} FirstOperatorSpec(rules: seq<OperatorRule>, status: int, text: string)
    ensures FirstOperator(rules, status, text) == None <==> NoHit(rules, status, text)
    ensures forall i: nat :: FirstHit(rules, status, text, i) ==>
              FirstOperator(rules, status, text) == Some(OperatorMatch(rules[i]))
  {
    if rules != [] {
      FirstOperatorSpec(rules[1..], status, text);
      if !OperatorHit(rules[0], status, text) {
        assert NoHit(rules, status, text) <==> NoHit(rules[1..], status, text) by {
          assert NoHit(rules[1..], status, text) ==>
              forall j :: 0 < j < |rules| ==> rules[j] == rules[1..][j - 1];
        }
        forall i: nat | FirstHit(rules, status, text, i)
          ensures FirstOperator(rules, status, text) == Some(OperatorMatch(rules[i]))
        {
          assert FirstHit(rules[1..], status, text, i - 1);
        }
      } else {
        assert rules[0] in rules && !NoHit(rules, status, text);
      }
    }
  }

  /**
   * On the same body, operator rules are a conservative extension of the built-in ones: the
   * first operator rule that hits decides, and without a hit nothing changes.
   */
  lemma OperatorRulesExtend(builtIns: BuiltIns, table: OperatorTable, f: Failure, body: Body)
    requires HasOperatorRule(table, f.provider)
    ensures var rules := table[Lower(f.provider.value)];
            var text := OperatorText(body);
            && (forall i: nat :: FirstHit(rules, f.status, text, i) ==>
                  GetMatch(builtIns, table, f, body) == Some(OperatorMatch(rules[i])))
            && (NoHit(rules, f.status, text) ==>
                  GetMatch(builtIns, table, f, body) == GetMatch(builtIns, map[], f, body))
  {
    FirstOperatorSpec(table[Lower(f.provider.value)], f.status, OperatorText(body));
  }

  /** The full error text reaches a provider's operator rules, whatever the structured error is; the
      first rule that hits it answers. Without an error text the structured error is searched. */
  lemma FullTextReachesOperatorRules(
    builtIns: BuiltIns, fullText: set<string>, table: OperatorTable, f: Failure, structured: Body,
    errorText: string, rules: seq<OperatorRule>, i: nat)
    requires f.provider.Some? && f.provider.value != "" && rules != []
    requires Lower(f.provider.value) in table && table[Lower(f.provider.value)] == rules
    requires FirstHit(rules, f.status, Lower(if errorText != "" then errorText else StructuredText(structured)), i)
    ensures Classify(builtIns, fullText, table, f, structured, errorText) == Some(OperatorMatch(rules[i]))
  {
    assert Quote("") == "\"\"";
    OperatorRulesExtend(builtIns, table, f, if errorText != "" then TextBody(errorText) else structured);
  }

  /** Without declared rules, and outside the full-text providers, the error text is never read. */
  lemma ErrorTextIsNotRead(
    builtIns: BuiltIns, fullText: set<string>, table: OperatorTable, f: Failure, structured: Body,
    errorText: string, other: string)
    requires f.provider.Some? && f.provider.value != "" ==>
               var key := Lower(f.provider.value);
               key !in fullText && (key in table ==> table[key] == [])
    ensures Classify(builtIns, fullText, table, f, structured, errorText)
         == Classify(builtIns, fullText, table, f, structured, other)
  {
  }

  /** The text of a structured error: itself, or its JSON, which is `""` for none. */
  function StructuredText(structured: Body): string {
    match structured
    case NoBody => "\"\""
    case TextBody(text) => text
    case JsonBody(json) => json
  }

  /**
   * Through the whole lookup the extension is conservative exactly when the built-in rules
   * answer alike on the body they had and on the text they get once a rule is declared.
   */
  lemma DeclaringRulesIsConservativeIff(
    builtIns: BuiltIns, fullText: set<string>, table: OperatorTable, f: Failure, structured: Body, errorText: string)
    requires HasOperatorRule(table, f.provider)
    requires NoHit(table[Lower(f.provider.value)], f.status,
                   OperatorText(if errorText == "" then structured else TextBody(errorText)))
    ensures Classify(builtIns, fullText, table, f, structured, errorText)
         == Classify(builtIns, fullText, map[], f, structured, errorText)
       <==> || Lower(f.provider.value) in fullText
            || errorText == ""
            || Lower(f.provider.value) !in builtIns
            || FirstBuiltIn(builtIns[Lower(f.provider.value)], f, TextBody(errorText))
            == FirstBuiltIn(builtIns[Lower(f.provider.value)], f, structured)
  {
    OperatorRulesExtend(builtIns, table, f, if errorText == "" then structured else TextBody(errorText));
  }

  // ----- The shipped rules that read the text of the error.

  function QuotaRule(status: int, headers: Headers, body: Body): Option<RuleMatch> {
    if status in {400, 403, 429} && Contains(BuiltInText(body), QUOTA_MARKER)
    then Some(RuleMatch("quota_exhausted", ConnectionScope, None)) else None
  }

  function AccessRule(status: int, headers: Headers, body: Body): Option<RuleMatch> {
    if status == 403 && Contains(BuiltInText(body), NO_MODEL_ACCESS)
    then Some(RuleMatch("auth_error", ModelScope, Some(6 * 60 * 60 * 1000))) else None
  }

  const DAILY_ALLOCATION := "daily free allocation"

  function NeuronRule(status: int, headers: Headers, body: Body): Option<RuleMatch> {
    if status == 429 && Contains(BuiltInText(body), DAILY_ALLOCATION)
    then Some(RuleMatch("quota_exhausted", ConnectionScope, None)) else None
  }

  function CreditRule(status: int, headers: Headers, body: Body): Option<RuleMatch> {
    if status == 402 then Some(RuleMatch("quota_exhausted", ConnectionScope, Some(2 * 60 * 1000))) else None
  }

  /** Some `name=value` pair of the list reports zero. */
  predicate ReportsZero(list: string) {
    exists pair :: pair in Split(list, ',') && |Split(pair, '=')| > 1 && Trim(Split(pair, '=')[1]) == "0"
  }

  function ModelQuotaRule(status: int, headers: Headers, body: Body): Option<RuleMatch> {
    var header := "x-model-quota-remaining";
    if status == 429 && header in headers && headers[header] != "" && ReportsZero(headers[header])
    then Some(RuleMatch("quota_exhausted", ModelScope, None)) else None
  }

  const MONTHLY_LIMIT := "monthly usage limit reached"

  /** The countdown of an error that says the monthly limit is reached. */
  function MonthlyReset(body: Body): Option<int> {
    if Contains(BuiltInText(body), MONTHLY_LIMIT) then ResetCountdown.ParseMs(BuiltInText(body)) else None
  }

  function MonthlyRule(status: int, headers: Headers, body: Body): Option<RuleMatch> {
    if status == 429 && MonthlyReset(body).Some?
    then Some(RuleMatch("quota_exhausted", ConnectionScope, MonthlyReset(body))) else None
  }

  /** One of the two headers that count what is left is at zero. */
  predicate HeaderAtZero(headers: Headers) {
    exists name :: name in headers && headers[name] == "0"
                && name in {"x-ratelimit-remaining-requests", "x-ratelimit-remaining-tokens"}
  }

  function RemainingRule(status: int, headers: Headers, body: Body): Option<RuleMatch> {
    if status == 429 && HeaderAtZero(headers)
    then Some(RuleMatch("quota_exhausted", ConnectionScope, None)) else None
  }

  /** The body names one of the three quota codes. */
  predicate NamesQuotaCode(body: Body) {
    var text := BuiltInText(body);
    || Contains(text, "organization_quota_exceeded")
    || Contains(text, "account_quota_exceeded")
    || Contains(text, "plan_limit_reached")
  }

  function QuotaCodeRule(status: int, headers: Headers, body: Body): Option<RuleMatch> {
    if status == 429 && NamesQuotaCode(body)
    then Some(RuleMatch("quota_exhausted", ConnectionScope, None)) else None
  }

  const FULL_TEXT_PROVIDERS: set<string> := {"agentrouter"}

  ghost predicate ShipsAgentrouter(builtIns: BuiltIns) {
    "agentrouter" in builtIns && builtIns["agentrouter"] == [QuotaRule, AccessRule]
  }

  lemma AgentrouterMatch(builtIns: BuiltIns, f: Failure, body: Body)
    requires ShipsAgentrouter(builtIns) && IsProvider(f.provider, "agentrouter")
    ensures GetMatch(builtIns, map[], f, body) ==
            if QuotaRule(f.status, f.headers, body).Some? then QuotaRule(f.status, f.headers, body)
            else AccessRule(f.status, f.headers, body)
  {
    var rules := builtIns["agentrouter"];
    assert rules[1..] == [AccessRule] && rules[1..][1..] == [];
    assert FirstBuiltIn(rules[1..], f, body) == AccessRule(f.status, f.headers, body);
    assert FirstBuiltIn(rules, f, body) ==
           if QuotaRule(f.status, f.headers, body).Some? then QuotaRule(f.status, f.headers, body)
           else AccessRule(f.status, f.headers, body);
  }

  // ----- What the shipped rules answer.

  /**
   * agentrouter, on any error text: the quota marker with one of three statuses is an exhausted
   * quota of the connection; without it, a denied model with 403 is an access error of that model
   * for six hours; anything else is not classified.
   */
  lemma AgentrouterAnswers(builtIns: BuiltIns, f: Failure, structured: Body, errorText: string)
    requires ShipsAgentrouter(builtIns) && IsProvider(f.provider, "agentrouter") && errorText != ""
    ensures Classify(builtIns, FULL_TEXT_PROVIDERS, map[], f, structured, errorText) ==
            if f.status in {400, 403, 429} && Contains(errorText, QUOTA_MARKER)
            then Some(RuleMatch("quota_exhausted", ConnectionScope, None))
            else if f.status == 403 && Contains(errorText, NO_MODEL_ACCESS)
            then Some(RuleMatch("auth_error", ModelScope, Some(21600000)))
            else None
  {
    AgentrouterMatch(builtIns, f, TextBody(errorText));
    MarkersAreMarkers();
    MarkerInQuoted(errorText, QUOTA_MARKER);
    MarkerInQuoted(errorText, NO_MODEL_ACCESS);
  }

  /** After restatement, on the raw error: the same, except that a restated denial is not classified. */
  lemma RestatedAnswers(builtIns: BuiltIns, i: Input, headers: Headers, structured: Body, errorText: string)
    requires ShipsAgentrouter(builtIns) && IsProvider(i.provider, "agentrouter") && errorText != ""
    ensures Classify(builtIns, FULL_TEXT_PROVIDERS, map[],
                     Failure(i.provider, Restate(REGISTRY, i).status, headers), structured, errorText) ==
            if i.status in {400, 403, 429} && Contains(errorText, QUOTA_MARKER)
            then Some(RuleMatch("quota_exhausted", ConnectionScope, None))
            else if i.status == 403 && !Misstated(i) && Contains(errorText, NO_MODEL_ACCESS)
            then Some(RuleMatch("auth_error", ModelScope, Some(21600000)))
            else None
  {
    RestatedIff(i);
    AgentrouterAnswers(builtIns, Failure(i.provider, Restate(REGISTRY, i).status, headers), structured, errorText);
  }

  /** A provider without operator rules whose built-in rules see the structured error only. */
  ghost predicate OnBuiltIns(builtIns: BuiltIns, f: Failure, rules: seq<BuiltInRule>) {
    && f.provider.Some? && f.provider.value != "" && Lower(f.provider.value) != "agentrouter"
    && Lower(f.provider.value) in builtIns && builtIns[Lower(f.provider.value)] == rules
  }

  /** The text in which the rules search a structured error that is an object or is missing. */
  predicate SearchedAs(structured: Body, text: string) {
    match structured
    case NoBody => text == "\"\""
    case JsonBody(json) => text == Lower(json)
    case TextBody(_) => false
  }

  lemma SearchedAsBuiltIn(structured: Body, text: string)
    requires SearchedAs(structured, text)
    ensures BuiltInText(structured) == text
  {
    assert Quote("") == "\"\"";
  }

  /** opencode: only 429 is classified, always as an exhausted quota of the connection; for as long
      as a monthly limit says, and else when a header or a code in the error says so. */
  lemma OpencodeAnswers(builtIns: BuiltIns, f: Failure, structured: Body, errorText: string, text: string)
    requires OnBuiltIns(builtIns, f, [MonthlyRule, RemainingRule, QuotaCodeRule]) && SearchedAs(structured, text)
    ensures Classify(builtIns, FULL_TEXT_PROVIDERS, map[], f, structured, errorText) ==
            if f.status == 429 && Contains(text, "monthly usage limit reached") && ResetCountdown.ParseMs(text).Some?
            then Some(RuleMatch("quota_exhausted", ConnectionScope, ResetCountdown.ParseMs(text)))
            else if && f.status == 429
                    && (|| ("x-ratelimit-remaining-requests", "0") in f.headers.Items
                        || ("x-ratelimit-remaining-tokens", "0") in f.headers.Items
                        || Contains(text, "organization_quota_exceeded")
                        || Contains(text, "account_quota_exceeded")
                        || Contains(text, "plan_limit_reached"))
            then Some(RuleMatch("quota_exhausted", ConnectionScope, None))
            else None
  {
    SearchedAsBuiltIn(structured, text);
    OpencodeMatch(builtIns[Lower(f.provider.value)], f, structured);
    HeaderAtZeroIff(f.headers);
  }

  lemma HeaderAtZeroIff(headers: Headers)
    ensures HeaderAtZero(headers) <==>
            || ("x-ratelimit-remaining-requests", "0") in headers.Items
            || ("x-ratelimit-remaining-tokens", "0") in headers.Items
  {
  }

  lemma OneRule(builtIns: BuiltIns, f: Failure, structured: Body, errorText: string, rule: BuiltInRule)
    requires OnBuiltIns(builtIns, f, [rule])
    ensures Classify(builtIns, FULL_TEXT_PROVIDERS, map[], f, structured, errorText)
         == rule(f.status, f.headers, structured)
  {
    var rules := builtIns[Lower(f.provider.value)];
    assert rules[1..] == [] && rules[0] == rule;
    assert FirstBuiltIn(rules, f, structured) == rule(f.status, f.headers, structured);
  }

  /** cloudflare-ai: a 429 about the daily allocation is an exhausted quota of the connection. */
  lemma CloudflareAnswers(builtIns: BuiltIns, f: Failure, structured: Body, errorText: string, text: string)
    requires OnBuiltIns(builtIns, f, [NeuronRule]) && SearchedAs(structured, text)
    ensures Classify(builtIns, FULL_TEXT_PROVIDERS, map[], f, structured, errorText) ==
            if f.status == 429 && Contains(text, "daily free allocation")
            then Some(RuleMatch("quota_exhausted", ConnectionScope, None)) else None
  {
    SearchedAsBuiltIn(structured, text);
    OneRule(builtIns, f, structured, errorText, NeuronRule);
  }

  /** openrouter: any 402 is an exhausted quota of the connection for two minutes. */
  lemma OpenrouterAnswers(builtIns: BuiltIns, f: Failure, structured: Body, errorText: string)
    requires OnBuiltIns(builtIns, f, [CreditRule])
    ensures Classify(builtIns, FULL_TEXT_PROVIDERS, map[], f, structured, errorText) ==
            if f.status == 402 then Some(RuleMatch("quota_exhausted", ConnectionScope, Some(120000))) else None
  {
    OneRule(builtIns, f, structured, errorText, CreditRule);
  }

  /** The entry is `name=value`, up to anything after a second `=`. */
  predicate IsEntry(pair: string, name: string, value: string, after: string) {
    && pair == name + "=" + value + after && '=' !in name && '=' !in value
    && (after == "" || after[0] == '=')
  }

  /** An entry `name=0`, up to space around the value. */
  ghost predicate IsZeroEntry(pair: string) {
    exists name, value, after :: IsEntry(pair, name, value, after) && Trim(value) == "0"
  }

  /** Some entry between the commas of the list is at zero. */
  ghost predicate ListsZero(list: string) {
    exists pair :: HasPiece(list, ',', pair) && IsZeroEntry(pair)
  }

  lemma FirstPart(value: string, after: string)
    requires '=' !in value && (after == "" || after[0] == '=')
    ensures Split(value + after, '=')[0] == value
  {
    if after == "" {
      assert value + after == value;
      SplitOfPlain(value, '=');
    } else {
      assert value + after == value + ['='] + after[1..];
      SplitAtSeparator(value, '=', after[1..]);
    }
  }

  /** The second part of an entry `name=value`, cut at a second `=`. */
  lemma SecondPart(name: string, value: string, after: string)
    requires '=' !in name && '=' !in value && (after == "" || after[0] == '=')
    ensures var parts := Split(name + "=" + value + after, '='); |parts| > 1 && parts[1] == value
  {
    FirstPart(value, after);
    SplitAtSeparator(name, '=', value + after);
    assert name + "=" + value + after == name + ['='] + (value + after);
  }

  lemma CutAt(s: string, i: nat)
    requires i < |s|
    ensures s == s[..i] + [s[i]] + s[i + 1..]
  {
  }

  /** The second part of an entry that splits is a value at its place. */
  lemma EntryParts(pair: string)
    requires |Split(pair, '=')| > 1 && Trim(Split(pair, '=')[1]) == "0"
    ensures IsZeroEntry(pair)
  {
    var i := IndexOf(pair, '=');
    SplitAtFirst(pair, '=');
    CutAt(pair, i);
    SecondIsValue(pair[..i], pair[i + 1..]);
  }

  lemma SecondIsValue(name: string, tail: string)
    requires '=' !in name && Trim(Split(tail, '=')[0]) == "0"
    ensures IsZeroEntry(name + "=" + tail)
  {
    var k := IndexOf(tail, '=');
    SplitAtFirst(tail, '=');
    var value, after := tail[..k], tail[k..];
    assert tail == value + after && (k == |tail| ==> value == tail);
    assert name + "=" + (value + after) == name + "=" + value + after;
    assert IsEntry(name + "=" + tail, name, value, after);
  }

  lemma ZeroEntryIff(pair: string)
    ensures |Split(pair, '=')| > 1 && Trim(Split(pair, '=')[1]) == "0" <==> IsZeroEntry(pair)
  {
    if |Split(pair, '=')| > 1 && Trim(Split(pair, '=')[1]) == "0" {
      EntryParts(pair);
    }
    if IsZeroEntry(pair) {
      var name, value, after :| IsEntry(pair, name, value, after) && Trim(value) == "0";
      SecondPart(name, value, after);
    }
  }

  lemma ListsZeroIff(list: string)
    ensures ReportsZero(list) <==> ListsZero(list)
  {
    forall pair ensures pair in Split(list, ',') <==> HasPiece(list, ',', pair) { SplitIff(list, ',', pair); }
    forall pair
      ensures |Split(pair, '=')| > 1 && Trim(Split(pair, '=')[1]) == "0" <==> IsZeroEntry(pair)
    {
      ZeroEntryIff(pair);
    }
  }

  /** minimax: a 429 whose quota header lists a model at zero is an exhausted quota of that model. */
  lemma MinimaxAnswers(builtIns: BuiltIns, f: Failure, structured: Body, errorText: string)
    requires OnBuiltIns(builtIns, f, [ModelQuotaRule])
    ensures Classify(builtIns, FULL_TEXT_PROVIDERS, map[], f, structured, errorText) ==
            if && f.status == 429 && "x-model-quota-remaining" in f.headers
               && ListsZero(f.headers["x-model-quota-remaining"])
            then Some(RuleMatch("quota_exhausted", ModelScope, None)) else None
  {
    OneRule(builtIns, f, structured, errorText, ModelQuotaRule);
    if "x-model-quota-remaining" in f.headers {
      ListsZeroIff(f.headers["x-model-quota-remaining"]);
    }
  }

  /**
   * Restating an agentrouter error changes its classification exactly when a 403 is restated
   * although the matched body denies access to the model and does not mention the quota.
   */
  lemma RestatementAgreesIff(builtIns: BuiltIns, i: Input, headers: Headers, body: Body)
    requires ShipsAgentrouter(builtIns) && IsProvider(i.provider, "agentrouter")
    ensures GetMatch(builtIns, map[], Failure(i.provider, Restate(REGISTRY, i).status, headers), body)
         == GetMatch(builtIns, map[], Failure(i.provider, i.status, headers), body)
       <==> !(&& Misstated(i) && i.status == 403
              && !Contains(BuiltInText(body), QUOTA_MARKER) && Contains(BuiltInText(body), NO_MODEL_ACCESS))
  {
    RestatedIff(i);
    AgentrouterMatch(builtIns, Failure(i.provider, i.status, headers), body);
    AgentrouterMatch(builtIns, Failure(i.provider, Restate(REGISTRY, i).status, headers), body);
  }

  /** The searched text covers the error text when that is the message or the body. */
  predicate Covers(i: Input, errorText: string) {
    i.message == Some(errorText) || i.body == TextBody(errorText)
  }

  lemma CoveredMarker(i: Input, errorText: string, m: string)
    requires Covers(i, errorText) && Contains(errorText, m)
    ensures Contains(SearchedText(i), m)
  {
    if i.message == Some(errorText) {
      ContainsLeft(errorText, " " + Stringify(i.body), m);
      assert SearchedText(i) == errorText + (" " + Stringify(i.body));
    } else {
      ContainsRight(i.message.GetOr("") + " ", errorText, m);
    }
  }

  /**
   * Exactly when a non-empty agentrouter error text is classified alike before and after
   * restatement: unless a 403 is restated although this text denies access to the model and
   * does not mention the quota.
   */
  lemma RestateThenClassifyIff(
    builtIns: BuiltIns, i: Input, headers: Headers, structured: Body, errorText: string)
    requires ShipsAgentrouter(builtIns) && IsProvider(i.provider, "agentrouter") && errorText != ""
    ensures Classify(builtIns, FULL_TEXT_PROVIDERS, map[],
                     Failure(i.provider, Restate(REGISTRY, i).status, headers), structured, errorText)
         == Classify(builtIns, FULL_TEXT_PROVIDERS, map[],
                     Failure(i.provider, i.status, headers), structured, errorText)
       <==> !(&& Misstated(i) && i.status == 403
              && !Contains(errorText, QUOTA_MARKER) && Contains(errorText, NO_MODEL_ACCESS))
  {
    RestatementAgreesIff(builtIns, i, headers, TextBody(errorText));
    MarkersAreMarkers();
    MarkerInQuoted(errorText, NO_MODEL_ACCESS);
    MarkerInQuoted(errorText, QUOTA_MARKER);
  }

  /**
   * Every non-empty agentrouter error text is classified alike before and after restatement,
   * when the restatement has searched that text too.
   */
  lemma RestateThenClassifyAgrees(
    builtIns: BuiltIns, i: Input, headers: Headers, structured: Body, errorText: string)
    requires ShipsAgentrouter(builtIns) && IsProvider(i.provider, "agentrouter")
    requires errorText != "" && Covers(i, errorText)
    ensures Classify(builtIns, FULL_TEXT_PROVIDERS, map[],
                     Failure(i.provider, Restate(REGISTRY, i).status, headers), structured, errorText)
         == Classify(builtIns, FULL_TEXT_PROVIDERS, map[],
                     Failure(i.provider, i.status, headers), structured, errorText)
  {
    RestateThenClassifyIff(builtIns, i, headers, structured, errorText);
    MarkersAreMarkers();
    if Contains(errorText, NO_MODEL_ACCESS) {
      ContainsPrefixOf(errorText, NO_MODEL_ACCESS, NO_ACCESS);
      CoveredMarker(i, errorText, NO_ACCESS);
    }
  }

  predicate IsPlain(s: string) {
    forall i :: 0 <= i < |s| ==> s[i] == ' ' || 'a' <= s[i] <= 'z'
  }

  lemma {:induction false} PlainEscaped(s: string)
    requires IsPlain(s)
    ensures EscapeAll(s) == s
  {
    if s != "" {
      PlainEscaped(s[1..]);
    }
  }

  lemma PlainQuoted(s: string)
    requires IsPlain(s)
    ensures Contains(BuiltInText(TextBody(s)), s)
  {
    PlainEscaped(s);
    assert BuiltInText(TextBody(s)) == "\"" + s + "\"";
    assert Contains(s, s);
    ContainsRight("\"", s, s);
    ContainsLeft("\"" + s, "\"", s);
  }

  lemma NeuronMatch(builtIns: BuiltIns, table: OperatorTable, f: Failure, body: Body)
    requires "cloudflare-ai" in builtIns && builtIns["cloudflare-ai"] == [NeuronRule]
    requires IsProvider(f.provider, "cloudflare-ai")
    requires "cloudflare-ai" in table ==> NoHit(table["cloudflare-ai"], f.status, OperatorText(body))
    ensures GetMatch(builtIns, table, f, body) == NeuronRule(f.status, f.headers, body)
  {
    var rules := builtIns["cloudflare-ai"];
    assert rules[1..] == [];
    assert FirstBuiltIn(rules, f, body) == NeuronRule(f.status, f.headers, body);
    if "cloudflare-ai" in table {
      FirstOperatorSpec(table["cloudflare-ai"], f.status, OperatorText(body));
    }
  }

  /** Rules that do not read the body. */
  ghost predicate BodyBlind(rules: seq<BuiltInRule>, f: Failure) {
    forall i, b, b' :: 0 <= i < |rules| ==> rules[i](f.status, f.headers, b) == rules[i](f.status, f.headers, b')
  }

  lemma {:induction false} BodyBlindMatch(rules: seq<BuiltInRule>, f: Failure, b: Body, b': Body)
    requires BodyBlind(rules, f)
    ensures FirstBuiltIn(rules, f, b) == FirstBuiltIn(rules, f, b')
  {
    if rules != [] {
      BodyBlindMatch(rules[1..], f, b, b');
    }
  }

  /** The shipped rules of openrouter and minimax do not read the body, so for those two
      declaring operator rules that do not hit never changes the answer. */
  lemma BodyBlindProvidersAreConservative(
    builtIns: BuiltIns, table: OperatorTable, f: Failure, structured: Body, errorText: string)
    requires HasOperatorRule(table, f.provider) && Lower(f.provider.value) in builtIns
    requires builtIns[Lower(f.provider.value)] in {[CreditRule], [ModelQuotaRule]}
    requires NoHit(table[Lower(f.provider.value)], f.status,
                   OperatorText(if errorText == "" then structured else TextBody(errorText)))
    ensures Classify(builtIns, FULL_TEXT_PROVIDERS, table, f, structured, errorText)
         == Classify(builtIns, FULL_TEXT_PROVIDERS, map[], f, structured, errorText)
  {
    BodyBlindMatch(builtIns[Lower(f.provider.value)], f, structured, TextBody(errorText));
    DeclaringRulesIsConservativeIff(builtIns, FULL_TEXT_PROVIDERS, table, f, structured, errorText);
  }

  /** For cloudflare-ai it changes nothing exactly when the status is another one, or the text
      and the structured error agree on the phrase that the shipped rule looks for. */
  lemma CloudflareConservativeIff(
    builtIns: BuiltIns, table: OperatorTable, f: Failure, structured: Body, errorText: string)
    requires "cloudflare-ai" in builtIns && builtIns["cloudflare-ai"] == [NeuronRule]
    requires IsProvider(f.provider, "cloudflare-ai") && HasOperatorRule(table, f.provider) && errorText != ""
    requires NoHit(table["cloudflare-ai"], f.status, OperatorText(TextBody(errorText)))
    ensures Classify(builtIns, FULL_TEXT_PROVIDERS, table, f, structured, errorText)
         == Classify(builtIns, FULL_TEXT_PROVIDERS, map[], f, structured, errorText)
       <==> f.status != 429
            || (Contains(BuiltInText(structured), DAILY_ALLOCATION)
                <==> Contains(BuiltInText(TextBody(errorText)), DAILY_ALLOCATION))
  {
    NeuronMatch(builtIns, map[], f, structured);
    NeuronMatch(builtIns, table, f, TextBody(errorText));
  }

  /** A provider whose rules match the full text anyway is never affected. */
  lemma FullTextProvidersAreConservative(
    builtIns: BuiltIns, fullText: set<string>, table: OperatorTable, f: Failure, structured: Body, errorText: string)
    requires HasOperatorRule(table, f.provider) && Lower(f.provider.value) in fullText
    requires NoHit(table[Lower(f.provider.value)], f.status,
                   OperatorText(if errorText == "" then structured else TextBody(errorText)))
    ensures Classify(builtIns, fullText, table, f, structured, errorText)
         == Classify(builtIns, fullText, map[], f, structured, errorText)
  {
    DeclaringRulesIsConservativeIff(builtIns, fullText, table, f, structured, errorText);
  }

  /** What the three opencode rules answer together. */
  function OpencodeAnswer(f: Failure, body: Body): Option<RuleMatch> {
    if f.status != 429 then None
    else if MonthlyReset(body).Some? then Some(RuleMatch("quota_exhausted", ConnectionScope, MonthlyReset(body)))
    else if HeaderAtZero(f.headers) || NamesQuotaCode(body)
    then Some(RuleMatch("quota_exhausted", ConnectionScope, None))
    else None
  }

  ghost predicate IsOpencode(rules: seq<BuiltInRule>) {
    rules == [MonthlyRule, RemainingRule, QuotaCodeRule]
  }

  lemma OpencodeMatch(rules: seq<BuiltInRule>, f: Failure, body: Body)
    requires IsOpencode(rules)
    ensures FirstBuiltIn(rules, f, body) == OpencodeAnswer(f, body)
  {
    var tail := rules[1..];
    assert tail == [RemainingRule, QuotaCodeRule] && tail[1..] == [QuotaCodeRule] && tail[1..][1..] == [];
    assert FirstBuiltIn(tail[1..], f, body) == QuotaCodeRule(f.status, f.headers, body);
    assert FirstBuiltIn(tail, f, body) ==
           if RemainingRule(f.status, f.headers, body).Some? then RemainingRule(f.status, f.headers, body)
           else QuotaCodeRule(f.status, f.headers, body);
    assert rules[0] == MonthlyRule;
  }

  /**
   * For opencode it changes nothing exactly when the status is another one, or text and
   * structured error give the same monthly countdown (none included) and, without one, a header
   * settles the matter or both or neither name a quota code.
   */
  lemma OpencodeConservativeIff(
    builtIns: BuiltIns, table: OperatorTable, f: Failure, structured: Body, errorText: string)
    requires HasOperatorRule(table, f.provider) && errorText != ""
    requires Lower(f.provider.value) in builtIns && IsOpencode(builtIns[Lower(f.provider.value)])
    requires Lower(f.provider.value) !in FULL_TEXT_PROVIDERS
    requires NoHit(table[Lower(f.provider.value)], f.status, OperatorText(TextBody(errorText)))
    ensures Classify(builtIns, FULL_TEXT_PROVIDERS, table, f, structured, errorText)
         == Classify(builtIns, FULL_TEXT_PROVIDERS, map[], f, structured, errorText)
       <==> || f.status != 429
            || (&& MonthlyReset(structured) == MonthlyReset(TextBody(errorText))
                && (|| MonthlyReset(structured).Some?
                    || HeaderAtZero(f.headers)
                    || (NamesQuotaCode(structured) <==> NamesQuotaCode(TextBody(errorText)))))
  {
    var rules := builtIns[Lower(f.provider.value)];
    DeclaringRulesIsConservativeIff(builtIns, FULL_TEXT_PROVIDERS, table, f, structured, errorText);
    OpencodeMatch(rules, f, structured);
    OpencodeMatch(rules, f, TextBody(errorText));
    OpencodeAnswersAgreeIff(f, structured, TextBody(errorText));
  }

  lemma OpencodeAnswersAgreeIff(f: Failure, a: Body, b: Body)
    ensures OpencodeAnswer(f, a) == OpencodeAnswer(f, b)
       <==> || f.status != 429
            || (&& MonthlyReset(a) == MonthlyReset(b)
                && (|| MonthlyReset(a).Some?
                    || HeaderAtZero(f.headers)
                    || (NamesQuotaCode(a) <==> NamesQuotaCode(b))))
  {
  }

  lemma NoMarkerInEmpty(text: string)
    requires |text| > 2
    ensures !Contains(BuiltInText(NoBody), text)
  {
    assert BuiltInText(NoBody) == "\"\"";
    TooLong("\"\"", text);
  }

  lemma {:induction false} TooLong(s: string, part: string)
    requires |s| < |part|
    ensures !Contains(s, part)
  {
    if s != "" {
      TooLong(s[1..], part);
    }
  }

  /** What the shipped cloudflare-ai rule answers without and with an operator rule for another status. */
  lemma RuleForOtherStatus(builtIns: BuiltIns, f: Failure, rule: OperatorRule, structured: Body, errorText: string)
    requires "cloudflare-ai" in builtIns && builtIns["cloudflare-ai"] == [NeuronRule]
    requires IsProvider(f.provider, "cloudflare-ai") && rule.status != f.status && errorText != ""
    ensures var key := Lower(f.provider.value);
            && Classify(builtIns, FULL_TEXT_PROVIDERS, map[], f, structured, errorText)
            == NeuronRule(f.status, f.headers, structured)
            && Classify(builtIns, FULL_TEXT_PROVIDERS, map[key := [rule]], f, structured, errorText)
            == NeuronRule(f.status, f.headers, TextBody(errorText))
  {
    NeuronMatch(builtIns, map[], f, structured);
    NeuronMatch(builtIns, map[Lower(f.provider.value) := [rule]], f, TextBody(errorText));
  }

  lemma NeuronAnswers(headers: Headers)
    ensures NeuronRule(429, headers, NoBody) == None
    ensures NeuronRule(429, headers, TextBody(DAILY_ALLOCATION))
         == Some(RuleMatch("quota_exhausted", ConnectionScope, None))
  {
    NoMarkerInEmpty(DAILY_ALLOCATION);
    PlainQuoted(DAILY_ALLOCATION);
  }

  /**
   * A shipped provider where declaring a rule for another status changes the answer: the
   * structured error lacks the text that the built-in rule looks for.
   */
  lemma UnrelatedRuleChangesBuiltInAnswer(builtIns: BuiltIns, f: Failure, rule: OperatorRule)
    requires "cloudflare-ai" in builtIns && builtIns["cloudflare-ai"] == [NeuronRule]
    requires IsProvider(f.provider, "cloudflare-ai") && f.status == 429 && rule.status != 429
    ensures var key := Lower(f.provider.value);
            && Classify(builtIns, FULL_TEXT_PROVIDERS, map[], f, NoBody, DAILY_ALLOCATION) == None
            && Classify(builtIns, FULL_TEXT_PROVIDERS, map[key := [rule]], f, NoBody, DAILY_ALLOCATION)
            == Some(RuleMatch("quota_exhausted", ConnectionScope, None))
  {
    NeuronAnswers(f.headers);
    RuleForOtherStatus(builtIns, f, rule, NoBody, DAILY_ALLOCATION);
  }
}
