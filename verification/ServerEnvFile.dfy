/** The `KEY=VALUE` file that keeps generated secrets: its parser and its printer. */
module ServerEnvFile {
  import opened Options
  import opened Text

  type Env = map<string, string>

  const HEADER := "# Auto-generated by OmniRoute bootstrap"

  // ----- The parser.

  /** Splits at a line feed with an optional carriage return before it. */
  function Lines(text: string): (lines: seq<string>)
    ensures |lines| >= 1
  {
    if text == "" then [""]
    else if text[0] == '\n' then [""] + Lines(text[1..])
    else if text[0] == '\r' && |text| > 1 && text[1] == '\n' then [""] + Lines(text[2..])
    else
      var rest := Lines(text[1..]);
      [[text[0]] + rest[0]] + rest[1..]
  }

  /** What one line does to the record. Assigning a string to `__proto__` leaves a record as it is. */
  function ParseLine(env: Env, line: string): Env {
    var t := Trim(line);
    if t == "" || t[0] == '#' then env
    else
      var eq := IndexOf(t, '=');
      if eq == |t| || eq < 1 then env
      else
        var key := Trim(t[..eq]);
        if key == "__proto__" then env else env[key := Trim(t[eq + 1..])]
  }

  function ParseLines(lines: seq<string>): Env {
    if lines == [] then map[]
    else ParseLine(ParseLines(lines[..|lines| - 1]), lines[|lines| - 1])
  }

  /** The record read from a file; a missing file reads as empty. */
  function Parse(file: Option<string>): Env {
    match file
    case None => map[]
    case Some(text) => ParseLines(Lines(text))
  }

  method ParseEnvFile(file: Option<string>) returns (env: Env)
    ensures env == Parse(file)
    ensures WellFormed(env)
  {
    env := ReadPairs(file);
    ParseIsWellFormed(file);
  }

  method ReadPairs(file: Option<string>) returns (env: Env)
    ensures env == Parse(file)
  {
    env := map[];
    if file.None? {
      return;
    }
    var lines := Lines(file.value);
    var i := 0;
    while i < |lines|
      invariant 0 <= i <= |lines|
      invariant env == ParseLines(lines[..i])
    {
      assert lines[..i + 1][..i] == lines[..i];
      env := ReadPair(env, lines[i]);
      i := i + 1;
    }
    assert lines[..i] == lines;
  }

  /** The body of the loop over lines. */
  method ReadPair(before: Env, line: string) returns (env: Env)
    ensures env == ParseLine(before, line)
  {
    env := before;
    var t := Trim(line);
    if t == "" || t[0] == '#' {
      return;
    }
    var eq := IndexOf(t, '=');
    if eq == |t| || eq < 1 {
      return;
    }
    var key := Trim(t[..eq]);
    if key != "__proto__" {
      env := env[key := Trim(t[eq + 1..])];
    }
  }

  // ----- What is read, line by line.

  /** A text `name=value` with a name that starts no comment; the value may have further `=`. */
  predicate IsPair(text: string, name: string, value: string) {
    text == name + "=" + value && '=' !in name && name != "" && name[0] != '#'
  }

  /** The line, without the space around it, gives this value to this key. */
  ghost predicate Assigns(line: string, key: string, value: string) {
    key != "__proto__" && exists k, v :: IsPair(Trim(line), k, v) && key == Trim(k) && value == Trim(v)
  }

  lemma PairsAt(text: string, name: string, value: string)
    requires IsPair(text, name, value)
    ensures IndexOf(text, '=') == |name| < |text| && text[..|name|] == name && text[|name| + 1..] == value
  {
    assert text == name + ['='] + value;
    IndexOfAfter(name, '=', value);
  }

  lemma ParseLineAssigns(env: Env, line: string, key: string, value: string)
    ensures Assigns(line, key, value) ==> ParseLine(env, line) == env[key := value]
  {
    if Assigns(line, key, value) {
      var k, v :| IsPair(Trim(line), k, v) && key == Trim(k) && value == Trim(v);
      PairsAt(Trim(line), k, v);
      assert Trim(line)[0] == k[0];
    }
  }

  /** A line changes nothing, or gives the record one value. */
  lemma ParseLineSpec(env: Env, line: string)
    ensures forall key, value :: Assigns(line, key, value) ==> ParseLine(env, line) == env[key := value]
    ensures (forall key, value :: !Assigns(line, key, value)) ==> ParseLine(env, line) == env
  {
    forall key, value | Assigns(line, key, value) { ParseLineAssigns(env, line, key, value); }
    var t := Trim(line);
    var eq := IndexOf(t, '=');
    if t != "" && t[0] != '#' && 1 <= eq < |t| && Trim(t[..eq]) != "__proto__" {
      assert t == t[..eq] + "=" + t[eq + 1..];
      assert IsPair(t, t[..eq], t[eq + 1..]);
      assert Assigns(line, Trim(t[..eq]), Trim(t[eq + 1..]));
    }
  }

  ghost predicate AssignsTo(line: string, key: string) {
    exists value :: Assigns(line, key, value)
  }

  /** The last line that gives the key a value. */
  ghost predicate IsLastFor(lines: seq<string>, key: string, i: nat) {
    && i < |lines| && AssignsTo(lines[i], key)
    && forall j :: i < j < |lines| ==> !AssignsTo(lines[j], key)
  }

  lemma LastForOfInit(lines: seq<string>, key: string)
    requires lines != [] && !AssignsTo(lines[|lines| - 1], key)
    ensures forall i: nat :: IsLastFor(lines, key, i) <==> IsLastFor(lines[..|lines| - 1], key, i)
  {
    var init := lines[..|lines| - 1];
    assert forall i :: 0 <= i < |init| ==> init[i] == lines[i];
  }

  lemma LastForLast(lines: seq<string>, key: string)
    requires lines != [] && AssignsTo(lines[|lines| - 1], key)
    ensures forall i: nat :: IsLastFor(lines, key, i) <==> i == |lines| - 1
  {
  }

  lemma ParseLineKeeps(env: Env, line: string, key: string)
    requires !AssignsTo(line, key)
    ensures key in ParseLine(env, line) <==> key in env
    ensures key in env ==> ParseLine(env, line)[key] == env[key]
  {
    ParseLineSpec(env, line);
    if k, value :| Assigns(line, k, value) {
      assert k != key;
    }
  }

  lemma {:induction false} ParseLinesSpec(lines: seq<string>, key: string)
    ensures key in ParseLines(lines) ==> exists i: nat :: IsLastFor(lines, key, i)
    ensures forall i: nat, value :: IsLastFor(lines, key, i) && Assigns(lines[i], key, value) ==>
              key in ParseLines(lines) && ParseLines(lines)[key] == value
  {
    if lines != [] {
      var n := |lines| - 1;
      var init, last := lines[..n], lines[n];
      ParseLinesSpec(init, key);
      if AssignsTo(last, key) {
        LastForLast(lines, key);
        assert IsLastFor(lines, key, n);
        forall value | Assigns(last, key, value) { ParseLineAssigns(ParseLines(init), last, key, value); }
      } else {
        LastForOfInit(lines, key);
        ParseLineKeeps(ParseLines(init), last, key);
        forall i: nat, value | IsLastFor(lines, key, i) && Assigns(lines[i], key, value)
          ensures key in ParseLines(lines) && ParseLines(lines)[key] == value
        {
          assert IsLastFor(init, key, i) && init[i] == lines[i];
        }
        if key in ParseLines(lines) {
          var i: nat :| IsLastFor(init, key, i);
          assert IsLastFor(lines, key, i);
        }
      }
    }
  }

  lemma {:induction false} TrimStartOfLonger(s: string, c: char)
    requires IsSpace(c)
    ensures TrimStart(s + [c]) == if TrimStart(s) == "" then "" else TrimStart(s) + [c]
  {
    if s != "" && IsSpace(s[0]) {
      assert (s + [c])[1..] == s[1..] + [c];
      TrimStartOfLonger(s[1..], c);
    } else if s == "" {
      assert s + [c] == [c] && [c][1..] == "";
    }
  }

  lemma TrimOfLonger(s: string, c: char)
    requires IsSpace(c)
    ensures Trim(s + [c]) == Trim(s)
  {
    TrimStartOfLonger(s, c);
    assert (TrimStart(s) + [c])[..|TrimStart(s)|] == TrimStart(s);
  }

  /** Two lines that differ at most in a carriage return at the end of the second. */
  predicate SameLine(a: string, b: string) {
    a == b || b == a + "\r"
  }

  lemma SameLineTrims(a: string, b: string)
    requires SameLine(a, b)
    ensures Trim(a) == Trim(b)
  {
    TrimOfLonger(a, '\r');
  }

  lemma SplitStep(text: string)
    requires text != ""
    ensures text[0] == '\n' ==> Split(text, '\n') == [""] + Split(text[1..], '\n')
    ensures text[0] == '\r' && |text| > 1 && text[1] == '\n' ==> Split(text, '\n') == ["\r"] + Split(text[2..], '\n')
  {
    if text[0] == '\r' && |text| > 1 && text[1] == '\n' {
      assert text == "\r" + ['\n'] + text[2..];
      SplitAtSeparator("\r", '\n', text[2..]);
    }
  }

  /** The lines are those between line feeds, up to a carriage return at the end. */
  lemma {:induction false} LinesAreSplit(text: string)
    ensures |Lines(text)| == |Split(text, '\n')|
    ensures forall i :: 0 <= i < |Lines(text)| ==> SameLine(Lines(text)[i], Split(text, '\n')[i])
  {
    if text != "" {
      SplitStep(text);
      if text[0] == '\n' {
        LinesAreSplit(text[1..]);
      } else if text[0] == '\r' && |text| > 1 && text[1] == '\n' {
        LinesAreSplit(text[2..]);
        assert "" + "\r" == "\r";
      } else {
        LinesAreSplit(text[1..]);
        LongerFirstLine(text[0], Lines(text[1..]), Split(text[1..], '\n'));
      }
    }
  }

  lemma LongerFirstLine(c: char, a: seq<string>, b: seq<string>)
    requires |a| == |b| && a != [] && forall i :: 0 <= i < |a| ==> SameLine(a[i], b[i])
    ensures var x, y := [[c] + a[0]] + a[1..], [[c] + b[0]] + b[1..];
            forall i :: 0 <= i < |x| ==> SameLine(x[i], y[i])
  {
    assert [c] + (a[0] + "\r") == [c] + a[0] + "\r";
  }

  /**
   * A file in full: a key is read exactly when some line between line feeds gives it a value, and
   * the last such line counts. Comments, lines without `=` and space around names and values are
   * ignored, and nothing is read from a missing file.
   */
  lemma ParseSpec(text: string, key: string)
    ensures var lines, env := Split(text, '\n'), Parse(Some(text));
            && (key in env ==> exists i: nat :: IsLastFor(lines, key, i))
            && (forall i: nat, value :: IsLastFor(lines, key, i) && Assigns(lines[i], key, value) ==>
                  key in env && env[key] == value)
    ensures Parse(None) == map[]
  {
    LinesAreSplit(text);
    forall i | 0 <= i < |Lines(text)| { SameLineTrims(Lines(text)[i], Split(text, '\n')[i]); }
    SameTrimmedLines(Lines(text), Split(text, '\n'));
    ParseLinesSpec(Split(text, '\n'), key);
  }

  lemma {:induction false} SameTrimmedLines(a: seq<string>, b: seq<string>)
    requires |a| == |b| && forall i :: 0 <= i < |a| ==> Trim(a[i]) == Trim(b[i])
    ensures ParseLines(a) == ParseLines(b)
  {
    if a != [] {
      SameTrimmedLines(a[..|a| - 1], b[..|b| - 1]);
    }
  }

  // ----- The printer.

  type Entry = (string, string)

  function EntryLines(entries: seq<Entry>): (lines: seq<string>)
    ensures |lines| == |entries|
  {
    seq(|entries|, i requires 0 <= i < |entries| => entries[i].0 + "=" + entries[i].1)
  }

  function Print(entries: seq<Entry>): string {
    Join([HEADER, ""] + EntryLines(entries) + [""], '\n')
  }

  /** `entries` lists the record, in any order. */
  ghost predicate Enumerates(entries: seq<Entry>, env: Env) {
    && (forall i, j :: 0 <= i < j < |entries| ==> entries[i].0 != entries[j].0)
    && (forall i :: 0 <= i < |entries| ==> entries[i].0 in env && env[entries[i].0] == entries[i].1)
    && (forall k :: k in env ==> exists i :: 0 <= i < |entries| && entries[i].0 == k)
  }

  method Entries(env: Env) returns (entries: seq<Entry>)
    ensures Enumerates(entries, env)
  {
    entries := [];
    var todo := env.Keys;
    while todo != {}
      invariant todo <= env.Keys
      invariant forall i :: 0 <= i < |entries| ==>
                  entries[i].0 in env && entries[i].0 !in todo && env[entries[i].0] == entries[i].1
      invariant forall i, j :: 0 <= i < j < |entries| ==> entries[i].0 != entries[j].0
      invariant forall k :: k in env && k !in todo ==> exists i :: 0 <= i < |entries| && entries[i].0 == k
      decreases |todo|
    {
      var k :| k in todo;
      todo := todo - {k};
      ghost var before := entries;
      entries := entries + [(k, env[k])];
      forall x | x in env && x !in todo ensures exists i :: 0 <= i < |entries| && entries[i].0 == x {
        if x == k {
          assert entries[|before|].0 == x;
        } else {
          var i :| 0 <= i < |before| && before[i].0 == x;
          assert entries[i].0 == x;
        }
      }
    }
  }

  // ----- What the parser can produce.

  predicate WellFormedPair(k: string, v: string) {
    && k != "" && Trimmed(k) && k[0] != '#' && '=' !in k && '\n' !in k && k != "__proto__"
    && Trimmed(v) && '\n' !in v
  }

  predicate WellFormed(env: Env) {
    forall k :: k in env ==> WellFormedPair(k, env[k])
  }

  lemma {:induction false} LinesHaveNoLineFeed(text: string)
    ensures forall i :: 0 <= i < |Lines(text)| ==> '\n' !in Lines(text)[i]
  {
    if text != "" {
      if text[0] == '\n' {
        LinesHaveNoLineFeed(text[1..]);
      } else if text[0] == '\r' && |text| > 1 && text[1] == '\n' {
        LinesHaveNoLineFeed(text[2..]);
      } else {
        LinesHaveNoLineFeed(text[1..]);
      }
    }
  }

  lemma {:induction false} TrimKeepsFirst(s: string)
    requires s != "" && !IsSpace(s[0])
    ensures Trim(s) != "" && Trim(s)[0] == s[0]
  {
    assert TrimStart(s) == s;
    if IsSpace(s[|s| - 1]) {
      TrimKeepsFirst(s[..|s| - 1]);
    }
  }

  lemma ParseLineKeepsWellFormed(env: Env, line: string)
    requires WellFormed(env) && '\n' !in line
    ensures WellFormed(ParseLine(env, line))
  {
    TrimSpec(line);
    var t := Trim(line);
    if t != "" && t[0] != '#' {
      var eq := IndexOf(t, '=');
      if 1 <= eq < |t| {
        TrimKeepsFirst(t[..eq]);
        TrimSpec(t[..eq]);
        TrimSpec(t[eq + 1..]);
      }
    }
  }

  lemma {:induction false} ParseLinesIsWellFormed(lines: seq<string>)
    requires forall i :: 0 <= i < |lines| ==> '\n' !in lines[i]
    ensures WellFormed(ParseLines(lines))
  {
    if lines != [] {
      ParseLinesIsWellFormed(lines[..|lines| - 1]);
      ParseLineKeepsWellFormed(ParseLines(lines[..|lines| - 1]), lines[|lines| - 1]);
    }
  }

  lemma ParseIsWellFormed(file: Option<string>)
    ensures WellFormed(Parse(file))
  {
    if file.Some? {
      LinesHaveNoLineFeed(file.value);
      ParseLinesIsWellFormed(Lines(file.value));
    }
  }

  // ----- The round trip.

  /** A piece that survives being written as one line. */
  predicate OneLine(s: string) {
    '\n' !in s && (s == "" || s[|s| - 1] != '\r')
  }

  lemma {:induction false} LinesOfPlain(s: string)
    requires '\n' !in s
    ensures Lines(s) == [s]
  {
    if s != "" {
      LinesOfPlain(s[1..]);
      assert [s[0]] + s[1..] == s;
    }
  }

  lemma {:induction false} LinesAtLineFeed(head: string, rest: string)
    requires OneLine(head)
    ensures Lines(head + ['\n'] + rest) == [head] + Lines(rest)
  {
    var s := head + ['\n'] + rest;
    if head == "" {
      assert s[1..] == rest;
    } else {
      assert s[1..] == head[1..] + ['\n'] + rest;
      assert |head| > 1 ==> s[1] == head[1];
      LinesAtLineFeed(head[1..], rest);
      assert [head[0]] + head[1..] == head;
    }
  }

  lemma {:induction false} LinesOfJoin(parts: seq<string>)
    requires parts != []
    requires forall i :: 0 <= i < |parts| ==> OneLine(parts[i])
    ensures Lines(Join(parts, '\n')) == parts
  {
    if |parts| == 1 {
      LinesOfPlain(parts[0]);
    } else {
      LinesOfJoin(parts[1..]);
      LinesAtLineFeed(parts[0], Join(parts[1..], '\n'));
    }
  }

  /** Parsing a printed pair adds exactly that pair. */
  lemma ParsePrintedPair(env: Env, k: string, v: string)
    requires WellFormedPair(k, v)
    ensures ParseLine(env, k + "=" + v) == env[k := v]
    ensures OneLine(k + "=" + v)
  {
    var line := k + "=" + v;
    assert line[|line| - 1] == if v == "" then '=' else v[|v| - 1];
    assert line[0] == k[0];
    TrimFixesTrimmed(line);
    assert line == k + ['='] + v;
    IndexOfAfter(k, '=', v);
    assert line[..|k|] == k && line[|k| + 1..] == v;
    TrimFixesTrimmed(k);
    TrimFixesTrimmed(v);
  }

  lemma ParseLinesSnoc(lines: seq<string>, line: string)
    ensures ParseLines(lines + [line]) == ParseLine(ParseLines(lines), line)
  {
    assert (lines + [line])[..|lines|] == lines;
  }

  lemma CommentAddsNothing(env: Env, line: string)
    requires Trimmed(line) && (line == "" || line[0] == '#')
    ensures ParseLine(env, line) == env
  {
    TrimFixesTrimmed(line);
  }

  /** The record built by adding pairs in order. */
  function AddAll(entries: seq<Entry>): Env {
    if entries == [] then map[]
    else
      var last := entries[|entries| - 1];
      AddAll(entries[..|entries| - 1])[last.0 := last.1]
  }

  lemma {:induction false} AddAllSpec(entries: seq<Entry>)
    requires forall i, j :: 0 <= i < j < |entries| ==> entries[i].0 != entries[j].0
    ensures forall i :: 0 <= i < |entries| ==>
              entries[i].0 in AddAll(entries) && AddAll(entries)[entries[i].0] == entries[i].1
    ensures forall k :: k in AddAll(entries) ==> exists i :: 0 <= i < |entries| && entries[i].0 == k
  {
    if entries != [] {
      var init, last := entries[..|entries| - 1], entries[|entries| - 1];
      AddAllSpec(init);
      var all := AddAll(entries);
      forall k | k in all ensures exists i :: 0 <= i < |entries| && entries[i].0 == k {
        if k == last.0 {
          assert entries[|entries| - 1].0 == k;
        } else {
          assert k in AddAll(init);
          var i :| 0 <= i < |init| && init[i].0 == k;
          assert entries[i].0 == k;
        }
      }
    }
  }

  lemma ParsePrintedStep(before: seq<string>, k: string, v: string)
    requires WellFormedPair(k, v)
    ensures ParseLines(before + [k + "=" + v]) == ParseLines(before)[k := v]
  {
    ParseLinesSnoc(before, k + "=" + v);
    ParsePrintedPair(ParseLines(before), k, v);
  }

  lemma EntryLinesSnoc(entries: seq<Entry>)
    requires entries != []
    ensures var last := entries[|entries| - 1];
            EntryLines(entries) == EntryLines(entries[..|entries| - 1]) + [last.0 + "=" + last.1]
  {
  }

  predicate AllWellFormed(entries: seq<Entry>) {
    forall i :: 0 <= i < |entries| ==> WellFormedPair(entries[i].0, entries[i].1)
  }

  lemma {:induction false} ParsePrintedEntries(entries: seq<Entry>, head: seq<string>)
    requires AllWellFormed(entries)
    requires ParseLines(head) == map[]
    ensures ParseLines(head + EntryLines(entries)) == AddAll(entries)
  {
    if entries == [] {
      assert head + EntryLines(entries) == head;
    } else {
      var init, last := entries[..|entries| - 1], entries[|entries| - 1];
      ParsePrintedEntries(init, head);
      EntryLinesSnoc(entries);
      var before, line := head + EntryLines(init), last.0 + "=" + last.1;
      assert head + EntryLines(entries) == before + [line];
      ParsePrintedStep(before, last.0, last.1);
    }
  }

  lemma PrintedLines(entries: seq<Entry>, env: Env)
    requires WellFormed(env) && Enumerates(entries, env)
    ensures Lines(Print(entries)) == [HEADER, ""] + EntryLines(entries) + [""]
  {
    var parts := [HEADER, ""] + EntryLines(entries) + [""];
    forall i | 0 <= i < |parts| ensures OneLine(parts[i]) {
      if 2 <= i < |parts| - 1 {
        var e := entries[i - 2];
        assert WellFormedPair(e.0, e.1);
        ParsePrintedPair(map[], e.0, e.1);
        assert parts[i] == e.0 + "=" + e.1;
      }
    }
    LinesOfJoin(parts);
  }

  /** The printed file has one line `name=value` for each pair, after a comment and an empty line and
      before another empty one. */
  lemma PrintedPairs(entries: seq<Entry>, env: Env, i: nat)
    requires WellFormed(env) && Enumerates(entries, env) && i < |entries|
    ensures var lines := Lines(Print(entries));
            && |lines| == |entries| + 3 && lines[0] == HEADER && lines[1] == lines[|entries| + 2] == ""
            && lines[i + 2] == entries[i].0 + "=" + entries[i].1
  {
    PrintedLines(entries, env);
  }

  /** The printed lines, as the parser's loop goes through them. */
  lemma ParseOfLines(entries: seq<Entry>)
    requires AllWellFormed(entries)
    ensures ParseLines([HEADER, ""] + EntryLines(entries) + [""]) == AddAll(entries)
  {
    var body := [HEADER, ""] + EntryLines(entries);
    HeaderAddsNothing();
    ParsePrintedEntries(entries, [HEADER, ""]);
    ParseLinesSnoc(body, "");
    CommentAddsNothing(ParseLines(body), "");
  }

  lemma EntriesAddUp(entries: seq<Entry>, env: Env)
    requires Enumerates(entries, env)
    ensures AddAll(entries) == env
  {
    AddAllSpec(entries);
  }

  /** Parsing the printed file gives back the record, whatever order the entries were printed in. */
  lemma ParseOfPrint(entries: seq<Entry>, env: Env)
    requires WellFormed(env) && Enumerates(entries, env)
    ensures Parse(Some(Print(entries))) == env
  {
    PrintedLines(entries, env);
    ParseOfLines(entries);
    EntriesAddUp(entries, env);
  }

  lemma HeaderAddsNothing()
    ensures ParseLines([HEADER, ""]) == map[]
  {
    HeaderIsComment();
    CommentsAddNothing(HEADER, "");
  }

  lemma HeaderIsComment()
    ensures Trimmed(HEADER) && HEADER[0] == '#'
  {
  }

  lemma CommentsAddNothing(first: string, second: string)
    requires Trimmed(first) && (first == "" || first[0] == '#')
    requires Trimmed(second) && (second == "" || second[0] == '#')
    ensures ParseLines([first, second]) == map[]
  {
    assert [first, second] == [first] + [second] && [first] == [] + [first];
    ParseLinesSnoc([first], second);
    ParseLinesSnoc([], first);
    CommentAddsNothing(map[], first);
    CommentAddsNothing(map[], second);
  }
}
