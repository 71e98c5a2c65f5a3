/** Optional values: `null`, `undefined` and missing map entries. */
module Options {
  datatype Option<+T> = None | Some(value: T) {
    function GetOr(default: T): T {
      match this
      case Some(v) => v
      case None => default
    }
  }
}

/** The string operations that the sources take from JavaScript. Letter case is ASCII case. */
module Text {

  /** The characters removed by `String.prototype.trim`. */
  predicate IsSpace(c: char) {
    || '\U{0009}' <= c <= '\U{000D}'
    || c == ' '
    || c == '\U{00A0}'
    || c == '\U{1680}'
    || '\U{2000}' <= c <= '\U{200A}'
    || c in {'\U{2028}', '\U{2029}', '\U{202F}', '\U{205F}', '\U{3000}', '\U{FEFF}'}
  }

  function TrimStart(s: string): string {
    if s != "" && IsSpace(s[0]) then TrimStart(s[1..]) else s
  }

  function TrimEnd(s: string): string {
    if s != "" && IsSpace(s[|s| - 1]) then TrimEnd(s[..|s| - 1]) else s
  }

  function Trim(s: string): string {
    TrimEnd(TrimStart(s))
  }

  predicate Trimmed(s: string) {
    s == "" || (!IsSpace(s[0]) && !IsSpace(s[|s| - 1]))
  }

  lemma {:induction false} TrimEndKeepsStart(s: string)
    ensures TrimEnd(s) <= s
    ensures TrimEnd(s) == "" || !IsSpace(TrimEnd(s)[|TrimEnd(s)| - 1])
  {
    if s != "" && IsSpace(s[|s| - 1]) {
      TrimEndKeepsStart(s[..|s| - 1]);
    }
  }

  lemma {:induction false} TrimStartIsSuffix(s: string)
    ensures |TrimStart(s)| <= |s| && TrimStart(s) == s[|s| - |TrimStart(s)|..]
    ensures TrimStart(s) == "" || !IsSpace(TrimStart(s)[0])
  {
    if s != "" && IsSpace(s[0]) {
      TrimStartIsSuffix(s[1..]);
    }
  }

  predicate IsBlank(s: string) {
    forall i :: 0 <= i < |s| ==> IsSpace(s[i])
  }

  lemma {:induction false} TrimStartParts(s: string) returns (before: string)
    ensures IsBlank(before) && s == before + TrimStart(s)
  {
    before := "";
    if s != "" && IsSpace(s[0]) {
      before := TrimStartParts(s[1..]);
      before := [s[0]] + before;
    }
  }

  lemma {:induction false} TrimEndParts(s: string) returns (after: string)
    ensures IsBlank(after) && s == TrimEnd(s) + after
  {
    after := "";
    if s != "" && IsSpace(s[|s| - 1]) {
      after := TrimEndParts(s[..|s| - 1]);
      after := after + [s[|s| - 1]];
    }
  }

  /** Trimming yields a trimmed slice of its input, with nothing but space around it. */
  lemma TrimSpec(s: string)
    ensures Trimmed(Trim(s))
    ensures forall c :: c in Trim(s) ==> c in s
    ensures exists a, b :: IsBlank(a) && IsBlank(b) && s == a + Trim(s) + b
  {
    TrimStartIsSuffix(s);
    TrimEndKeepsStart(TrimStart(s));
    var a := TrimStartParts(s);
    var b := TrimEndParts(TrimStart(s));
    assert s == a + Trim(s) + b;
  }

  lemma TrimFixesTrimmed(s: string)
    requires Trimmed(s)
    ensures Trim(s) == s
  {
  }

  function LowerChar(c: char): char {
    if 'A' <= c <= 'Z' then c - 'A' + 'a' else c
  }

  function Lower(s: string): string {
    seq(|s|, i requires 0 <= i < |s| => LowerChar(s[i]))
  }

  predicate EndsWith(s: string, suffix: string) {
    |suffix| <= |s| && s[|s| - |suffix|..] == suffix
  }

  /** Letter case is ASCII case: a capital moves by 32 code points, everything else stays. */
  lemma LowerSpec(s: string, i: nat)
    requires i < |s|
    ensures |Lower(s)| == |s|
    ensures Lower(s)[i] as int == s[i] as int + (if 65 <= s[i] as int <= 90 then 32 else 0)
  {
  }

  lemma EndsWithIff(s: string, suffix: string)
    ensures EndsWith(s, suffix) <==> exists before :: s == before + suffix
  {
    if EndsWith(s, suffix) {
      assert s == s[..|s| - |suffix|] + suffix;
    }
    if before :| s == before + suffix {
      assert s[|before|..] == suffix;
    }
  }

  /** The code points of the white space and line terminators of ECMAScript. */
  lemma IsSpaceIff(c: char)
    ensures IsSpace(c) <==>
            var n := c as int;
            || 9 <= n <= 13 || n == 32 || n == 160 || n == 5760 || 8192 <= n <= 8202 || 8232 <= n <= 8233
            || n == 8239 || n == 8287 || n == 12288 || n == 65279
  {
  }

  predicate Contains(s: string, part: string) {
    part <= s || (s != "" && Contains(s[1..], part))
  }

  /** A text contains another exactly when that stands somewhere in it. */
  lemma {:induction false} ContainsIff(s: string, part: string)
    ensures Contains(s, part) <==> exists a, b :: s == a + part + b
  {
    if part <= s {
      assert s == "" + part + s[|part|..];
    } else if s != "" {
      ContainsIff(s[1..], part);
      if Contains(s[1..], part) {
        var a, b :| s[1..] == a + part + b;
        assert s == ([s[0]] + a) + part + b;
      }
      if a, b :| s == a + part + b {
        assert a != "" by {
          assert a == "" ==> s == part + b;
        }
        assert s[1..] == a[1..] + part + b;
      }
    }
  }

  /** The first position of a character, or the length when it does not occur. */
  function IndexOf(s: string, c: char): (i: nat)
    ensures i <= |s| && c !in s[..i]
    ensures i < |s| ==> s[i] == c
    ensures i == |s| ==> c !in s
  {
    if s == "" || s[0] == c then 0 else
      var i := IndexOf(s[1..], c) + 1;
      assert s[..i] == [s[0]] + s[1..][..i - 1];
      i
  }

  lemma {:induction false} IndexOfAfter(a: string, c: char, b: string)
    requires c !in a
    ensures IndexOf(a + [c] + b, c) == |a|
  {
    if a != "" {
      assert (a + [c] + b)[1..] == a[1..] + [c] + b;
      IndexOfAfter(a[1..], c, b);
    }
  }

  function Split(s: string, sep: char): (parts: seq<string>)
    ensures |parts| >= 1
  {
    if s == "" then [""]
    else
      var rest := Split(s[1..], sep);
      if s[0] == sep then [""] + rest else [[s[0]] + rest[0]] + rest[1..]
  }

  function Join(parts: seq<string>, sep: char): string {
    if parts == [] then ""
    else if |parts| == 1 then parts[0]
    else parts[0] + [sep] + Join(parts[1..], sep)
  }

  /** No piece of a split holds the separator, and pieces hold only characters of the input. */
  lemma {:induction false} SplitPieces(s: string, sep: char)
    ensures forall p, c :: p in Split(s, sep) && c in p ==> c != sep && c in s
  {
    if s != "" {
      SplitPieces(s[1..], sep);
    }
  }

  lemma {:induction false} SplitOfPlain(s: string, sep: char)
    requires sep !in s
    ensures Split(s, sep) == [s]
  {
    if s != "" {
      SplitOfPlain(s[1..], sep);
      assert [s[0]] + s[1..] == s;
    }
  }

  lemma {:induction false} SplitAtSeparator(head: string, sep: char, rest: string)
    requires sep !in head
    ensures Split(head + [sep] + rest, sep) == [head] + Split(rest, sep)
  {
    var s := head + [sep] + rest;
    if head == "" {
      assert s[1..] == rest;
    } else {
      assert s[1..] == head[1..] + [sep] + rest;
      SplitAtSeparator(head[1..], sep, rest);
      assert [head[0]] + head[1..] == head;
    }
  }

  /** A split takes off what stands before the first separator. */
  lemma SplitAtFirst(s: string, sep: char)
    ensures var i := IndexOf(s, sep);
            Split(s, sep) == if i < |s| then [s[..i]] + Split(s[i + 1..], sep) else [s]
  {
    var i := IndexOf(s, sep);
    if i < |s| {
      assert s == s[..i] + [sep] + s[i + 1..];
      SplitAtSeparator(s[..i], sep, s[i + 1..]);
    } else {
      SplitOfPlain(s, sep);
    }
  }

  /** From `a` to `b` the text has a piece: no separator, and one or an end of the text on both sides. */
  predicate IsPieceAt(s: string, sep: char, a: nat, b: nat) {
    && a <= b <= |s| && sep !in s[a..b]
    && (a == 0 || s[a - 1] == sep)
    && (b == |s| || s[b] == sep)
  }

  ghost predicate HasPiece(s: string, sep: char, piece: string) {
    exists a: nat, b: nat :: IsPieceAt(s, sep, a, b) && piece == s[a..b]
  }

  lemma {:induction false} IndexOfAtMost(s: string, c: char, k: nat)
    requires k < |s| && s[k] == c
    ensures IndexOf(s, c) <= k
  {
    if k > 0 && s[0] != c {
      IndexOfAtMost(s[1..], c, k - 1);
    }
  }

  /** Behind a separator the pieces are those of the rest. */
  lemma PieceOfRest(s: string, sep: char, n: nat, a: nat, b: nat)
    requires 0 < n <= |s| && s[n - 1] == sep
    ensures IsPieceAt(s[n..], sep, a, b) <==> IsPieceAt(s, sep, a + n, b + n)
    ensures IsPieceAt(s[n..], sep, a, b) ==> s[n..][a..b] == s[a + n..b + n]
  {
    var rest := s[n..];
    if a <= b <= |rest| {
      assert rest[a..b] == s[a + n..b + n];
    }
  }

  /** A piece is the one before the first separator, or behind it. */
  lemma FirstPieceOrLater(s: string, sep: char, a: nat, b: nat)
    requires IsPieceAt(s, sep, a, b)
    ensures if a == 0 then b == IndexOf(s, sep) else IndexOf(s, sep) < a
  {
    if a > 0 {
      IndexOfAtMost(s, sep, a - 1);
    } else if b < |s| {
      assert s == s[a..b] + [sep] + s[b + 1..];
      IndexOfAfter(s[a..b], sep, s[b + 1..]);
    } else {
      assert s == s[a..b];
    }
  }

  lemma PieceOfWhole(s: string, sep: char, a: nat, b: nat)
    requires IndexOf(s, sep) < |s| && IsPieceAt(s, sep, a, b)
    ensures a == 0 ==> s[a..b] == s[..IndexOf(s, sep)]
    ensures a > 0 ==> HasPiece(s[IndexOf(s, sep) + 1..], sep, s[a..b])
  {
    var n := IndexOf(s, sep) + 1;
    FirstPieceOrLater(s, sep, a, b);
    if a > 0 {
      PieceOfRest(s, sep, n, a - n, b - n);
      assert s[a..b] == s[n..][a - n..b - n];
    }
  }

  lemma WholeHasPiece(s: string, sep: char, piece: string)
    requires IndexOf(s, sep) < |s| && HasPiece(s[IndexOf(s, sep) + 1..], sep, piece)
    ensures HasPiece(s, sep, piece)
  {
    var n := IndexOf(s, sep) + 1;
    var rest := s[n..];
    var a: nat, b: nat :| IsPieceAt(rest, sep, a, b) && piece == rest[a..b];
    PieceOfRest(s, sep, n, a, b);
    assert IsPieceAt(s, sep, a + n, b + n);
  }

  lemma RestHasPiece(s: string, sep: char, piece: string)
    requires IndexOf(s, sep) < |s|
    ensures HasPiece(s, sep, piece) <==>
            piece == s[..IndexOf(s, sep)] || HasPiece(s[IndexOf(s, sep) + 1..], sep, piece)
  {
    if HasPiece(s, sep, piece) {
      var a: nat, b: nat :| IsPieceAt(s, sep, a, b) && piece == s[a..b];
      PieceOfWhole(s, sep, a, b);
    }
    if HasPiece(s[IndexOf(s, sep) + 1..], sep, piece) {
      WholeHasPiece(s, sep, piece);
    }
    assert IsPieceAt(s, sep, 0, IndexOf(s, sep));
    assert s[0..IndexOf(s, sep)] == s[..IndexOf(s, sep)];
  }

  lemma OnePiece(s: string, sep: char, piece: string)
    requires sep !in s
    ensures HasPiece(s, sep, piece) <==> piece == s
  {
    assert s[0..|s|] == s;
    assert IsPieceAt(s, sep, 0, |s|);
    if HasPiece(s, sep, piece) {
      var a: nat, b: nat :| IsPieceAt(s, sep, a, b) && piece == s[a..b];
      FirstPieceOrLater(s, sep, a, b);
    }
  }

  /** The pieces of a split are those of the text. */
  lemma {:induction false} SplitIff(s: string, sep: char, piece: string)
    ensures piece in Split(s, sep) <==> HasPiece(s, sep, piece)
    decreases |s|
  {
    var i := IndexOf(s, sep);
    SplitAtFirst(s, sep);
    if i < |s| {
      SplitIff(s[i + 1..], sep, piece);
      RestHasPiece(s, sep, piece);
    } else {
      OnePiece(s, sep, piece);
    }
  }

  /** Splitting undoes joining when no part holds the separator. */
  lemma {:induction false} SplitJoin(parts: seq<string>, sep: char)
    requires parts != []
    requires forall p :: p in parts ==> sep !in p
    ensures Split(Join(parts, sep), sep) == parts
  {
    if |parts| == 1 {
      SplitOfPlain(parts[0], sep);
    } else {
      SplitAtSeparator(parts[0], sep, Join(parts[1..], sep));
      SplitJoin(parts[1..], sep);
    }
  }
}

/** Facts about sequences that several components need. */
module Sequences {

  ghost predicate Distinct<T>(s: seq<T>) {
    forall i, j :: 0 <= i < j < |s| ==> s[i] != s[j]
  }

  /** `a` can be obtained from `b` by dropping elements. */
  predicate Subsequence<T(==)>(a: seq<T>, b: seq<T>) {
    if a == [] then true
    else if b == [] then false
    else if a[0] == b[0] then Subsequence(a[1..], b[1..])
    else Subsequence(a, b[1..])
  }

  lemma {:induction false} SubsequenceSkip<T>(a: seq<T>, b: seq<T>)
    requires b != [] && Subsequence(a, b[1..])
    ensures Subsequence(a, b)
    decreases |b|, 0
  {
    if a != [] && a[0] == b[0] {
      SubsequenceTail(a, b[1..]);
    }
  }

  lemma {:induction false} SubsequenceTail<T>(a: seq<T>, b: seq<T>)
    requires a != [] && Subsequence(a, b)
    ensures Subsequence(a[1..], b)
    decreases |b|, 1
  {
    if a[0] == b[0] {
      SubsequenceSkip(a[1..], b);
    } else {
      SubsequenceTail(a, b[1..]);
      SubsequenceSkip(a[1..], b);
    }
  }

  /** The elements of `u` stand in the order in which `s` has them first. */
  ghost predicate InFirstSeenOrder<T>(u: seq<T>, s: seq<T>) {
    forall i, j :: 0 <= i < j < |u| ==> SeenBefore(s, u[i], u[j])
  }

  ghost predicate SeenBefore<T>(s: seq<T>, x: T, y: T) {
    exists k :: 0 <= k < |s| && s[k] == x && y !in s[..k + 1]
  }

  lemma SeenBeforeBehind<T>(s: seq<T>, x: T, y: T)
    requires s != [] && SeenBefore(s[1..], x, y) && y != s[0]
    ensures SeenBefore(s, x, y)
  {
    var k :| 0 <= k < |s[1..]| && s[1..][k] == x && y !in s[1..][..k + 1];
    assert s[..k + 2] == [s[0]] + s[1..][..k + 1];
    assert s[k + 1] == x;
  }

  /** An order found behind the first element holds for the whole. */
  lemma FirstSeenBehind<T>(u: seq<T>, s: seq<T>)
    requires s != [] && InFirstSeenOrder(u, s[1..]) && s[0] !in u
    ensures InFirstSeenOrder(u, s)
  {
    forall i, j | 0 <= i < j < |u| ensures SeenBefore(s, u[i], u[j]) {
      SeenBeforeBehind(s, u[i], u[j]);
    }
  }

  lemma FirstSeenWithHead<T>(u: seq<T>, s: seq<T>)
    requires s != [] && InFirstSeenOrder(u, s[1..]) && s[0] !in u
    ensures InFirstSeenOrder([s[0]] + u, s)
  {
    FirstSeenBehind(u, s);
    var all := [s[0]] + u;
    forall i, j | 0 <= i < j < |all| ensures SeenBefore(s, all[i], all[j]) {
      if i == 0 {
        assert s[0] == all[0] && all[j] !in s[..1];
      } else {
        assert SeenBefore(s, u[i - 1], u[j - 1]);
      }
    }
  }
}

/** JavaScript records: fields with their keys in enumeration order. */
module Records {
  import opened Options

  datatype Field<+V> = Field(key: string, value: V)

  /** The value under a key. */
  function Get<V>(fields: seq<Field<V>>, key: string): Option<V> {
    if fields == [] then None
    else if fields[0].key == key then Some(fields[0].value)
    else Get(fields[1..], key)
  }

  /** Assignment to a key: in place when present, at the end otherwise. */
  function Set<V>(fields: seq<Field<V>>, key: string, value: V): seq<Field<V>> {
    if fields == [] then [Field(key, value)]
    else if fields[0].key == key then [Field(key, value)] + fields[1..]
    else [fields[0]] + Set(fields[1..], key, value)
  }

  lemma {:induction false} GetAfterSet<V>(fields: seq<Field<V>>, key: string, value: V, other: string)
    ensures Get(Set(fields, key, value), other) == if other == key then Some(value) else Get(fields, other)
  {
    if fields != [] && fields[0].key != key {
      GetAfterSet(fields[1..], key, value, other);
    }
  }

  lemma {:induction false} SetSame<V>(fields: seq<Field<V>>, key: string, value: V)
    requires Get(fields, key) == Some(value)
    ensures Set(fields, key, value) == fields
  {
    assert fields == [fields[0]] + fields[1..];
    if fields[0].key != key {
      SetSame(fields[1..], key, value);
    } else {
      assert fields[0] == Field(key, value);
    }
  }

  lemma {:induction false} SetTwice<V>(fields: seq<Field<V>>, key: string, value: V)
    ensures Set(Set(fields, key, value), key, value) == Set(fields, key, value)
  {
    GetAfterSet(fields, key, value, key);
    SetSame(Set(fields, key, value), key, value);
  }

  // ----- Assignments in sequence.

  /** Assigns the pairs one after the other. */
  function SetAll<V>(fields: seq<Field<V>>, pairs: seq<Field<V>>): seq<Field<V>> {
    if pairs == [] then fields
    else
      var last := pairs[|pairs| - 1];
      Set(SetAll(fields, pairs[..|pairs| - 1]), last.key, last.value)
  }

  ghost predicate DistinctKeys<V>(pairs: seq<Field<V>>) {
    forall i, j :: 0 <= i < j < |pairs| ==> pairs[i].key != pairs[j].key
  }

  predicate HasKey<V>(pairs: seq<Field<V>>, key: string) {
    exists i :: 0 <= i < |pairs| && pairs[i].key == key
  }

  lemma SetAllSnoc<V>(fields: seq<Field<V>>, pairs: seq<Field<V>>, p: Field<V>)
    ensures SetAll(fields, pairs + [p]) == Set(SetAll(fields, pairs), p.key, p.value)
  {
    assert (pairs + [p])[..|pairs|] == pairs;
  }

  /** A key that is not assigned keeps its value. */
  lemma {:induction false} SetAllKeeps<V>(fields: seq<Field<V>>, pairs: seq<Field<V>>, key: string)
    requires !HasKey(pairs, key)
    ensures Get(SetAll(fields, pairs), key) == Get(fields, key)
  {
    if pairs != [] {
      var init, last := pairs[..|pairs| - 1], pairs[|pairs| - 1];
      assert forall i :: 0 <= i < |init| ==> init[i] == pairs[i];
      SetAllKeeps(fields, init, key);
      GetAfterSet(SetAll(fields, init), last.key, last.value, key);
    }
  }

  /** Each assigned key holds its value. */
  lemma {:induction false} SetAllHolds<V>(fields: seq<Field<V>>, pairs: seq<Field<V>>, i: nat)
    requires DistinctKeys(pairs) && i < |pairs|
    ensures Get(SetAll(fields, pairs), pairs[i].key) == Some(pairs[i].value)
  {
    var init, last := pairs[..|pairs| - 1], pairs[|pairs| - 1];
    GetAfterSet(SetAll(fields, init), last.key, last.value, pairs[i].key);
    if i < |init| {
      SetAllHolds(fields, init, i);
    }
  }

  /** Assigning what is held already changes nothing, the order included. */
  lemma {:induction false} SetAllSame<V>(fields: seq<Field<V>>, pairs: seq<Field<V>>)
    requires forall i :: 0 <= i < |pairs| ==> Get(fields, pairs[i].key) == Some(pairs[i].value)
    ensures SetAll(fields, pairs) == fields
  {
    if pairs != [] {
      var init, last := pairs[..|pairs| - 1], pairs[|pairs| - 1];
      SetAllSame(fields, init);
      SetSame(fields, last.key, last.value);
    }
  }

  /** Assigning distinct keys twice is assigning them once: a present key keeps its place. */
  lemma SetAllTwice<V>(fields: seq<Field<V>>, pairs: seq<Field<V>>)
    requires DistinctKeys(pairs)
    ensures SetAll(SetAll(fields, pairs), pairs) == SetAll(fields, pairs)
  {
    forall i | 0 <= i < |pairs| ensures Get(SetAll(fields, pairs), pairs[i].key) == Some(pairs[i].value) {
      SetAllHolds(fields, pairs, i);
    }
    SetAllSame(SetAll(fields, pairs), pairs);
  }

  // ----- Enumeration order.

  function Keys<V>(fields: seq<Field<V>>): (keys: seq<string>)
    ensures |keys| == |fields|
  {
    seq(|fields|, i requires 0 <= i < |fields| => fields[i].key)
  }

  /** Assignment keeps the keys in their places and puts a new one last. */
  lemma {:induction false} KeysAfterSet<V>(fields: seq<Field<V>>, key: string, value: V)
    ensures Keys(Set(fields, key, value)) == if HasKey(fields, key) then Keys(fields) else Keys(fields) + [key]
  {
    if fields != [] && fields[0].key != key {
      KeysAfterSet(fields[1..], key, value);
      assert Keys(fields) == [fields[0].key] + Keys(fields[1..]);
      assert Keys(Set(fields, key, value)) == [fields[0].key] + Keys(Set(fields[1..], key, value));
      if HasKey(fields, key) {
        var i :| 0 <= i < |fields| && fields[i].key == key;
        assert fields[1..][i - 1].key == key;
      }
      if HasKey(fields[1..], key) {
        var i :| 0 <= i < |fields[1..]| && fields[1..][i].key == key;
        assert fields[i + 1].key == key;
      }
    } else if fields != [] {
      assert fields[0].key == key;
    }
  }

  /** The names that are not among the keys, in their order. */
  function NewNames(keys: seq<string>, names: seq<string>): seq<string> {
    if names == [] then []
    else
      var last := names[|names| - 1];
      NewNames(keys, names[..|names| - 1]) + (if last in keys then [] else [last])
  }

  lemma {:induction false} NewNamesAreNames(keys: seq<string>, names: seq<string>)
    ensures forall k :: k in NewNames(keys, names) ==> k in names
  {
    if names != [] {
      NewNamesAreNames(keys, names[..|names| - 1]);
    }
  }

  lemma HasKeyIff<V>(fields: seq<Field<V>>, key: string)
    ensures HasKey(fields, key) <==> key in Keys(fields)
  {
    if HasKey(fields, key) {
      var i :| 0 <= i < |fields| && fields[i].key == key;
      assert Keys(fields)[i] == key;
    }
  }

  /** Assignments in sequence keep the keys in their places and put the new ones last, in order. */
  lemma {:induction false} KeysAfterSetAll<V>(fields: seq<Field<V>>, pairs: seq<Field<V>>)
    requires DistinctKeys(pairs)
    ensures Keys(SetAll(fields, pairs)) == Keys(fields) + NewNames(Keys(fields), Keys(pairs))
  {
    if pairs != [] {
      var init, last := pairs[..|pairs| - 1], pairs[|pairs| - 1];
      KeysAfterSetAll(fields, init);
      KeysAfterSet(SetAll(fields, init), last.key, last.value);
      HasKeyIff(SetAll(fields, init), last.key);
      NewNamesAreNames(Keys(fields), Keys(init));
      assert Keys(pairs)[..|pairs| - 1] == Keys(init);
    }
  }

  lemma {:induction false} ValuesAfterSet<V>(fields: seq<Field<V>>, key: string, value: V, i: nat)
    requires i < |Set(fields, key, value)|
    ensures var v := Set(fields, key, value)[i].value;
            v == value || exists j :: 0 <= j < |fields| && fields[j].value == v
  {
    if fields != [] && fields[0].key != key && i > 0 {
      ValuesAfterSet(fields[1..], key, value, i - 1);
      var v := Set(fields[1..], key, value)[i - 1].value;
      if v != value {
        var j :| 0 <= j < |fields[1..]| && fields[1..][j].value == v;
        assert fields[j + 1].value == v;
      }
    } else if i < |fields| && fields[0].key == key && i > 0 {
      assert fields[i].value == Set(fields, key, value)[i].value;
    } else if fields != [] && fields[0].key != key {
      assert fields[0].value == Set(fields, key, value)[0].value;
    }
  }
}
