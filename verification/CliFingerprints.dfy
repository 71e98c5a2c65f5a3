/**
 * Reordering of JSON fields and HTTP headers. A JavaScript record or `Map` is a sequence of
 * entries with distinct keys, in insertion order.
 */
module CliFingerprints {
  import opened Text
  import opened Sequences

  type Record<V> = seq<(string, V)>

  predicate HasKey<V>(r: Record<V>, k: string) {
    exists i :: 0 <= i < |r| && r[i].0 == k
  }

  ghost predicate DistinctKeys<V>(r: Record<V>) {
    forall i, j :: 0 <= i < j < |r| ==> r[i].0 != r[j].0
  }

  /** The record as a map, whatever the order of its entries. */
  function ToMap<V>(r: Record<V>): map<string, V> {
    if r == [] then map[] else ToMap(r[..|r| - 1])[r[|r| - 1].0 := r[|r| - 1].1]
  }

  lemma {:induction false} ToMapSpec<V>(r: Record<V>)
    ensures forall k :: k in ToMap(r) <==> HasKey(r, k)
    ensures DistinctKeys(r) ==> forall i :: 0 <= i < |r| ==> r[i].0 in ToMap(r) && ToMap(r)[r[i].0] == r[i].1
  {
    if r != [] {
      var init, last := r[..|r| - 1], r[|r| - 1];
      ToMapSpec(init);
      forall k ensures k in ToMap(r) <==> HasKey(r, k) {
        if HasKey(r, k) && k != last.0 {
          var i :| 0 <= i < |r| && r[i].0 == k;
          assert init[i].0 == k;
        }
        if HasKey(init, k) {
          var i :| 0 <= i < |init| && init[i].0 == k;
          assert r[i].0 == k;
        }
        assert r[|r| - 1].0 == last.0;
      }
    }
  }

  // ----- The reordering.

  /** The entries of the listed keys that are present, in list order and once each. */
  function Front<V>(m: map<string, V>, order: seq<string>, placed: set<string>): Record<V> {
    if order == [] then []
    else if order[0] in m && order[0] !in placed
    then [(order[0], m[order[0]])] + Front(m, order[1..], placed + {order[0]})
    else Front(m, order[1..], placed)
  }

  /** The entries whose key is not listed, in their own order. */
  function Rest<V>(r: Record<V>, order: seq<string>): Record<V> {
    if r == [] then []
    else if r[0].0 in order then Rest(r[1..], order)
    else [r[0]] + Rest(r[1..], order)
  }

  function Ordered<V>(r: Record<V>, order: seq<string>): Record<V> {
    if order == [] then r else Front(ToMap(r), order, {}) + Rest(r, order)
  }

  /** The first position of a key in the list, or its length. */
  function Rank(order: seq<string>, k: string): nat {
    if order == [] || order[0] == k then 0 else 1 + Rank(order[1..], k)
  }

  predicate IsFrontEntry<V(==)>(m: map<string, V>, order: seq<string>, placed: set<string>, e: (string, V)) {
    e.0 in m && e.0 in order && e.0 !in placed && e.1 == m[e.0]
  }

  /** The keys stand in list order, each once. */
  ghost predicate InListOrder<V>(f: Record<V>, order: seq<string>) {
    forall i, j :: 0 <= i < j < |f| ==> Rank(order, f[i].0) < Rank(order, f[j].0)
  }

  /** The entries placed in front are listed ones with their own values, in list order. */
  lemma {:induction false} FrontSpec<V>(m: map<string, V>, order: seq<string>, placed: set<string>)
    ensures var f := Front(m, order, placed);
            && (forall i :: 0 <= i < |f| ==> IsFrontEntry(m, order, placed, f[i]))
            && InListOrder(f, order)
  {
    if order != [] {
      var k, f := order[0], Front(m, order, placed);
      if k in m && k !in placed {
        var tail := Front(m, order[1..], placed + {k});
        FrontSpec(m, order[1..], placed + {k});
        assert f == [(k, m[k])] + tail;
        assert f[0].0 == k;
        forall i | 0 <= i < |tail| ensures IsFrontEntry(m, order, placed, tail[i]) && tail[i].0 != k {
          assert IsFrontEntry(m, order[1..], placed + {k}, tail[i]);
        }
      } else {
        FrontSpec(m, order[1..], placed);
        forall i | 0 <= i < |f| ensures IsFrontEntry(m, order, placed, f[i]) && f[i].0 != k {
          assert IsFrontEntry(m, order[1..], placed, f[i]);
        }
      }
    }
  }

  /** Every listed key that is present is placed. */
  lemma {:induction false} FrontHolds<V>(m: map<string, V>, order: seq<string>, placed: set<string>, k: string)
    requires k in m && k in order && k !in placed
    ensures HasKey(Front(m, order, placed), k)
  {
    var f := Front(m, order, placed);
    if order[0] in m && order[0] !in placed {
      var tail := Front(m, order[1..], placed + {order[0]});
      assert f == [(order[0], m[order[0]])] + tail;
      if k == order[0] {
        assert f[0].0 == k;
      } else {
        FrontHolds(m, order[1..], placed + {order[0]}, k);
        var i :| 0 <= i < |tail| && tail[i].0 == k;
        assert f[i + 1].0 == k;
      }
    } else {
      FrontHolds(m, order[1..], placed, k);
    }
  }

  lemma {:induction false} RestSpec<V>(r: Record<V>, order: seq<string>)
    ensures var rest := Rest(r, order);
            && Subsequence(rest, r)
            && (forall i :: 0 <= i < |rest| ==> rest[i] in r && rest[i].0 !in order)
            && (forall i :: 0 <= i < |r| && r[i].0 !in order ==> r[i] in rest)
            && (DistinctKeys(r) ==> DistinctKeys(rest))
  {
    if r != [] {
      RestSpec(r[1..], order);
      var tail := Rest(r[1..], order);
      if r[0].0 in order {
        SubsequenceSkip(tail, r);
      } else {
        assert ([r[0]] + tail)[1..] == tail;
      }
    }
  }

  lemma {:induction false} CountOfDistinct<T>(s: seq<T>, x: T)
    requires Distinct(s)
    ensures multiset(s)[x] == if x in s then 1 else 0
  {
    if s != [] {
      assert s == [s[0]] + s[1..];
      CountOfDistinct(s[1..], x);
    }
  }

  lemma SameElementsSameMultiset<T>(a: seq<T>, b: seq<T>)
    requires Distinct(a) && Distinct(b)
    requires forall x :: x in a <==> x in b
    ensures multiset(a) == multiset(b)
  {
    forall x ensures multiset(a)[x] == multiset(b)[x] {
      CountOfDistinct(a, x);
      CountOfDistinct(b, x);
    }
  }

  lemma InListOrderIsDistinct<V>(f: Record<V>, order: seq<string>)
    requires InListOrder(f, order)
    ensures DistinctKeys(f)
  {
    forall i, j | 0 <= i < j < |f| ensures f[i].0 != f[j].0 {
      assert Rank(order, f[i].0) < Rank(order, f[j].0);
    }
  }

  lemma DistinctConcat<V>(a: Record<V>, b: Record<V>, order: seq<string>)
    requires DistinctKeys(a) && DistinctKeys(b)
    requires forall i :: 0 <= i < |a| ==> a[i].0 in order
    requires forall i :: 0 <= i < |b| ==> b[i].0 !in order
    ensures DistinctKeys(a + b)
  {
    var c := a + b;
    forall i, j | 0 <= i < j < |c| ensures c[i].0 != c[j].0 {
      if i >= |a| {
        assert c[i] == b[i - |a|] && c[j] == b[j - |a|];
      } else if j >= |a| {
        assert c[j] == b[j - |a|];
      }
    }
  }

  lemma FrontKeysListed<V>(m: map<string, V>, order: seq<string>)
    ensures var f := Front(m, order, {});
            && (forall i :: 0 <= i < |f| ==> f[i].0 in order)
            && InListOrder(f, order) && DistinctKeys(f)
  {
    var f := Front(m, order, {});
    FrontSpec(m, order, {});
    forall i | 0 <= i < |f| ensures f[i].0 in order {
      assert IsFrontEntry(m, order, {}, f[i]);
    }
    InListOrderIsDistinct(f, order);
  }

  lemma OrderedDistinct<V>(r: Record<V>, order: seq<string>)
    requires DistinctKeys(r)
    ensures DistinctKeys(Ordered(r, order))
  {
    if order != [] {
      FrontKeysListed(ToMap(r), order);
      RestSpec(r, order);
      DistinctConcat(Front(ToMap(r), order, {}), Rest(r, order), order);
    }
  }

  lemma OrderedPermutes<V(!new)>(r: Record<V>, order: seq<string>)
    requires DistinctKeys(r)
    ensures multiset(Ordered(r, order)) == multiset(r)
  {
    if order != [] {
      OrderedDistinct(r, order);
      forall e ensures e in Ordered(r, order) <==> e in r {
        SameEntries(r, order, e);
      }
      SameElementsSameMultiset(Ordered(r, order), r);
    }
  }

  /**
   * Reordering is a permutation of the entries. The first `n` entries are the listed keys, in
   * list order; the others are not listed and keep their own order.
   */
  lemma OrderedSpec<V(!new)>(r: Record<V>, order: seq<string>) returns (n: nat)
    requires DistinctKeys(r)
    ensures var out := Ordered(r, order);
            && multiset(out) == multiset(r) && DistinctKeys(out)
            && n <= |out|
            && (order == [] ==> out == r)
            && (order != [] ==> Parted(out[..n], out[n..], order))
            && Subsequence(out[n..], r)
  {
    OrderedDistinct(r, order);
    OrderedPermutes(r, order);
    if order == [] {
      n := 0;
      SubsequenceSelf(r);
    } else {
      n := OrderedParts(r, order);
    }
  }

  /** The first part of a list holds the listed keys in list order, the second holds none of them. */
  ghost predicate Parted<V>(front: Record<V>, rest: Record<V>, order: seq<string>) {
    && (forall i :: 0 <= i < |front| ==> front[i].0 in order)
    && InListOrder(front, order)
    && (forall i :: 0 <= i < |rest| ==> rest[i].0 !in order)
  }

  lemma OrderedParts<V>(r: Record<V>, order: seq<string>) returns (n: nat)
    requires order != []
    ensures var out := Ordered(r, order);
            && n <= |out| && Parted(out[..n], out[n..], order)
            && Subsequence(out[n..], r)
  {
    var front, rest, out := Front(ToMap(r), order, {}), Rest(r, order), Ordered(r, order);
    FrontKeysListed(ToMap(r), order);
    RestSpec(r, order);
    n := |front|;
    assert Parted(front, rest, order);
    assert out[..n] == front && out[n..] == rest;
  }

  lemma {:induction false} SubsequenceSelf<T>(s: seq<T>)
    ensures Subsequence(s, s)
  {
    if s != [] {
      SubsequenceSelf(s[1..]);
    }
  }

  lemma SameEntries<V>(r: Record<V>, order: seq<string>, e: (string, V))
    requires DistinctKeys(r) && order != []
    ensures e in Ordered(r, order) <==> e in r
  {
    var m := ToMap(r);
    var front, rest := Front(m, order, {}), Rest(r, order);
    FrontSpec(m, order, {});
    RestSpec(r, order);
    ToMapSpec(r);
    if e in r {
      var i :| 0 <= i < |r| && r[i] == e;
      assert e.0 in m && m[e.0] == e.1;
      if e.0 in order {
        FrontHolds(m, order, {}, e.0);
        var j :| 0 <= j < |front| && front[j].0 == e.0;
        assert IsFrontEntry(m, order, {}, front[j]);
        assert front[j] == e;
      } else {
        assert e in rest;
      }
    }
    if e in front {
      assert IsFrontEntry(m, order, {}, e);
      assert HasKey(r, e.0);
      var i :| 0 <= i < |r| && r[i].0 == e.0;
      assert r[i] == e;
    }
  }

  lemma {:induction false} RestOfListed<V>(r: Record<V>, order: seq<string>)
    requires forall i :: 0 <= i < |r| ==> r[i].0 in order
    ensures Rest(r, order) == []
  {
    if r != [] {
      RestOfListed(r[1..], order);
    }
  }

  lemma {:induction false} RestOfUnlisted<V>(r: Record<V>, order: seq<string>)
    requires forall i :: 0 <= i < |r| ==> r[i].0 !in order
    ensures Rest(r, order) == r
  {
    if r != [] {
      RestOfUnlisted(r[1..], order);
    }
  }

  lemma {:induction false} RestConcat<V>(a: Record<V>, b: Record<V>, order: seq<string>)
    ensures Rest(a + b, order) == Rest(a, order) + Rest(b, order)
  {
    if a == [] {
      assert a + b == b;
    } else {
      assert (a + b)[1..] == a[1..] + b;
      RestConcat(a[1..], b, order);
    }
  }

  lemma EntryInMap<V>(r: Record<V>, e: (string, V))
    requires DistinctKeys(r)
    ensures e in r <==> e.0 in ToMap(r) && ToMap(r)[e.0] == e.1
  {
    ToMapSpec(r);
    if e.0 in ToMap(r) {
      var i :| 0 <= i < |r| && r[i].0 == e.0;
      assert r[i] == (e.0, ToMap(r)[e.0]);
    }
  }

  lemma SameMultisetSameMap<V(!new)>(a: Record<V>, b: Record<V>)
    requires DistinctKeys(a) && DistinctKeys(b) && multiset(a) == multiset(b)
    ensures ToMap(a) == ToMap(b)
  {
    forall e: (string, V)
      ensures e.0 in ToMap(a) && ToMap(a)[e.0] == e.1 <==> e.0 in ToMap(b) && ToMap(b)[e.0] == e.1
    {
      EntryInMap(a, e);
      EntryInMap(b, e);
      assert e in a <==> e in multiset(a);
      assert e in b <==> e in multiset(b);
    }
    SameEntriesSameMap(ToMap(a), ToMap(b));
  }

  lemma SameEntriesSameMap<V(!new)>(m: map<string, V>, n: map<string, V>)
    requires forall e: (string, V) :: e.0 in m && m[e.0] == e.1 <==> e.0 in n && n[e.0] == e.1
    ensures m == n
  {
    forall k | k in m ensures k in n && n[k] == m[k] {
      var e := (k, m[k]);
      assert e.0 in m && m[e.0] == e.1;
    }
    forall k | k in n ensures k in m {
      var e := (k, n[k]);
      assert e.0 in n && n[e.0] == e.1;
    }
  }

  lemma RestOfOrdered<V>(r: Record<V>, order: seq<string>)
    ensures Rest(Ordered(r, order), order) == Rest(r, order)
  {
    if order != [] {
      var front, rest := Front(ToMap(r), order, {}), Rest(r, order);
      FrontKeysListed(ToMap(r), order);
      RestSpec(r, order);
      RestConcat(front, rest, order);
      RestOfListed(front, order);
      RestOfUnlisted(rest, order);
    }
  }

  /** A second pass changes nothing. */
  lemma OrderedTwice<V(!new)>(r: Record<V>, order: seq<string>)
    requires DistinctKeys(r)
    ensures Ordered(Ordered(r, order), order) == Ordered(r, order)
  {
    OrderedDistinct(r, order);
    OrderedPermutes(r, order);
    SameMultisetSameMap(Ordered(r, order), r);
    RestOfOrdered(r, order);
  }

  // ----- The field loop.

  /** The first loop: listed fields move to the result and leave the set of remaining keys. */
  method PlaceListed<V>(fields: map<string, V>, order: seq<string>) returns (out: Record<V>, remaining: set<string>)
    ensures out == Front(fields, order, {})
    ensures remaining == set k | k in fields && k !in order
  {
    out, remaining := [], fields.Keys;
    ghost var placed: set<string> := {};
    var i := 0;
    while i < |order|
      invariant 0 <= i <= |order|
      invariant Front(fields, order, {}) == out + Front(fields, order[i..], placed)
      invariant remaining == fields.Keys - placed && placed <= fields.Keys
      invariant forall k :: k in placed <==> k in fields && k in order[..i]
    {
      var key := order[i];
      ghost var later, was := order[i..], placed;
      assert later[1..] == order[i + 1..];
      assert order[..i + 1] == order[..i] + [key];
      if key in fields {
        placed := placed + {key};
        if key in remaining {
          assert Front(fields, later, was) == [(key, fields[key])] + Front(fields, later[1..], was + {key});
          out := out + [(key, fields[key])];
          remaining := remaining - {key};
        } else {
          // assigning a key again keeps its place
          assert placed == was;
          assert Front(fields, later, was) == Front(fields, later[1..], was);
        }
      }
      i := i + 1;
    }
    assert order[..i] == order;
  }

  method OrderFields<V>(r: Record<V>, order: seq<string>) returns (out: Record<V>)
    requires DistinctKeys(r)
    ensures out == Ordered(r, order)
  {
    if order == [] {
      return r;
    }
    ToMapSpec(r);
    var remaining;
    out, remaining := PlaceListed(ToMap(r), order);
    ghost var front, rest := out, [];
    var i := 0;
    while i < |r|
      invariant 0 <= i <= |r|
      invariant out == front + rest
      invariant Rest(r, order) == rest + Rest(r[i..], order)
    {
      ghost var later := r[i..];
      assert later[1..] == r[i + 1..];
      assert HasKey(r, r[i].0);
      if r[i].0 in remaining {
        assert Rest(later, order) == [r[i]] + Rest(later[1..], order);
        out := out + [r[i]];
        rest := rest + [r[i]];
      }
      i := i + 1;
    }
  }

  // ----- Headers: the same up to letter case.

  /** A header as the case-insensitive lookup keeps it: lower-case name, then name and value. */
  type Folded = (string, (string, string))

  /** `Map.set`: the last name and value win, the place of the first is kept. */
  function SetFolded(m: seq<Folded>, lower: string, header: (string, string)): seq<Folded> {
    if m == [] then [(lower, header)]
    else if m[0].0 == lower then [(lower, header)] + m[1..]
    else [m[0]] + SetFolded(m[1..], lower, header)
  }

  function Fold(headers: Record<string>): seq<Folded> {
    if headers == [] then []
    else
      var last := headers[|headers| - 1];
      SetFolded(Fold(headers[..|headers| - 1]), Lower(last.0), last)
  }

  function Unfold(m: seq<Folded>): (r: Record<string>)
    ensures |r| == |m|
  {
    seq(|m|, i requires 0 <= i < |m| => m[i].1)
  }

  function LowerAll(order: seq<string>): (r: seq<string>)
    ensures |r| == |order|
  {
    seq(|order|, i requires 0 <= i < |order| => Lower(order[i]))
  }

  function OrderedHeaders(headers: Record<string>, order: seq<string>): Record<string> {
    if order == [] then headers else Unfold(Ordered(Fold(headers), LowerAll(order)))
  }

  /** The names of two headers differ in more than letter case. */
  ghost predicate DistinctFolded(headers: Record<string>) {
    forall i, j :: 0 <= i < j < |headers| ==> Lower(headers[i].0) != Lower(headers[j].0)
  }

  /** The last header of a name, up to letter case. */
  predicate LastOf(headers: Record<string>, i: nat)
    requires i < |headers|
  {
    forall j :: i < j < |headers| ==> Lower(headers[j].0) != Lower(headers[i].0)
  }

  lemma {:induction false} SetFoldedSpec(m: seq<Folded>, lower: string, header: (string, string))
    requires DistinctKeys(m)
    ensures var out := SetFolded(m, lower, header);
            && DistinctKeys(out)
            && (forall i :: 0 <= i < |out| ==> out[i] == (lower, header) || (out[i] in m && out[i].0 != lower))
            && (lower, header) in out
            && (forall i :: 0 <= i < |m| && m[i].0 != lower ==> m[i] in out)
  {
    if m != [] {
      var out := SetFolded(m, lower, header);
      if m[0].0 == lower {
        assert out[0] == (lower, header);
      } else {
        var tail := SetFolded(m[1..], lower, header);
        SetFoldedSpec(m[1..], lower, header);
        assert out == [m[0]] + tail;
        forall i | 0 <= i < |tail| ensures tail[i].0 != m[0].0 && (tail[i] == (lower, header) || tail[i] in m) {
        }
        forall i | 0 <= i < |m| && m[i].0 != lower ensures m[i] in out {
          if i > 0 { assert m[i] == m[1..][i - 1]; }
        }
      }
    } else {
      assert SetFolded(m, lower, header)[0] == (lower, header);
    }
  }

  /** An entry of the lookup: the last header of some name, under that name. */
  ghost predicate IsLast(headers: Record<string>, e: Folded) {
    exists i :: 0 <= i < |headers| && LastOf(headers, i) && e == (Lower(headers[i].0), headers[i])
  }

  lemma IsLastStep(headers: Record<string>, e: Folded)
    requires headers != []
    ensures var init, last := headers[..|headers| - 1], headers[|headers| - 1];
            IsLast(headers, e) <==> e == (Lower(last.0), last) || (IsLast(init, e) && e.0 != Lower(last.0))
  {
    var n := |headers| - 1;
    var init, last := headers[..n], headers[n];
    assert LastOf(headers, n);
    if IsLast(init, e) && e.0 != Lower(last.0) {
      var i :| 0 <= i < |init| && LastOf(init, i) && e == (Lower(init[i].0), init[i]);
      assert LastOf(headers, i) by {
        forall j | i < j < |headers| ensures Lower(headers[j].0) != Lower(headers[i].0) {
          if j < n { assert init[j] == headers[j]; }
        }
      }
      assert headers[i] == init[i];
    }
    if IsLast(headers, e) {
      var i :| 0 <= i < |headers| && LastOf(headers, i) && e == (Lower(headers[i].0), headers[i]);
      if i < n {
        assert LastOf(init, i) && init[i] == headers[i];
      }
    }
  }

  /** The lookup holds exactly the last header of each name. */
  lemma {:induction false} FoldSpec(headers: Record<string>)
    ensures DistinctKeys(Fold(headers))
    ensures forall e :: e in Fold(headers) <==> IsLast(headers, e)
  {
    if headers != [] {
      var init, last := headers[..|headers| - 1], headers[|headers| - 1];
      FoldSpec(init);
      SetFoldedSpec(Fold(init), Lower(last.0), last);
      forall e ensures e in Fold(headers) <==> IsLast(headers, e) {
        IsLastStep(headers, e);
      }
    }
  }

  /** Headers as the lookup keeps them when no two names collide. */
  function Pairs(headers: Record<string>): (m: seq<Folded>)
    ensures |m| == |headers|
  {
    seq(|headers|, i requires 0 <= i < |headers| => (Lower(headers[i].0), headers[i]))
  }

  lemma {:induction false} SetFoldedFresh(m: seq<Folded>, lower: string, header: (string, string))
    requires forall i :: 0 <= i < |m| ==> m[i].0 != lower
    ensures SetFolded(m, lower, header) == m + [(lower, header)]
  {
    if m != [] {
      SetFoldedFresh(m[1..], lower, header);
      assert m == [m[0]] + m[1..];
    }
  }

  lemma {:induction false} FoldOfDistinct(headers: Record<string>)
    requires DistinctFolded(headers)
    ensures Fold(headers) == Pairs(headers)
  {
    if headers != [] {
      var init, last := headers[..|headers| - 1], headers[|headers| - 1];
      FoldOfDistinct(init);
      forall i | 0 <= i < |init| ensures Pairs(init)[i].0 != Lower(last.0) {
        assert init[i] == headers[i];
      }
      SetFoldedFresh(Pairs(init), Lower(last.0), last);
      assert Pairs(headers) == Pairs(init) + [(Lower(last.0), last)];
    }
  }

  /** What reordering lets through: entries of the lookup, all of them, each filed under its own name. */
  lemma ReorderedEntries(headers: Record<string>, order: seq<string>)
    ensures var o := Ordered(Fold(headers), LowerAll(order));
            && DistinctKeys(o)
            && (forall e :: e in o <==> IsLast(headers, e))
            && (forall i :: 0 <= i < |o| ==> o[i].0 == Lower(o[i].1.0))
  {
    var o := Ordered(Fold(headers), LowerAll(order));
    FoldSpec(headers);
    OrderedDistinct(Fold(headers), LowerAll(order));
    OrderedPermutes(Fold(headers), LowerAll(order));
    forall e ensures e in o <==> IsLast(headers, e) {
      assert e in o <==> e in multiset(o);
      assert e in Fold(headers) <==> e in multiset(Fold(headers));
    }
    forall i | 0 <= i < |o| ensures o[i].0 == Lower(o[i].1.0) {
      assert o[i] in o;
      assert IsLast(headers, o[i]);
    }
  }

  /** Reordered headers hold, for each name up to letter case, exactly the last header of that name. */
  lemma OrderedHeadersSpec(headers: Record<string>, order: seq<string>)
    requires order != []
    ensures var out := OrderedHeaders(headers, order);
            && DistinctFolded(out)
            && (forall h :: h in out <==> IsLast(headers, (Lower(h.0), h)))
  {
    var o, out := Ordered(Fold(headers), LowerAll(order)), OrderedHeaders(headers, order);
    ReorderedEntries(headers, order);
    forall h ensures h in out <==> IsLast(headers, (Lower(h.0), h)) {
      if h in out {
        var i :| 0 <= i < |out| && out[i] == h;
        assert o[i] in o;
      }
      if (Lower(h.0), h) in o {
        var i :| 0 <= i < |o| && o[i] == (Lower(h.0), h);
        assert out[i] == h;
      }
    }
  }

  /** The lower-case names of the headers, as they were sent. */
  function SentNames(headers: Record<string>): (names: seq<string>)
    ensures |names| == |headers|
  {
    seq(|headers|, i requires 0 <= i < |headers| => Lower(headers[i].0))
  }

  lemma {:induction false} RankOfAppended(names: seq<string>, last: string, k: string)
    ensures Rank(names + [last], k) == if k in names then Rank(names, k) else if k == last then |names| else |names| + 1
    ensures k in names ==> Rank(names, k) < |names|
  {
    if names == [] {
      assert names + [last] == [last] && [last][1..] == [];
    } else {
      assert (names + [last])[1..] == names[1..] + [last];
      RankOfAppended(names[1..], last, k);
    }
  }

  lemma {:induction false} SetFoldedKeys(m: seq<Folded>, lower: string, header: (string, string))
    ensures var out := SetFolded(m, lower, header);
            if HasKey(m, lower) then |out| == |m| && forall i :: 0 <= i < |m| ==> out[i].0 == m[i].0
            else out == m + [(lower, header)]
  {
    if m != [] && m[0].0 != lower {
      SetFoldedKeys(m[1..], lower, header);
      assert m == [m[0]] + m[1..];
      if HasKey(m, lower) {
        var i :| 0 <= i < |m| && m[i].0 == lower;
        assert m[1..][i - 1].0 == lower;
      }
      if HasKey(m[1..], lower) {
        var i :| 0 <= i < |m[1..]| && m[1..][i].0 == lower;
        assert m[i + 1].0 == lower;
      }
    } else if m != [] {
      assert m[0].0 == lower;
    }
  }

  lemma KeyAfterSetIff(m: seq<Folded>, lower: string, header: (string, string), k: string)
    ensures HasKey(SetFolded(m, lower, header), k) <==> HasKey(m, k) || k == lower
  {
    SetFoldedKeys(m, lower, header);
    var out := SetFolded(m, lower, header);
    if HasKey(m, k) {
      var i :| 0 <= i < |m| && m[i].0 == k;
      assert out[i].0 == k;
    } else if k == lower {
      assert out[|m|].0 == k;
    }
    if HasKey(out, k) {
      var i :| 0 <= i < |out| && out[i].0 == k;
      assert i < |m| ==> m[i].0 == k;
    }
  }

  /** The lookup has exactly the names that were sent. */
  lemma {:induction false} FoldKeysIff(headers: Record<string>, k: string)
    ensures HasKey(Fold(headers), k) <==> k in SentNames(headers)
  {
    if headers != [] {
      var init, last := headers[..|headers| - 1], headers[|headers| - 1];
      FoldKeysIff(init, k);
      KeyAfterSetIff(Fold(init), Lower(last.0), last, k);
      assert SentNames(headers) == SentNames(init) + [Lower(last.0)];
    }
  }

  lemma FoldKeysWereSent(headers: Record<string>)
    ensures forall i :: 0 <= i < |Fold(headers)| ==> Fold(headers)[i].0 in SentNames(headers)
  {
    forall i | 0 <= i < |Fold(headers)| ensures Fold(headers)[i].0 in SentNames(headers) {
      FoldKeysIff(headers, Fold(headers)[i].0);
    }
  }

  /** Entries in the order of sent names stay so when one more name is sent. */
  lemma InLongerOrder(f: seq<Folded>, names: seq<string>, last: string)
    requires InListOrder(f, names) && forall i :: 0 <= i < |f| ==> f[i].0 in names
    ensures InListOrder(f, names + [last])
  {
    forall i, j | 0 <= i < j < |f| ensures Rank(names + [last], f[i].0) < Rank(names + [last], f[j].0) {
      RankOfAppended(names, last, f[i].0);
      RankOfAppended(names, last, f[j].0);
    }
  }

  lemma InOrderWithNew(f: seq<Folded>, names: seq<string>, e: Folded)
    requires InListOrder(f, names + [e.0]) && e.0 !in names && forall i :: 0 <= i < |f| ==> f[i].0 in names
    ensures InListOrder(f + [e], names + [e.0])
  {
    RankOfAppended(names, e.0, e.0);
    forall i | 0 <= i < |f| ensures Rank(names + [e.0], f[i].0) < Rank(names + [e.0], e.0) {
      RankOfAppended(names, e.0, f[i].0);
    }
  }

  /** The lookup lists the names in the order in which they were first sent. */
  lemma {:induction false} FoldInSentOrder(headers: Record<string>)
    ensures InListOrder(Fold(headers), SentNames(headers))
  {
    if headers != [] {
      var init, last := headers[..|headers| - 1], headers[|headers| - 1];
      var lower, before, names := Lower(last.0), Fold(init), SentNames(init);
      FoldInSentOrder(init);
      FoldKeysWereSent(init);
      FoldKeysIff(init, lower);
      SetFoldedKeys(before, lower, last);
      assert SentNames(headers) == names + [lower];
      InLongerOrder(before, names, lower);
      if !HasKey(before, lower) {
        InOrderWithNew(before, names, (lower, last));
      }
    }
  }

  /** A subsequence of entries in list order is in list order. */
  lemma {:induction false} SubsequenceInListOrder<V>(a: Record<V>, b: Record<V>, order: seq<string>)
    requires Subsequence(a, b) && InListOrder(b, order)
    ensures InListOrder(a, order)
    ensures forall i :: 0 <= i < |a| ==> a[i] in b
  {
    if a != [] {
      assert InListOrder(b[1..], order);
      if a[0] == b[0] {
        SubsequenceInListOrder(a[1..], b[1..], order);
        forall j | 0 < j < |a| ensures Rank(order, a[0].0) < Rank(order, a[j].0) && a[j] in b {
          assert a[1..][j - 1] in b[1..];
          var x :| 0 <= x < |b[1..]| && b[1..][x] == a[j];
          assert b[x + 1] == a[j];
        }
        forall i, j | 0 <= i < j < |a| ensures Rank(order, a[i].0) < Rank(order, a[j].0) {
          if i > 0 { assert a[1..][i - 1] == a[i] && a[1..][j - 1] == a[j]; }
        }
      } else {
        SubsequenceInListOrder(a, b[1..], order);
      }
    }
  }

  /**
   * Up to letter case, the listed headers come first, in list order. The others follow in the
   * order in which their names were first sent.
   */
  lemma ListedHeadersFirst(headers: Record<string>, order: seq<string>) returns (n: nat)
    requires order != []
    ensures var out := Pairs(OrderedHeaders(headers, order));
            && n <= |out| && Parted(out[..n], out[n..], LowerAll(order))
            && InListOrder(out[n..], SentNames(headers))
            && Subsequence(out[n..], Fold(headers))
  {
    var o := Ordered(Fold(headers), LowerAll(order));
    ReorderedEntries(headers, order);
    n := OrderedParts(Fold(headers), LowerAll(order));
    assert Pairs(OrderedHeaders(headers, order)) == o;
    FoldInSentOrder(headers);
    SubsequenceInListOrder(o[n..], Fold(headers), SentNames(headers));
  }

  /** The list names the header, up to letter case. */
  ghost predicate Listed(order: seq<string>, name: string) {
    exists k :: 0 <= k < |order| && Lower(order[k]) == Lower(name)
  }

  /** The list names the one header before it first names the other, up to letter case. */
  ghost predicate ListedBefore(order: seq<string>, name: string, other: string) {
    exists k :: 0 <= k < |order| && Lower(order[k]) == Lower(name)
             && forall l :: 0 <= l <= k ==> Lower(order[l]) != Lower(other)
  }

  /** The one header was sent before any of the other name, up to letter case. */
  ghost predicate SentBefore(headers: Record<string>, name: string, other: string) {
    exists k :: 0 <= k < |headers| && Lower(headers[k].0) == Lower(name)
             && forall l :: 0 <= l <= k ==> Lower(headers[l].0) != Lower(other)
  }

  lemma {:induction false} RankIsFirst(names: seq<string>, a: string, b: string) returns (k: nat)
    requires Rank(names, a) < Rank(names, b)
    ensures k < |names| && names[k] == a && forall l :: 0 <= l <= k ==> names[l] != b
  {
    if names[0] == a {
      k := 0;
    } else {
      k := RankIsFirst(names[1..], a, b);
      k := k + 1;
    }
  }

  lemma ListedIff(order: seq<string>, name: string)
    ensures Lower(name) in LowerAll(order) <==> Listed(order, name)
  {
    var lowers := LowerAll(order);
    if Lower(name) in lowers {
      var k :| 0 <= k < |lowers| && lowers[k] == Lower(name);
      assert Lower(order[k]) == Lower(name);
    }
    if Listed(order, name) {
      var k :| 0 <= k < |order| && Lower(order[k]) == Lower(name);
      assert lowers[k] == Lower(name);
    }
  }

  lemma ListedInOrder(order: seq<string>, name: string, other: string)
    requires Rank(LowerAll(order), Lower(name)) < Rank(LowerAll(order), Lower(other))
    ensures ListedBefore(order, name, other)
  {
    var lowers := LowerAll(order);
    var k := RankIsFirst(lowers, Lower(name), Lower(other));
    assert Lower(order[k]) == Lower(name);
    forall l | 0 <= l <= k ensures Lower(order[l]) != Lower(other) {
      assert lowers[l] == Lower(order[l]);
    }
  }

  lemma SentInOrder(headers: Record<string>, name: string, other: string)
    requires Rank(SentNames(headers), Lower(name)) < Rank(SentNames(headers), Lower(other))
    ensures SentBefore(headers, name, other)
  {
    var sent := SentNames(headers);
    var k := RankIsFirst(sent, Lower(name), Lower(other));
    assert Lower(headers[k].0) == Lower(name);
    forall l | 0 <= l <= k ensures Lower(headers[l].0) != Lower(other) {
      assert sent[l] == Lower(headers[l].0);
    }
  }

  lemma PlacesInList(out: Record<string>, n: nat, order: seq<string>)
    requires n <= |out| && Parted(Pairs(out)[..n], Pairs(out)[n..], LowerAll(order))
    ensures forall i :: 0 <= i < |out| ==> (i < n <==> Listed(order, out[i].0))
    ensures forall i, j :: 0 <= i < j < n ==> ListedBefore(order, out[i].0, out[j].0)
  {
    var front, rest := Pairs(out)[..n], Pairs(out)[n..];
    forall i | 0 <= i < |out| ensures i < n <==> Listed(order, out[i].0) {
      ListedIff(order, out[i].0);
      if i < n {
        assert front[i].0 == Lower(out[i].0);
      } else {
        assert rest[i - n].0 == Lower(out[i].0);
      }
    }
    forall i, j | 0 <= i < j < n ensures ListedBefore(order, out[i].0, out[j].0) {
      assert front[i].0 == Lower(out[i].0) && front[j].0 == Lower(out[j].0);
      ListedInOrder(order, out[i].0, out[j].0);
    }
  }

  lemma PlacesAsSent(out: Record<string>, n: nat, headers: Record<string>)
    requires n <= |out| && InListOrder(Pairs(out)[n..], SentNames(headers))
    ensures forall i, j :: n <= i < j < |out| ==> SentBefore(headers, out[i].0, out[j].0)
  {
    var rest := Pairs(out)[n..];
    forall i, j | n <= i < j < |out| ensures SentBefore(headers, out[i].0, out[j].0) {
      assert rest[i - n].0 == Lower(out[i].0) && rest[j - n].0 == Lower(out[j].0);
      SentInOrder(headers, out[i].0, out[j].0);
    }
  }

  /**
   * Where every header goes: those that the list names come first, by their first place in the
   * list; the others follow, by the place at which a header of their name was first sent.
   */
  lemma HeaderPlaces(headers: Record<string>, order: seq<string>) returns (n: nat)
    requires order != []
    ensures var out := OrderedHeaders(headers, order);
            && n <= |out|
            && (forall i :: 0 <= i < |out| ==> (i < n <==> Listed(order, out[i].0)))
            && (forall i, j :: 0 <= i < j < n ==> ListedBefore(order, out[i].0, out[j].0))
            && (forall i, j :: n <= i < j < |out| ==> SentBefore(headers, out[i].0, out[j].0))
  {
    n := ListedHeadersFirst(headers, order);
    PlacesInList(OrderedHeaders(headers, order), n, order);
    PlacesAsSent(OrderedHeaders(headers, order), n, headers);
  }

  /** Without colliding names, reordering is a permutation, and unlisted headers keep their order. */
  lemma OrderedHeadersPermute(headers: Record<string>, order: seq<string>) returns (n: nat)
    requires DistinctFolded(headers)
    ensures var out := OrderedHeaders(headers, order);
            && multiset(out) == multiset(headers)
            && n <= |out| && Subsequence(Pairs(out)[n..], Pairs(headers))
            && (order != [] ==> Parted(Pairs(out)[..n], Pairs(out)[n..], LowerAll(order)))
  {
    if order == [] {
      n := 0;
      SubsequenceSelf(Pairs(headers));
    } else {
      var out := OrderedHeaders(headers, order);
      n := ListedHeadersFirst(headers, order);
      FoldOfDistinct(headers);
      OrderedHeadersSpec(headers, order);
      forall h ensures h in out <==> h in headers {
        if h in headers {
          var j :| 0 <= j < |headers| && headers[j] == h;
          assert LastOf(headers, j);
        }
      }
      SameElementsSameMultiset(out, headers);
    }
  }

  /** A second pass changes nothing, collisions or not, and without a list nothing is changed at all. */
  lemma OrderedHeadersTwice(headers: Record<string>, order: seq<string>)
    ensures OrderedHeaders(headers, []) == headers
    ensures OrderedHeaders(OrderedHeaders(headers, order), order) == OrderedHeaders(headers, order)
  {
    if order != [] {
      var lowers, out := LowerAll(order), OrderedHeaders(headers, order);
      var o := Ordered(Fold(headers), lowers);
      ReorderedEntries(headers, order);
      FoldOfDistinct(out);
      assert Pairs(out) == o;
      FoldSpec(headers);
      OrderedTwice(Fold(headers), lowers);
    }
  }

  method OrderHeaders(headers: Record<string>, order: seq<string>) returns (out: Record<string>)
    ensures out == OrderedHeaders(headers, order)
  {
    if order == [] {
      return headers;
    }
    var headerMap: seq<Folded> := [];
    var i := 0;
    while i < |headers|
      invariant 0 <= i <= |headers|
      invariant headerMap == Fold(headers[..i])
    {
      assert headers[..i + 1][..i] == headers[..i];
      headerMap := SetFolded(headerMap, Lower(headers[i].0), headers[i]);
      i := i + 1;
    }
    assert headers[..i] == headers;
    FoldSpec(headers);
    var ordered := OrderFields(headerMap, LowerAll(order));
    out := Unfold(ordered);
  }
}
