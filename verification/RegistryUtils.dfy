/** The shared registry lookups: a memoised first-wins index, the parser, and the flat catalogue. */
module RegistryUtils {
  import opened Options
  import opened Text

  datatype Model = Model(id: string, name: string)
  datatype Provider = Provider(id: string, alias: Option<string>, models: seq<Model>)

  type Registry = seq<Provider>

  datatype Parsed = Parsed(provider: Option<string>, model: Option<string>)

  predicate Lists(models: seq<Model>, id: string) {
    exists i :: 0 <= i < |models| && models[i].id == id
  }

  // ----- The index against the scan.

  /** The linear scan: the first provider that lists the model. */
  function Scan(r: Registry, id: string): Option<string> {
    if r == [] then None
    else if Lists(r[0].models, id) then Some(r[0].id)
    else Scan(r[1..], id)
  }

  function Get(index: map<string, string>, id: string): Option<string> {
    if id in index then Some(index[id]) else None
  }

  function AddModels(index: map<string, string>, provider: string, models: seq<Model>): map<string, string> {
    if models == [] then index
    else
      var before, id := AddModels(index, provider, models[..|models| - 1]), models[|models| - 1].id;
      if id in before then before else before[id := provider]
  }

  function Index(r: Registry): map<string, string> {
    if r == [] then map[] else AddModels(Index(r[..|r| - 1]), r[|r| - 1].id, r[|r| - 1].models)
  }

  lemma {:induction false} AddModelsSpec(index: map<string, string>, provider: string, models: seq<Model>, id: string)
    ensures Get(AddModels(index, provider, models), id) ==
            if id in index then Some(index[id]) else if Lists(models, id) then Some(provider) else None
  {
    if models != [] {
      var init, last := models[..|models| - 1], models[|models| - 1];
      AddModelsSpec(index, provider, init, id);
      assert Lists(models, id) <==> Lists(init, id) || last.id == id by {
        if Lists(init, id) {
          var i :| 0 <= i < |init| && init[i].id == id;
          assert models[i].id == id;
        }
        if last.id == id { assert models[|models| - 1].id == id; }
        if Lists(models, id) && last.id != id {
          var i :| 0 <= i < |models| && models[i].id == id;
          assert init[i].id == id;
        }
      }
    }
  }

  lemma {:induction false} ScanAppend(r: Registry, p: Provider, id: string)
    ensures Scan(r + [p], id) ==
            if Scan(r, id).Some? then Scan(r, id) else if Lists(p.models, id) then Some(p.id) else None
  {
    if r == [] {
      assert r + [p] == [p] && [p][1..] == [];
    } else {
      assert (r + [p])[1..] == r[1..] + [p];
      ScanAppend(r[1..], p, id);
    }
  }

  /** The first-wins index agrees with the linear scan, for every registry and every model. */
  lemma {:induction false} IndexAgreesWithScan(r: Registry, id: string)
    ensures Get(Index(r), id) == Scan(r, id)
  {
    if r != [] {
      var init, last := r[..|r| - 1], r[|r| - 1];
      IndexAgreesWithScan(init, id);
      AddModelsSpec(Index(init), last.id, last.models, id);
      ScanAppend(init, last, id);
      assert r == init + [last];
    }
  }

  /** The first provider that lists the model. */
  predicate IsFirstLister(r: Registry, id: string, i: nat) {
    i < |r| && Lists(r[i].models, id) && forall j :: 0 <= j < i ==> !Lists(r[j].models, id)
  }

  predicate NoneLists(r: Registry, id: string) {
    forall i :: 0 <= i < |r| ==> !Lists(r[i].models, id)
  }

  /** The index holds each listed model under its first provider, and no other. */
  lemma IndexSpec(r: Registry, id: string)
    ensures NoneLists(r, id) <==> id !in Index(r)
    ensures forall i: nat :: IsFirstLister(r, id, i) ==> id in Index(r) && Index(r)[id] == r[i].id
  {
    IndexAgreesWithScan(r, id);
    ScanSpec(r, id);
  }

  lemma {:induction false} ScanSpec(r: Registry, id: string)
    ensures NoneLists(r, id) <==> Scan(r, id).None?
    ensures forall i: nat :: IsFirstLister(r, id, i) ==> Scan(r, id) == Some(r[i].id)
  {
    if r != [] {
      ScanSpec(r[1..], id);
      assert forall k :: 0 < k < |r| ==> r[k] == r[1..][k - 1];
      assert NoneLists(r, id) <==> !Lists(r[0].models, id) && NoneLists(r[1..], id);
      forall i: nat | IsFirstLister(r, id, i) ensures Scan(r, id) == Some(r[i].id) {
        if i > 0 { assert IsFirstLister(r[1..], id, i - 1); }
      }
    }
  }

  // ----- The parser.

  predicate HasPrefix(s: string, prefix: string) {
    prefix + "/" <= s
  }

  /** The alias, when it is given and not empty. */
  predicate HasAlias(p: Provider) {
    p.alias.Some? && p.alias.value != ""
  }

  function ParsePrefix(r: Registry, s: string): Option<Parsed> {
    if r == [] then None
    else if HasPrefix(s, r[0].id) then Some(Parsed(Some(r[0].id), Some(s[|r[0].id| + 1..])))
    else if HasAlias(r[0]) && HasPrefix(s, r[0].alias.value)
    then Some(Parsed(Some(r[0].id), Some(s[|r[0].alias.value| + 1..])))
    else ParsePrefix(r[1..], s)
  }

  function Parse(r: Registry, s: Option<string>): Parsed {
    if s.None? || s.value == "" then Parsed(None, None)
    else if ParsePrefix(r, s.value).Some? then ParsePrefix(r, s.value).value
    else
      var provider := Scan(r, s.value);
      // an empty provider id counts as not found
      if provider.Some? && provider.value != "" then Parsed(provider, s) else Parsed(None, s)
  }

  /** The string has the provider's id, or else its alias, before a slash; `n` is the length of what it has. */
  predicate IsBehind(p: Provider, s: string, n: nat) {
    if HasPrefix(s, p.id) then n == |p.id|
    else p.alias.Some? && p.alias.value != "" && HasPrefix(s, p.alias.value) && n == |p.alias.value|
  }

  /** The first provider with such a prefix. */
  ghost predicate IsFirstBehind(r: Registry, s: string, i: nat, n: nat) {
    && i < |r| && IsBehind(r[i], s, n)
    && forall j, m: nat :: 0 <= j < i ==> !IsBehind(r[j], s, m)
  }

  ghost predicate BehindNone(r: Registry, s: string) {
    forall i, n: nat :: 0 <= i < |r| ==> !IsBehind(r[i], s, n)
  }

  lemma {:induction false} PrefixSpec(r: Registry, s: string)
    ensures forall i: nat, n: nat :: IsFirstBehind(r, s, i, n) ==>
              n < |s| && ParsePrefix(r, s) == Some(Parsed(Some(r[i].id), Some(s[n + 1..])))
    ensures BehindNone(r, s) ==> ParsePrefix(r, s).None?
  {
    if r != [] {
      PrefixSpec(r[1..], s);
      assert forall k :: 0 < k < |r| ==> r[k] == r[1..][k - 1];
      forall i: nat, n: nat | IsFirstBehind(r, s, i, n)
        ensures n < |s| && ParsePrefix(r, s) == Some(Parsed(Some(r[i].id), Some(s[n + 1..])))
      {
        if i > 0 {
          assert !IsBehind(r[0], s, |r[0].id|);
          assert !IsBehind(r[0], s, if r[0].alias.Some? then |r[0].alias.value| else 0);
          assert IsFirstBehind(r[1..], s, i - 1, n);
        }
      }
      if BehindNone(r, s) {
        assert !IsBehind(r[0], s, |r[0].id|);
        assert !IsBehind(r[0], s, if r[0].alias.Some? then |r[0].alias.value| else 0);
      }
    }
  }

  /** The parser in full: nothing for no string; the rest behind the first provider whose id or alias
      stands before it; else the string itself, with the first provider that lists it if there is one
      with a non-empty id. */
  lemma ParseSpec(r: Registry, s: string)
    ensures Parse(r, None) == Parse(r, Some("")) == Parsed(None, None)
    ensures forall i: nat, n: nat :: s != "" && IsFirstBehind(r, s, i, n) ==>
              n < |s| && Parse(r, Some(s)) == Parsed(Some(r[i].id), Some(s[n + 1..]))
    ensures s != "" && BehindNone(r, s) ==>
              && (forall i: nat :: IsFirstLister(r, s, i) ==>
                    Parse(r, Some(s)) == Parsed(if r[i].id != "" then Some(r[i].id) else None, Some(s)))
              && (NoneLists(r, s) ==> Parse(r, Some(s)) == Parsed(None, Some(s)))
  {
    PrefixSpec(r, s);
    ScanSpec(r, s);
  }

  /** A registry and its index, built at the first bare lookup and reused. */
  class IndexedRegistry {
    const registry: Registry
    var index: Option<map<string, string>>

    ghost predicate Valid()
      reads this
    {
      index.Some? ==> index.value == Index(registry)
    }

    constructor (registry: Registry)
      ensures Valid() && this.registry == registry
    {
      this.registry, index := registry, None;
    }

    method GetIndex() returns (result: map<string, string>)
      requires Valid()
      modifies this`index
      ensures Valid() && index == Some(result) && result == Index(registry)
    {
      if index.Some? {
        return index.value;
      }
      result := map[];
      var i := 0;
      while i < |registry|
        invariant 0 <= i <= |registry|
        invariant result == Index(registry[..i])
      {
        var p := registry[i];
        ghost var before := result;
        var j := 0;
        while j < |p.models|
          invariant 0 <= j <= |p.models|
          invariant result == AddModels(before, p.id, p.models[..j])
        {
          assert p.models[..j + 1][..j] == p.models[..j];
          if p.models[j].id !in result {
            result := result[p.models[j].id := p.id];
          }
          j := j + 1;
        }
        assert p.models[..j] == p.models;
        assert registry[..i + 1][..i] == registry[..i];
        i := i + 1;
      }
      assert registry[..i] == registry;
      index := Some(result);
    }

    method ParseModel(s: Option<string>) returns (parsed: Parsed)
      requires Valid()
      modifies this`index
      ensures Valid() && parsed == Parse(registry, s)
    {
      if s.None? || s.value == "" {
        return Parsed(None, None);
      }
      var i := 0;
      while i < |registry|
        invariant 0 <= i <= |registry|
        invariant ParsePrefix(registry, s.value) == ParsePrefix(registry[i..], s.value)
      {
        var p := registry[i];
        assert registry[i..][1..] == registry[i + 1..];
        if HasPrefix(s.value, p.id) {
          return Parsed(Some(p.id), Some(s.value[|p.id| + 1..]));
        }
        if HasAlias(p) && HasPrefix(s.value, p.alias.value) {
          return Parsed(Some(p.id), Some(s.value[|p.alias.value| + 1..]));
        }
        i := i + 1;
      }
      var idx := GetIndex();
      IndexAgreesWithScan(registry, s.value);
      if s.value in idx && idx[s.value] != "" {
        return Parsed(Some(idx[s.value]), s);
      }
      return Parsed(None, s);
    }
  }

  // ----- The catalogue.

  /** A catalogue row; `extra` is what the caller's callback adds for the provider. */
  datatype Row<E> = Row(id: string, name: string, provider: string, extra: E)

  function Prefixes(p: Provider): seq<string> {
    (if p.id != "" then [p.id] else []) + (if HasAlias(p) then [p.alias.value] else [])
  }

  function RowsOfModel<E>(p: Provider, m: Model, extra: E): seq<Row<E>> {
    seq(|Prefixes(p)|, i requires 0 <= i < |Prefixes(p)| => Row(Prefixes(p)[i] + "/" + m.id, m.name, p.id, extra))
  }

  function RowsOfModels<E>(p: Provider, models: seq<Model>, extra: E): seq<Row<E>> {
    if models == [] then []
    else RowsOfModels(p, models[..|models| - 1], extra) + RowsOfModel(p, models[|models| - 1], extra)
  }

  function Rows<E>(r: Registry, extra: Provider -> E): seq<Row<E>> {
    if r == [] then []
    else
      var last := r[|r| - 1];
      Rows(r[..|r| - 1], extra) + RowsOfModels(last, last.models, extra(last))
  }

  /** Each further provider adds the rows of its models, and each further model a row behind the
      provider's id and one behind its alias, as far as those are not empty; this settles the rows. */
  lemma RowsStep<E>(r: Registry, p: Provider, models: seq<Model>, m: Model, extra: Provider -> E)
    ensures Rows([], extra) == [] && RowsOfModels(p, [], extra(p)) == []
    ensures Rows(r + [p], extra) == Rows(r, extra) + RowsOfModels(p, p.models, extra(p))
    ensures RowsOfModels(p, models + [m], extra(p)) ==
            RowsOfModels(p, models, extra(p))
            + (if p.id != "" then [Row(p.id + "/" + m.id, m.name, p.id, extra(p))] else [])
            + (if p.alias.Some? && p.alias.value != ""
               then [Row(p.alias.value + "/" + m.id, m.name, p.id, extra(p))] else [])
  {
    assert (r + [p])[..|r|] == r && (models + [m])[..|models|] == models;
    assert RowsOfModel(p, m, extra(p)) ==
           (if p.id != "" then [Row(p.id + "/" + m.id, m.name, p.id, extra(p))] else [])
           + (if HasAlias(p) then [Row(p.alias.value + "/" + m.id, m.name, p.id, extra(p))] else []);
  }

  /** The provider answers to a prefix, by its id or by its alias. */
  predicate Owns(p: Provider, prefix: string) {
    p.id == prefix || (HasAlias(p) && p.alias.value == prefix)
  }

  predicate SlashFree(r: Registry) {
    forall i :: 0 <= i < |r| ==> '/' !in r[i].id && (HasAlias(r[i]) ==> '/' !in r[i].alias.value)
  }

  /** The first provider that owns a prefix. */
  function FirstOwner(r: Registry, prefix: string): Option<string> {
    if r == [] then None
    else if Owns(r[0], prefix) then Some(r[0].id)
    else FirstOwner(r[1..], prefix)
  }

  lemma SlashFreePrefix(prefix: string, other: string, model: string)
    requires '/' !in prefix && '/' !in other
    ensures HasPrefix(prefix + "/" + model, other) <==> other == prefix
  {
    var s := prefix + ['/'] + model;
    IndexOfAfter(prefix, '/', model);
    if HasPrefix(s, other) {
      assert s == other + ['/'] + s[|other| + 1..];
      IndexOfAfter(other, '/', s[|other| + 1..]);
      assert s[..|other|] == other && s[..|prefix|] == prefix;
    }
  }

  /** With slash-free prefixes, a prefixed string parses to the first owner of the prefix, and
      the model is the whole rest. */
  lemma {:induction false} ParsePrefixSpec(r: Registry, prefix: string, model: string)
    requires SlashFree(r) && '/' !in prefix
    ensures ParsePrefix(r, prefix + "/" + model) ==
            if FirstOwner(r, prefix).Some? then Some(Parsed(FirstOwner(r, prefix), Some(model))) else None
  {
    if r != [] {
      var s := prefix + "/" + model;
      assert s[|prefix| + 1..] == model;
      SlashFreePrefix(prefix, r[0].id, model);
      if HasAlias(r[0]) {
        SlashFreePrefix(prefix, r[0].alias.value, model);
      }
      ParsePrefixSpec(r[1..], prefix, model);
    }
  }

  lemma {:induction false} RowSource<E>(r: Registry, extra: Provider -> E, k: nat)
    returns (i: nat, j: nat, prefix: string)
    requires k < |Rows(r, extra)|
    ensures i < |r| && j < |r[i].models| && prefix in Prefixes(r[i])
    ensures Rows(r, extra)[k] == Row(prefix + "/" + r[i].models[j].id, r[i].models[j].name, r[i].id, extra(r[i]))
  {
    var init, last := r[..|r| - 1], r[|r| - 1];
    if k < |Rows(init, extra)| {
      i, j, prefix := RowSource(init, extra, k);
    } else {
      i := |init|;
      j, prefix := ModelRowSource(last, last.models, extra(last), k - |Rows(init, extra)|);
    }
  }

  lemma {:induction false} ModelRowSource<E>(p: Provider, models: seq<Model>, extra: E, k: nat)
    returns (j: nat, prefix: string)
    requires k < |RowsOfModels(p, models, extra)|
    ensures j < |models| && prefix in Prefixes(p)
    ensures RowsOfModels(p, models, extra)[k] == Row(prefix + "/" + models[j].id, models[j].name, p.id, extra)
  {
    var init, last := models[..|models| - 1], models[|models| - 1];
    if k < |RowsOfModels(p, init, extra)| {
      j, prefix := ModelRowSource(p, init, extra, k);
    } else {
      j := |init|;
      prefix := Prefixes(p)[k - |RowsOfModels(p, init, extra)|];
    }
  }

  /** No two providers answer to one prefix. */
  predicate DistinctPrefixes(r: Registry) {
    forall i, j :: 0 <= i < j < |r| ==> !Owns(r[j], r[i].id) && (HasAlias(r[i]) ==> !Owns(r[j], r[i].alias.value))
  }

  lemma {:induction false} OnlyOwner(r: Registry, i: nat, prefix: string)
    requires DistinctPrefixes(r) && i < |r| && Owns(r[i], prefix)
    ensures FirstOwner(r, prefix) == Some(r[i].id)
  {
    if i > 0 {
      assert !Owns(r[0], prefix);
      OnlyOwner(r[1..], i - 1, prefix);
    }
  }

  /** Every id the flat catalogue prints, by provider id or by alias, parses back to its provider
      and model, when prefixes are slash-free and no two providers share one. */
  lemma CatalogueParsesBack<E>(r: Registry, extra: Provider -> E, k: nat) returns (i: nat, j: nat)
    requires SlashFree(r) && DistinctPrefixes(r) && k < |Rows(r, extra)|
    ensures i < |r| && j < |r[i].models|
    ensures var row := Rows(r, extra)[k];
            && row.provider == r[i].id && row.name == r[i].models[j].name && row.extra == extra(r[i])
            && Parse(r, Some(row.id)) == Parsed(Some(r[i].id), Some(r[i].models[j].id))
  {
    var prefix;
    i, j, prefix := RowSource(r, extra, k);
    ParsePrefixSpec(r, prefix, r[i].models[j].id);
    OnlyOwner(r, i, prefix);
  }

  method AppendModelRows<E>(rows: seq<Row<E>>, p: Provider, m: Model, extra: E) returns (out: seq<Row<E>>)
    ensures out == rows + RowsOfModel(p, m, extra)
  {
    out := rows;
    var prefixes := Prefixes(p);
    var x := 0;
    while x < |prefixes|
      invariant 0 <= x <= |prefixes|
      invariant out == rows + RowsOfModel(p, m, extra)[..x]
    {
      out := out + [Row(prefixes[x] + "/" + m.id, m.name, p.id, extra)];
      x := x + 1;
    }
    assert RowsOfModel(p, m, extra)[..x] == RowsOfModel(p, m, extra);
  }

  method GetAllModels<E>(r: Registry, extra: Provider -> E) returns (rows: seq<Row<E>>)
    ensures rows == Rows(r, extra)
  {
    rows := [];
    var i := 0;
    while i < |r|
      invariant 0 <= i <= |r|
      invariant rows == Rows(r[..i], extra)
    {
      var p := r[i];
      var fields := extra(p);
      ghost var before := rows;
      var j := 0;
      while j < |p.models|
        invariant 0 <= j <= |p.models|
        invariant rows == before + RowsOfModels(p, p.models[..j], fields)
      {
        assert p.models[..j + 1][..j] == p.models[..j];
        rows := AppendModelRows(rows, p, p.models[j], fields);
        j := j + 1;
      }
      assert p.models[..j] == p.models;
      assert r[..i + 1][..i] == r[..i];
      i := i + 1;
    }
    assert r[..i] == r;
  }
}
