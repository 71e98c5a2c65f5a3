/**
 * Provider-scoped model ids of the embedding and rerank registries: one function prints
 * `provider/model` for the catalogue, another parses it.
 */
module ScopedModelIds {
  import opened Options
  import opened Text
  import opened Sequences

  datatype Model = Model(id: string, dimensions: Option<int>)
  datatype Provider = Provider(id: string, models: seq<Model>)

  /** A registry in the order of its entries, with aliases for provider ids and for model strings. */
  datatype Registry = Registry(
    providers: seq<Provider>,
    providerAliases: map<string, string>,
    modelAliases: seq<(string, string)>)

  datatype Parsed = Parsed(provider: Option<string>, model: Option<string>)

  function Resolve(r: Registry, id: string): string {
    if id in r.providerAliases && r.providerAliases[id] != "" then r.providerAliases[id] else id
  }

  function Find(providers: seq<Provider>, id: string): Option<Provider> {
    if providers == [] then None
    else if providers[0].id == id then Some(providers[0])
    else Find(providers[1..], id)
  }

  predicate Lists(p: Provider, id: string) {
    exists i :: 0 <= i < |p.models| && p.models[i].id == id
  }

  predicate ListedBy(r: Registry, provider: string, id: string) {
    var p := Find(r.providers, provider);
    p.Some? && Lists(p.value, id)
  }

  /** A prefix of a model string: an id and a slash. */
  predicate HasPrefix(s: string, id: string) {
    id + "/" <= s
  }

  function AfterPrefix(s: string, id: string): string
    requires HasPrefix(s, id)
  {
    s[|id| + 1..]
  }

  function NormalizeScoped(r: Registry, provider: string, model: string): string {
    var resolved := Resolve(r, provider);
    if ListedBy(r, resolved, model) then model
    else if ListedBy(r, resolved, resolved + "/" + model) then resolved + "/" + model
    else if HasPrefix(model, provider) then AfterPrefix(model, provider)
    else model
  }

  /** The id the catalogue prints. */
  function ToScoped(provider: string, model: string): string {
    if HasPrefix(model, provider) then model else provider + "/" + model
  }

  /** The first alias that applies: an exact one, or a slash-free one after a slash. */
  function ApplyModelAliases(aliases: seq<(string, string)>, s: string): string {
    if aliases == [] then s
    else
      var (alias, canonical) := aliases[0];
      if s == alias then canonical
      else if '/' !in alias && EndsWith(s, "/" + alias) then
        // slicing by minus zero keeps nothing
        (if alias == "" then "" else s[..|s| - |alias|]) + canonical
      else ApplyModelAliases(aliases[1..], s)
  }

  /** The first provider whose id is a prefix of the string. */
  function FirstPrefix(providers: seq<Provider>, s: string): (r: Option<string>)
    ensures r.Some? ==> HasPrefix(s, r.value)
  {
    if providers == [] then None
    else if HasPrefix(s, providers[0].id) then Some(providers[0].id)
    else FirstPrefix(providers[1..], s)
  }

  function FirstDynamicPrefix(ids: seq<string>, s: string): (r: Option<string>)
    ensures r.Some? ==> HasPrefix(s, r.value)
  {
    if ids == [] then None
    else if HasPrefix(s, ids[0]) then Some(ids[0])
    else FirstDynamicPrefix(ids[1..], s)
  }

  function FirstListing(providers: seq<Provider>, s: string): Option<string> {
    if providers == [] then None
    else if Lists(providers[0], s) then Some(providers[0].id)
    else FirstListing(providers[1..], s)
  }

  function Scoped(r: Registry, provider: string, model: string): Parsed {
    Parsed(Some(provider), Some(NormalizeScoped(r, provider, model)))
  }

  function Bare(r: Registry, s: string): Parsed {
    Parsed(FirstListing(r.providers, s), Some(s))
  }

  /** The parser behind the model aliases. */
  function ParseCanonical(r: Registry, s: string, dynamic: seq<string>): Parsed {
    var slash := IndexOf(s, '/');
    if 0 < slash < |s| then
      var resolved := Resolve(r, s[..slash]);
      if Find(r.providers, resolved).Some? then Scoped(r, resolved, s[slash + 1..])
      else if FirstPrefix(r.providers, s).Some? then
        var id := FirstPrefix(r.providers, s).value;
        Scoped(r, id, AfterPrefix(s, id))
      else if FirstDynamicPrefix(dynamic, s).Some? then
        var id := FirstDynamicPrefix(dynamic, s).value;
        Parsed(Some(id), Some(AfterPrefix(s, id)))
      else Parsed(Some(s[..slash]), Some(s[slash + 1..]))
    else Bare(r, s)
  }

  function ParseEmbedding(r: Registry, modelStr: Option<string>, dynamic: seq<string>): Parsed {
    if modelStr.None? || modelStr.value == "" then Parsed(None, None)
    else ParseCanonical(r, ApplyModelAliases(r.modelAliases, modelStr.value), dynamic)
  }

  function ParseRerank(r: Registry, modelStr: Option<string>): Parsed {
    if modelStr.None? || modelStr.value == "" then Parsed(None, None)
    else
      var s := modelStr.value;
      var slash := IndexOf(s, '/');
      if 0 < slash < |s| && Find(r.providers, Resolve(r, s[..slash])).Some?
      then Scoped(r, Resolve(r, s[..slash]), s[slash + 1..])
      else if FirstPrefix(r.providers, s).Some? then
        var id := FirstPrefix(r.providers, s).value;
        Scoped(r, id, AfterPrefix(s, id))
      else Bare(r, s)
  }

  // ----- What a string parses to, for any registry.

  /** An id stands for a provider: its alias does, or it has none and is the provider's own. */
  predicate StandsFor(r: Registry, id: string, provider: string) {
    if id in r.providerAliases && r.providerAliases[id] != "" then r.providerAliases[id] == provider
    else id == provider
  }

  /** The first provider that lists the model. */
  predicate IsFirstLister(providers: seq<Provider>, model: string, i: nat) {
    i < |providers| && Lists(providers[i], model) && forall j :: 0 <= j < i ==> !Lists(providers[j], model)
  }

  predicate NoneLists(providers: seq<Provider>, model: string) {
    forall i :: 0 <= i < |providers| ==> !Lists(providers[i], model)
  }

  function Ids(providers: seq<Provider>): (ids: seq<string>)
    ensures |ids| == |providers|
  {
    seq(|providers|, i requires 0 <= i < |providers| => providers[i].id)
  }

  /** The first of the ids that the string has before a slash. */
  predicate IsFirstPrefix(ids: seq<string>, s: string, i: nat) {
    i < |ids| && HasPrefix(s, ids[i]) && forall j :: 0 <= j < i ==> !HasPrefix(s, ids[j])
  }

  predicate NonePrefixes(ids: seq<string>, s: string) {
    forall i :: 0 <= i < |ids| ==> !HasPrefix(s, ids[i])
  }

  /** The first provider of this id. */
  predicate IsProvider(r: Registry, id: string, i: nat) {
    i < |r.providers| && r.providers[i].id == id && forall j :: 0 <= j < i ==> r.providers[j].id != id
  }

  ghost predicate IsListedUnder(r: Registry, id: string, model: string) {
    exists i: nat :: IsProvider(r, id, i) && Lists(r.providers[i], model)
  }

  /** The model that `rest` names behind a provider's id: itself when listed, itself behind the id when
      that is listed, and otherwise what follows the id in it, or itself. */
  ghost predicate NamesWithin(r: Registry, id: string, rest: string, model: string) {
    exists provider :: StandsFor(r, id, provider) &&
      if IsListedUnder(r, provider, rest) then model == rest
      else if IsListedUnder(r, provider, provider + "/" + rest) then model == provider + "/" + rest
      else if HasPrefix(rest, id) then rest == id + "/" + model
      else model == rest
  }

  /** The id stands for a provider of the registry. */
  ghost predicate IsKnown(r: Registry, id: string) {
    exists i: nat :: i < |r.providers| && StandsFor(r, id, r.providers[i].id)
  }

  ghost predicate ParsesWithin(r: Registry, id: string, rest: string, parsed: Parsed) {
    parsed.provider == Some(id) && parsed.model.Some? && NamesWithin(r, id, rest, parsed.model.value)
  }

  /** A bare string is a model of the first provider that lists it, or of none. */
  ghost predicate ParsesBare(r: Registry, s: string, parsed: Parsed) {
    && parsed.model == Some(s)
    && (forall i: nat :: IsFirstLister(r.providers, s, i) ==> parsed.provider == Some(r.providers[i].id))
    && (NoneLists(r.providers, s) ==> parsed.provider.None?)
  }

  lemma {:induction false} FirstListingIff(providers: seq<Provider>, model: string)
    ensures forall i: nat :: IsFirstLister(providers, model, i) ==>
              FirstListing(providers, model) == Some(providers[i].id)
    ensures NoneLists(providers, model) <==> FirstListing(providers, model).None?
  {
    if providers != [] {
      FirstListingIff(providers[1..], model);
      assert forall i :: 0 < i < |providers| ==> providers[i] == providers[1..][i - 1];
      forall i: nat | IsFirstLister(providers, model, i)
        ensures FirstListing(providers, model) == Some(providers[i].id)
      {
        if i > 0 { assert IsFirstLister(providers[1..], model, i - 1); }
      }
      assert NoneLists(providers, model) <==> !Lists(providers[0], model) && NoneLists(providers[1..], model);
    }
  }

  lemma {:induction false} SomeFirstLister(providers: seq<Provider>, model: string) returns (i: nat)
    requires !NoneLists(providers, model)
    ensures IsFirstLister(providers, model, i)
  {
    i := 0;
    if !Lists(providers[0], model) {
      assert forall k :: 0 < k < |providers| ==> providers[k] == providers[1..][k - 1];
      i := SomeFirstLister(providers[1..], model);
      i := i + 1;
    }
  }

  lemma BareSpec(r: Registry, s: string)
    ensures ParsesBare(r, s, Bare(r, s))
  {
    FirstListingIff(r.providers, s);
  }

  lemma {:induction false} FirstOfIds(ids: seq<string>, s: string)
    ensures forall i: nat :: IsFirstPrefix(ids, s, i) ==> FirstDynamicPrefix(ids, s) == Some(ids[i])
    ensures NonePrefixes(ids, s) <==> FirstDynamicPrefix(ids, s).None?
  {
    if ids != [] {
      FirstOfIds(ids[1..], s);
      assert forall i :: 0 < i < |ids| ==> ids[i] == ids[1..][i - 1];
      forall i: nat | IsFirstPrefix(ids, s, i) ensures FirstDynamicPrefix(ids, s) == Some(ids[i]) {
        if i > 0 { assert IsFirstPrefix(ids[1..], s, i - 1); }
      }
      assert NonePrefixes(ids, s) <==> !HasPrefix(s, ids[0]) && NonePrefixes(ids[1..], s);
    }
  }

  lemma {:induction false} FirstPrefixIsOfIds(providers: seq<Provider>, s: string)
    ensures FirstPrefix(providers, s) == FirstDynamicPrefix(Ids(providers), s)
  {
    if providers != [] {
      FirstPrefixIsOfIds(providers[1..], s);
      assert Ids(providers)[1..] == Ids(providers[1..]);
    }
  }

  lemma {:induction false} FindIsFirst(providers: seq<Provider>, id: string) returns (i: nat)
    ensures Find(providers, id).Some? ==>
              && i < |providers| && providers[i].id == id && Find(providers, id) == Some(providers[i])
              && forall j :: 0 <= j < i ==> providers[j].id != id
    ensures Find(providers, id).None? ==> forall j :: 0 <= j < |providers| ==> providers[j].id != id
  {
    i := 0;
    if providers != [] && providers[0].id != id {
      i := FindIsFirst(providers[1..], id);
      assert forall j :: 0 < j < |providers| ==> providers[j] == providers[1..][j - 1];
      i := i + 1;
    }
  }

  lemma OneProvider(r: Registry, id: string, i: nat, j: nat)
    requires IsProvider(r, id, i) && IsProvider(r, id, j)
    ensures i == j
  {
  }

  lemma ListedByIff(r: Registry, id: string, model: string)
    ensures ListedBy(r, id, model) <==> IsListedUnder(r, id, model)
  {
    var i := FindIsFirst(r.providers, id);
    if Find(r.providers, id).Some? {
      assert IsProvider(r, id, i);
      forall j: nat | IsProvider(r, id, j) ensures i == j { OneProvider(r, id, i, j); }
    }
  }

  lemma ResolvedStandsFor(r: Registry, id: string)
    ensures StandsFor(r, id, Resolve(r, id))
    ensures IsKnown(r, id) <==> Find(r.providers, Resolve(r, id)).Some?
  {
    var i := FindIsFirst(r.providers, Resolve(r, id));
  }

  lemma NormalizeSpec(r: Registry, id: string, rest: string)
    ensures NamesWithin(r, id, rest, NormalizeScoped(r, id, rest))
  {
    var provider := Resolve(r, id);
    ResolvedStandsFor(r, id);
    ListedByIff(r, provider, rest);
    ListedByIff(r, provider, provider + "/" + rest);
    if HasPrefix(rest, id) {
      assert rest == id + "/" + AfterPrefix(rest, id);
    }
  }

  /** The string is taken apart behind the provider that its first segment stands for. */
  ghost predicate ParsesBehind(r: Registry, segment: string, rest: string, parsed: Parsed) {
    exists id :: StandsFor(r, segment, id) && ParsesWithin(r, id, rest, parsed)
  }

  lemma BehindSpec(r: Registry, segment: string, rest: string)
    ensures ParsesBehind(r, segment, rest, Scoped(r, Resolve(r, segment), rest))
  {
    ResolvedStandsFor(r, segment);
    NormalizeSpec(r, Resolve(r, segment), rest);
  }

  /** The string is taken apart behind the first provider id that it has before a slash. */
  ghost predicate ParsesPrefixed(r: Registry, s: string, parsed: Parsed) {
    forall i: nat :: IsFirstPrefix(Ids(r.providers), s, i) ==>
      ParsesWithin(r, Ids(r.providers)[i], AfterPrefix(s, Ids(r.providers)[i]), parsed)
  }

  lemma PrefixSpec(r: Registry, s: string)
    ensures var id := FirstPrefix(r.providers, s);
            && (NonePrefixes(Ids(r.providers), s) <==> id.None?)
            && (id.Some? ==> ParsesPrefixed(r, s, Scoped(r, id.value, AfterPrefix(s, id.value))))
  {
    var id, ids := FirstPrefix(r.providers, s), Ids(r.providers);
    FirstPrefixIsOfIds(r.providers, s);
    FirstOfIds(ids, s);
    if id.Some? {
      NormalizeSpec(r, id.value, AfterPrefix(s, id.value));
      var parsed := Scoped(r, id.value, AfterPrefix(s, id.value));
      assert ParsesWithin(r, id.value, AfterPrefix(s, id.value), parsed);
      forall i: nat | IsFirstPrefix(ids, s, i) ensures ParsesWithin(r, ids[i], AfterPrefix(s, ids[i]), parsed) {
        assert ids[i] == id.value;
      }
    }
  }

  /** Behind the first of the caller's ids that the string has before a slash, the rest is the model. */
  ghost predicate ParsesDynamic(dynamic: seq<string>, s: string, parsed: Parsed) {
    forall i: nat :: IsFirstPrefix(dynamic, s, i) ==>
      parsed == Parsed(Some(dynamic[i]), Some(s[|dynamic[i]| + 1..]))
  }

  lemma DynamicSpec(dynamic: seq<string>, s: string)
    ensures var id := FirstDynamicPrefix(dynamic, s);
            && (NonePrefixes(dynamic, s) <==> id.None?)
            && (id.Some? ==> ParsesDynamic(dynamic, s, Parsed(id, Some(AfterPrefix(s, id.value)))))
  {
    FirstOfIds(dynamic, s);
  }

  /**
   * The embedding parser in full, behind the model aliases. A string with a first segment is taken
   * apart behind the provider that the segment stands for; else behind the first provider id that
   * it has before a slash; else behind the first such id of the caller's; else behind the segment.
   */
  lemma ParseSpec(r: Registry, s: string, dynamic: seq<string>)
    ensures var parsed, slash := ParseCanonical(r, s, dynamic), IndexOf(s, '/');
            if !(0 < slash < |s|) then ParsesBare(r, s, parsed)
            else if IsKnown(r, s[..slash]) then ParsesBehind(r, s[..slash], s[slash + 1..], parsed)
            else if !NonePrefixes(Ids(r.providers), s) then ParsesPrefixed(r, s, parsed)
            else if !NonePrefixes(dynamic, s) then ParsesDynamic(dynamic, s, parsed)
            else parsed == Parsed(Some(s[..slash]), Some(s[slash + 1..]))
    ensures forall sent :: sent != "" && ApplyModelAliases(r.modelAliases, sent) == s ==>
              ParseEmbedding(r, Some(sent), dynamic) == ParseCanonical(r, s, dynamic)
    ensures ParseEmbedding(r, None, dynamic) == ParseEmbedding(r, Some(""), dynamic) == Parsed(None, None)
  {
    var slash := IndexOf(s, '/');
    if 0 < slash < |s| {
      ResolvedStandsFor(r, s[..slash]);
      BehindSpec(r, s[..slash], s[slash + 1..]);
      PrefixSpec(r, s);
      DynamicSpec(dynamic, s);
    } else {
      BareSpec(r, s);
    }
  }

  /** The rerank parser in full: no ids of the caller's, and a string with none of these is bare. */
  lemma ParseRerankSpec(r: Registry, s: string)
    requires s != ""
    ensures var parsed, slash := ParseRerank(r, Some(s)), IndexOf(s, '/');
            if 0 < slash < |s| && IsKnown(r, s[..slash]) then ParsesBehind(r, s[..slash], s[slash + 1..], parsed)
            else if !NonePrefixes(Ids(r.providers), s) then ParsesPrefixed(r, s, parsed)
            else ParsesBare(r, s, parsed)
  {
    var slash := IndexOf(s, '/');
    if 0 < slash < |s| {
      ResolvedStandsFor(r, s[..slash]);
    }
    PrefixSpec(r, s);
    if 0 < slash < |s| && IsKnown(r, s[..slash]) {
      BehindSpec(r, s[..slash], s[slash + 1..]);
    } else if NonePrefixes(Ids(r.providers), s) {
      BareSpec(r, s);
    }
  }

  // ----- Model aliases.

  /** The alias is the last part of the string, behind a slash. */
  predicate IsLastPart(before: string, alias: string, s: string) {
    s == before + "/" + alias
  }

  /** The alias is the string, or its last part behind a slash when it has no slash itself. */
  ghost predicate IsAliasOf(alias: string, s: string) {
    s == alias || ('/' !in alias && exists before :: IsLastPart(before, alias, s))
  }

  /** What an alias makes of a string: it is replaced in its place; an empty one behind a slash takes all. */
  ghost predicate IsRenamed(alias: string, canonical: string, s: string, renamed: string) {
    if s == alias || alias == "" then renamed == canonical
    else exists before :: IsLastPart(before, alias, s) && IsLastPart(before, canonical, renamed)
  }

  ghost predicate IsFirstAlias(aliases: seq<(string, string)>, s: string, i: nat) {
    i < |aliases| && IsAliasOf(aliases[i].0, s) && forall j :: 0 <= j < i ==> !IsAliasOf(aliases[j].0, s)
  }

  lemma EndsBehindSlash(s: string, alias: string)
    ensures EndsWith(s, "/" + alias) <==> exists before :: IsLastPart(before, alias, s)
    ensures EndsWith(s, "/" + alias) ==> IsLastPart(s[..|s| - |alias| - 1], alias, s)
  {
    if EndsWith(s, "/" + alias) {
      var k := |s| - |alias| - 1;
      assert s == s[..k] + s[k..] && s[k..] == "/" + alias;
      assert s[..k] + ("/" + alias) == s[..k] + "/" + alias;
      assert IsLastPart(s[..k], alias, s);
    }
    if before :| IsLastPart(before, alias, s) {
      assert s == before + ("/" + alias);
    }
  }

  lemma RenamedInPlace(s: string, alias: string, canonical: string)
    requires EndsWith(s, "/" + alias) && s != alias && alias != ""
    ensures IsRenamed(alias, canonical, s, s[..|s| - |alias|] + canonical)
  {
    var before := s[..|s| - |alias| - 1];
    EndsBehindSlash(s, alias);
    assert IsLastPart(before, alias, s);
    assert s[..|s| - |alias|] == before + "/" by {
      assert s == before + "/" + alias;
    }
    assert IsLastPart(before, canonical, s[..|s| - |alias|] + canonical);
  }

  /** The first alias of a string renames it; without one it is left alone. */
  lemma {:induction false} AliasSpec(aliases: seq<(string, string)>, s: string)
    ensures forall i: nat :: IsFirstAlias(aliases, s, i) ==>
              IsRenamed(aliases[i].0, aliases[i].1, s, ApplyModelAliases(aliases, s))
    ensures (forall i :: 0 <= i < |aliases| ==> !IsAliasOf(aliases[i].0, s)) ==> ApplyModelAliases(aliases, s) == s
  {
    if aliases != [] {
      var (alias, canonical) := aliases[0];
      EndsBehindSlash(s, alias);
      if IsAliasOf(alias, s) {
        if s != alias && alias != "" { RenamedInPlace(s, alias, canonical); }
        assert "" + canonical == canonical;
        assert forall i: nat :: IsFirstAlias(aliases, s, i) ==> i == 0;
      } else {
        AliasSpec(aliases[1..], s);
        assert forall i :: 0 < i < |aliases| ==> aliases[i] == aliases[1..][i - 1];
        forall i: nat | IsFirstAlias(aliases, s, i) ensures IsFirstAlias(aliases[1..], s, i - 1) {
        }
      }
    }
  }

  // ----- The round trip.

  /** The provider can be named by its own id: slash-free, not empty, and no alias of another. */
  predicate Nameable(r: Registry, p: Provider) {
    p.id != "" && '/' !in p.id && p.id !in r.providerAliases && Find(r.providers, p.id) == Some(p)
  }

  /** The provider lists a model both as `x` and as `provider/x`, and `model` is the latter. */
  predicate ShadowedByBareId(p: Provider, model: string) {
    HasPrefix(model, p.id) && Lists(p, AfterPrefix(model, p.id))
  }

  /** A printed id splits at its first slash into the provider and the rest. */
  lemma PrintedSplits(provider: string, model: string)
    requires '/' !in provider
    ensures var s := ToScoped(provider, model);
            && HasPrefix(s, provider)
            && IndexOf(s, '/') == |provider| < |s|
            && s[..|provider|] == provider
            && s[|provider| + 1..] == if HasPrefix(model, provider) then AfterPrefix(model, provider) else model
  {
    var s := ToScoped(provider, model);
    var rest := if HasPrefix(model, provider) then AfterPrefix(model, provider) else model;
    assert s == provider + ['/'] + rest;
    IndexOfAfter(provider, '/', rest);
  }

  lemma NormalizeBack(r: Registry, p: Provider, model: string)
    requires Nameable(r, p) && Lists(p, model)
    ensures var rest := if HasPrefix(model, p.id) then AfterPrefix(model, p.id) else model;
            NormalizeScoped(r, p.id, rest) == model <==> !ShadowedByBareId(p, model)
  {
    if HasPrefix(model, p.id) {
      assert p.id + "/" + AfterPrefix(model, p.id) == model;
    }
  }

  /** Every provider can be named. */
  ghost predicate AllNameable(r: Registry) {
    forall i :: 0 <= i < |r.providers| ==> Nameable(r, r.providers[i])
  }

  /** What follows the provider names this model: the model itself, its id without the provider's,
      or its id behind the provider's once more, as long as nothing nearer is listed. */
  predicate RestNames(p: Provider, rest: string, model: string) {
    || rest == model
    || (!Lists(p, rest) && p.id + "/" + rest == model)
    || (!Lists(p, rest) && !Lists(p, p.id + "/" + rest) && rest == p.id + "/" + model)
  }

  /** The string names this model of the provider: behind the provider's id or one of its aliases, or
      bare, when no earlier provider lists it. */
  predicate Names(r: Registry, p: Provider, model: string, s: string) {
    var slash := IndexOf(s, '/');
    if 0 < slash < |s| then StandsFor(r, s[..slash], p.id) && RestNames(p, s[slash + 1..], model)
    else
      && s == model
      && exists i :: 0 <= i < |r.providers| && IsFirstLister(r.providers, s, i) && r.providers[i].id == p.id
  }

  lemma {:induction false} FirstPrefixOfNameable(providers: seq<Provider>, s: string, slash: nat)
    requires slash == IndexOf(s, '/') < |s|
    requires forall i :: 0 <= i < |providers| ==> '/' !in providers[i].id
    ensures FirstPrefix(providers, s).Some? ==>
              && FirstPrefix(providers, s).value == s[..slash]
              && exists i :: 0 <= i < |providers| && providers[i].id == s[..slash]
  {
    if providers != [] {
      var id := providers[0].id;
      if HasPrefix(s, id) {
        PrefixIsHead(s, id);
      } else {
        FirstPrefixOfNameable(providers[1..], s, slash);
        if FirstPrefix(providers, s).Some? {
          var i :| 0 <= i < |providers[1..]| && providers[1..][i].id == s[..slash];
          assert providers[i + 1].id == s[..slash];
        }
      }
    }
  }

  /** A slash-free id that is a prefix of a string is its first segment. */
  lemma PrefixIsHead(s: string, id: string)
    requires HasPrefix(s, id) && '/' !in id
    ensures IndexOf(s, '/') == |id| < |s| && s[..|id|] == id
  {
    assert s == id + ['/'] + s[|id| + 1..];
    IndexOfAfter(id, '/', s[|id| + 1..]);
  }

  lemma DynamicPrefixOf(ids: seq<string>, s: string, id: string)
    requires '/' !in id && FirstDynamicPrefix(ids, s) == Some(id)
    ensures IndexOf(s, '/') == |id| < |s| && s[..|id|] == id
  {
    PrefixIsHead(s, id);
  }

  lemma RestNamesIff(r: Registry, p: Provider, rest: string, model: string)
    requires Nameable(r, p) && Lists(p, model)
    ensures NormalizeScoped(r, p.id, rest) == model <==> RestNames(p, rest, model)
  {
    if HasPrefix(rest, p.id) {
      assert rest == p.id + "/" + AfterPrefix(rest, p.id);
    }
    if rest == p.id + "/" + model {
      assert HasPrefix(rest, p.id) && AfterPrefix(rest, p.id) == model;
    }
  }

  /** With nameable providers, any string parses to a listed model of a provider exactly when it names it. */
  lemma ParsesToIff(r: Registry, p: Provider, model: string, s: string, dynamic: seq<string>)
    requires AllNameable(r) && Nameable(r, p) && Lists(p, model)
    ensures ParseCanonical(r, s, dynamic) == Parsed(Some(p.id), Some(model)) <==> Names(r, p, model, s)
  {
    var slash := IndexOf(s, '/');
    if 0 < slash < |s| {
      var head, rest := s[..slash], s[slash + 1..];
      var resolved := Resolve(r, head);
      RestNamesIff(r, p, rest, model);
      if Find(r.providers, resolved).None? {
        HeadIsNoProvider(r, head);
        FirstPrefixOfNameable(r.providers, s, slash);
        if FirstDynamicPrefix(dynamic, s) == Some(p.id) {
          DynamicPrefixOf(dynamic, s, p.id);
        }
      }
    } else {
      FirstListingIff(r.providers, s);
      if FirstListing(r.providers, s).Some? {
        var i := SomeFirstLister(r.providers, s);
      }
    }
  }

  /** A segment that resolves to no provider is no provider's id. */
  lemma HeadIsNoProvider(r: Registry, head: string)
    requires AllNameable(r) && Find(r.providers, Resolve(r, head)).None?
    ensures forall i :: 0 <= i < |r.providers| ==> r.providers[i].id != head
  {
  }

  /** A printed id names its model exactly when the provider does not also list the bare id. */
  lemma PrintedNamesIff(r: Registry, p: Provider, model: string)
    requires Nameable(r, p) && Lists(p, model)
    ensures Names(r, p, model, ToScoped(p.id, model)) <==> !ShadowedByBareId(p, model)
  {
    PrintedSplits(p.id, model);
    NormalizeBack(r, p, model);
    RestNamesIff(r, p, if HasPrefix(model, p.id) then AfterPrefix(model, p.id) else model, model);
  }

  /**
   * A printed embedding id parses back to its provider and model, including models whose own id
   * starts with the provider's, exactly when what the model aliases make of it names that model.
   * When no alias renames it: exactly when the provider does not also list the bare id.
   */
  lemma EmbeddingRoundTripIff(r: Registry, p: Provider, model: string, dynamic: seq<string>)
    requires AllNameable(r) && Nameable(r, p) && Lists(p, model)
    ensures var s := ToScoped(p.id, model); var renamed := ApplyModelAliases(r.modelAliases, s);
            && (ParseEmbedding(r, Some(s), dynamic) == Parsed(Some(p.id), Some(model)) <==> Names(r, p, model, renamed))
            && (renamed == s ==> (Names(r, p, model, renamed) <==> !ShadowedByBareId(p, model)))
  {
    var s := ToScoped(p.id, model);
    PrintedSplits(p.id, model);
    ParsesToIff(r, p, model, ApplyModelAliases(r.modelAliases, s), dynamic);
    PrintedNamesIff(r, p, model);
  }

  /** The same for the rerank registry, which has no model aliases. */
  lemma RerankRoundTripIff(r: Registry, p: Provider, model: string)
    requires Nameable(r, p) && Lists(p, model)
    ensures ParseRerank(r, Some(ToScoped(p.id, model))) == Parsed(Some(p.id), Some(model))
            <==> !ShadowedByBareId(p, model)
  {
    PrintedSplits(p.id, model);
    NormalizeBack(r, p, model);
  }

  // ----- The flat catalogue.

  datatype Row = Row(id: string, provider: string, model: Model)

  function RowsOf(p: Provider): (rows: seq<Row>)
    ensures |rows| == |p.models|
  {
    seq(|p.models|, i requires 0 <= i < |p.models| => Row(ToScoped(p.id, p.models[i].id), p.id, p.models[i]))
  }

  function Rows(providers: seq<Provider>): seq<Row> {
    if providers == [] then [] else Rows(providers[..|providers| - 1]) + RowsOf(providers[|providers| - 1])
  }

  method GetAllModels(r: Registry) returns (rows: seq<Row>)
    ensures rows == Rows(r.providers)
  {
    rows := [];
    var i := 0;
    while i < |r.providers|
      invariant 0 <= i <= |r.providers|
      invariant rows == Rows(r.providers[..i])
    {
      var p := r.providers[i];
      ghost var before := rows;
      var j := 0;
      while j < |p.models|
        invariant 0 <= j <= |p.models|
        invariant rows == before + RowsOf(p)[..j]
      {
        rows := rows + [Row(ToScoped(p.id, p.models[j].id), p.id, p.models[j])];
        j := j + 1;
      }
      assert RowsOf(p)[..j] == RowsOf(p);
      assert r.providers[..i + 1][..i] == r.providers[..i];
      i := i + 1;
    }
    assert r.providers[..i] == r.providers;
  }

  /** How many models the first `i` providers list. */
  function Offset(providers: seq<Provider>, i: nat): nat
    requires i <= |providers|
  {
    if i == 0 then 0 else Offset(providers, i - 1) + |providers[i - 1].models|
  }

  lemma {:induction false} OffsetOfInit(providers: seq<Provider>, n: nat, i: nat)
    requires i <= n <= |providers|
    ensures Offset(providers[..n], i) == Offset(providers, i)
  {
    if i > 0 {
      OffsetOfInit(providers, n, i - 1);
    }
  }

  /** The catalogue lists every model of every provider, in order, and nothing else; a model is
      printed behind its provider's id, once. */
  lemma {:induction false} CatalogueLists(providers: seq<Provider>, i: nat, j: nat)
    requires i < |providers| && j < |providers[i].models|
    ensures |Rows(providers)| == Offset(providers, |providers|)
    ensures Offset(providers, i) + j < |Rows(providers)|
    ensures var row, p, m := Rows(providers)[Offset(providers, i) + j], providers[i], providers[i].models[j];
            && row.provider == p.id && row.model == m
            && row.id == if p.id + "/" <= m.id then m.id else p.id + "/" + m.id
  {
    var n := |providers| - 1;
    RowCount(providers);
    RowCount(providers[..n]);
    OffsetOfInit(providers, n, n);
    if i < n {
      CatalogueLists(providers[..n], i, j);
      OffsetOfInit(providers, n, i);
    } else {
      assert Rows(providers)[|Rows(providers[..n])| + j] == RowsOf(providers[n])[j];
    }
  }

  lemma {:induction false} RowCount(providers: seq<Provider>)
    ensures |Rows(providers)| == Offset(providers, |providers|)
  {
    if providers != [] {
      var n := |providers| - 1;
      RowCount(providers[..n]);
      OffsetOfInit(providers, n, n);
    }
  }

  /** Every provider can be named and lists no model both with and without its prefix. */
  ghost predicate WellNamed(r: Registry) {
    forall i :: 0 <= i < |r.providers| ==>
      && Nameable(r, r.providers[i])
      && forall j :: 0 <= j < |r.providers[i].models| ==>
           !ShadowedByBareId(r.providers[i], r.providers[i].models[j].id)
  }

  lemma {:induction false} RowHasSource(providers: seq<Provider>, k: nat) returns (i: nat, j: nat)
    requires k < |Rows(providers)|
    ensures i < |providers| && j < |providers[i].models|
    ensures Rows(providers)[k] == RowsOf(providers[i])[j]
  {
    var init := providers[..|providers| - 1];
    if k < |Rows(init)| {
      i, j := RowHasSource(init, k);
    } else {
      i, j := |init|, k - |Rows(init)|;
    }
  }

  /** Every id the rerank catalogue prints parses back to exactly the provider and model it came from. */
  lemma RerankCatalogueParsesBack(r: Registry, k: nat)
    requires WellNamed(r) && k < |Rows(r.providers)|
    ensures var row := Rows(r.providers)[k];
            ParseRerank(r, Some(row.id)) == Parsed(Some(row.provider), Some(row.model.id))
  {
    var i, j := RowHasSource(r.providers, k);
    var p := r.providers[i];
    assert Lists(p, p.models[j].id);
    RerankRoundTripIff(r, p, p.models[j].id);
  }

  /** An id the embedding catalogue prints does so exactly when what the model aliases make of it
      names that model; always, when they leave it alone. */
  lemma EmbeddingCatalogueParsesBackIff(r: Registry, k: nat, dynamic: seq<string>) returns (p: Provider)
    requires WellNamed(r) && k < |Rows(r.providers)|
    ensures var row := Rows(r.providers)[k]; var renamed := ApplyModelAliases(r.modelAliases, row.id);
            && p.id == row.provider && Lists(p, row.model.id) && Find(r.providers, p.id) == Some(p)
            && (ParseEmbedding(r, Some(row.id), dynamic) == Parsed(Some(row.provider), Some(row.model.id))
                <==> Names(r, p, row.model.id, renamed))
            && (renamed == row.id ==> Names(r, p, row.model.id, renamed))
  {
    var i, j := RowHasSource(r.providers, k);
    p := r.providers[i];
    assert Lists(p, p.models[j].id);
    EmbeddingRoundTripIff(r, p, p.models[j].id, dynamic);
  }

  // ----- Vector dimensions.

  function DimensionOf(models: seq<Model>, id: string): Option<int> {
    if models == [] then None
    else if models[0].id == id then models[0].dimensions
    else DimensionOf(models[1..], id)
  }

  /** The known dimension of a model string. */
  function Dimension(r: Registry, s: string): Option<int> {
    var parsed := ParseEmbedding(r, Some(s), []);
    if parsed.provider.None? || parsed.provider.value == "" || parsed.model.None? || parsed.model.value == "" then None
    else
      var p := Find(r.providers, Resolve(r, parsed.provider.value));
      if p.None? then None else DimensionOf(p.value.models, parsed.model.value)
  }

  /** The first model of this id. */
  predicate IsModel(models: seq<Model>, id: string, j: nat) {
    j < |models| && models[j].id == id && forall k :: 0 <= k < j ==> models[k].id != id
  }

  lemma {:induction false} DimensionOfIff(models: seq<Model>, id: string, d: int)
    ensures DimensionOf(models, id) == Some(d) <==>
            exists j: nat :: IsModel(models, id, j) && models[j].dimensions == Some(d)
  {
    if models != [] {
      if models[0].id == id {
        assert IsModel(models, id, 0);
        assert forall j: nat :: IsModel(models, id, j) ==> j == 0;
      } else {
        DimensionOfIff(models[1..], id, d);
        assert forall k :: 0 < k < |models| ==> models[k] == models[1..][k - 1];
        forall j: nat | IsModel(models[1..], id, j) ensures IsModel(models, id, j + 1) {
        }
        forall j: nat | IsModel(models, id, j) ensures IsModel(models[1..], id, j - 1) {
        }
      }
    }
  }

  /** A string has a dimension through this model: it names the model, and the model has it. */
  ghost predicate HasDimensionOf(r: Registry, s: string, d: int, p: Provider, j: nat) {
    && j < |p.models| && p.models[j].id != "" && p.models[j].dimensions == Some(d)
    && IsModel(p.models, p.models[j].id, j)
    && Names(r, p, p.models[j].id, ApplyModelAliases(r.modelAliases, s))
  }

  /** What is parsed as provider and found in the registry is the provider itself. */
  lemma ParsedProvider(r: Registry, s: string) returns (p: Provider)
    requires AllNameable(r)
    requires var parsed := ParseCanonical(r, s, []);
             parsed.provider.Some? && Find(r.providers, Resolve(r, parsed.provider.value)).Some?
    ensures p in r.providers && Find(r.providers, Resolve(r, p.id)) == Some(p)
    ensures ParseCanonical(r, s, []).provider == Some(p.id)
  {
    var parsed, slash := ParseCanonical(r, s, []), IndexOf(s, '/');
    var i := FindIsFirst(r.providers, Resolve(r, parsed.provider.value));
    p := r.providers[i];
    assert Nameable(r, p);
    if 0 < slash < |s| {
      var k := FindIsFirst(r.providers, Resolve(r, s[..slash]));
      if Find(r.providers, Resolve(r, s[..slash])).None? {
        HeadIsNoProvider(r, s[..slash]);
        FirstPrefixOfNameable(r.providers, s, slash);
      } else {
        assert Nameable(r, r.providers[k]);
      }
    } else {
      FirstListingIff(r.providers, s);
      var k := SomeFirstLister(r.providers, s);
      assert Nameable(r, r.providers[k]);
    }
  }

  /** With nameable providers, a string has a dimension exactly when it names a model that has it. */
  lemma DimensionIff(r: Registry, s: string, d: int)
    requires AllNameable(r) && s != ""
    ensures Dimension(r, s) == Some(d) <==> exists p, j: nat :: p in r.providers && HasDimensionOf(r, s, d, p, j)
  {
    var renamed := ApplyModelAliases(r.modelAliases, s);
    if Dimension(r, s) == Some(d) {
      var p := ParsedProvider(r, renamed);
      var model := ParseCanonical(r, renamed, []).model.value;
      DimensionOfIff(p.models, model, d);
      var j: nat :| IsModel(p.models, model, j) && p.models[j].dimensions == Some(d);
      assert Lists(p, model);
      var i :| 0 <= i < |r.providers| && r.providers[i] == p;
      ParsesToIff(r, p, model, renamed, []);
      assert HasDimensionOf(r, s, d, p, j);
    }
    if p, j: nat :| p in r.providers && HasDimensionOf(r, s, d, p, j) {
      var i :| 0 <= i < |r.providers| && r.providers[i] == p;
      var model := p.models[j].id;
      assert Lists(p, model);
      ParsesToIff(r, p, model, renamed, []);
      DimensionOfIff(p.models, model, d);
    }
  }

  ghost predicate StrictlyIncreasing(s: seq<int>) {
    forall i, j :: 0 <= i < j < |s| ==> s[i] < s[j]
  }

  function InsertDistinct(s: seq<int>, v: int): seq<int> {
    if s == [] then [v]
    else if v < s[0] then [v] + s
    else if v == s[0] then s
    else [s[0]] + InsertDistinct(s[1..], v)
  }

  lemma {:induction false} InsertDistinctSpec(s: seq<int>, v: int)
    requires StrictlyIncreasing(s)
    ensures StrictlyIncreasing(InsertDistinct(s, v))
    ensures forall x :: x in InsertDistinct(s, v) <==> x in s || x == v
  {
    if s != [] && v > s[0] {
      InsertDistinctSpec(s[1..], v);
      var tail := InsertDistinct(s[1..], v);
      assert s == [s[0]] + s[1..];
      forall i | 0 <= i < |tail| ensures s[0] < tail[i] {
        assert tail[i] in tail;
      }
    }
  }

  /** The dimension is known and is that of some listed string. */
  predicate DimensionListed(r: Registry, strs: seq<string>, d: int) {
    Known(Dimensions(r, strs), d)
  }

  predicate Known(dims: seq<Option<int>>, d: int) {
    exists i :: 0 <= i < |dims| && dims[i] == Some(d)
  }

  /** The dimensions of a list of model strings, position by position. */
  function Dimensions(r: Registry, strs: seq<string>): (dims: seq<Option<int>>)
    ensures |dims| == |strs|
    ensures forall i :: 0 <= i < |strs| ==> dims[i] == Dimension(r, strs[i])
  {
    seq(|strs|, i requires 0 <= i < |strs| => Dimension(r, strs[i]))
  }

  /** The distinct values of a record, in numerical order. */
  method SortedDistinct(values: map<string, int>) returns (distinct: seq<int>)
    ensures StrictlyIncreasing(distinct)
    ensures forall d :: d in distinct <==> exists s :: s in values && values[s] == d
  {
    distinct := [];
    var todo := values.Keys;
    while todo != {}
      invariant todo <= values.Keys
      invariant StrictlyIncreasing(distinct)
      invariant forall d :: d in distinct <==> exists s :: s in values && s !in todo && values[s] == d
      decreases |todo|
    {
      var s :| s in todo;
      ghost var before, was := distinct, todo;
      InsertDistinctSpec(distinct, values[s]);
      distinct := InsertDistinct(distinct, values[s]);
      todo := todo - {s};
      forall d ensures d in distinct <==> exists x :: x in values && x !in todo && values[x] == d {
        if d in before {
          var x :| x in values && x !in was && values[x] == d;
          assert x !in todo;
        }
        if d == values[s] {
          assert s in values && s !in todo;
        }
      }
    }
  }

  /** The conflict check: known dimensions by string, the distinct ones in order, and the flag,
      which holds exactly when two listed strings have known, different dimensions. */
  method DetectDimensionConflict(r: Registry, strs: seq<string>)
    returns (conflict: bool, dimensions: map<string, int>, distinct: seq<int>)
    ensures forall s :: s in dimensions <==> s in strs && Dimension(r, s).Some?
    ensures forall s :: s in dimensions ==> Dimension(r, s) == Some(dimensions[s])
    ensures StrictlyIncreasing(distinct)
    ensures forall d :: d in distinct <==> DimensionListed(r, strs, d)
    ensures conflict <==> TwoKnownDiffer(Dimensions(r, strs))
  {
    dimensions := map[];
    var i := 0;
    while i < |strs|
      invariant 0 <= i <= |strs|
      invariant forall s :: s in dimensions <==> s in strs[..i] && Dimension(r, s).Some?
      invariant forall s :: s in dimensions ==> Dimension(r, s) == Some(dimensions[s])
    {
      var d := Dimension(r, strs[i]);
      assert strs[..i + 1] == strs[..i] + [strs[i]];
      if d.Some? {
        dimensions := dimensions[strs[i] := d.value];
      }
      i := i + 1;
    }
    assert strs[..i] == strs;
    distinct := SortedDistinct(dimensions);
    forall d ensures d in distinct <==> DimensionListed(r, strs, d) {
      if d in distinct {
        var s :| s in dimensions && dimensions[s] == d;
        var k :| 0 <= k < |strs| && strs[k] == s;
        assert Dimensions(r, strs)[k] == Some(d);
      }
      if DimensionListed(r, strs, d) {
        var k :| 0 <= k < |strs| && Dimensions(r, strs)[k] == Some(d);
        assert strs[k] in dimensions;
      }
    }
    ConflictIff(Dimensions(r, strs), distinct);
    conflict := |distinct| > 1;
  }

  /** Two entries are known and differ. */
  predicate TwoKnownDiffer(dims: seq<Option<int>>) {
    exists i, j :: 0 <= i < |dims| && 0 <= j < |dims| && dims[i].Some? && dims[j].Some? && dims[i] != dims[j]
  }

  /** The flag holds exactly when two listed ids have known, different dimensions. */
  lemma ConflictIff(dims: seq<Option<int>>, distinct: seq<int>)
    requires StrictlyIncreasing(distinct)
    requires forall d :: d in distinct <==> Known(dims, d)
    ensures |distinct| > 1 <==> TwoKnownDiffer(dims)
  {
    if |distinct| > 1 {
      assert distinct[0] in distinct && distinct[1] in distinct;
      var i :| 0 <= i < |dims| && dims[i] == Some(distinct[0]);
      var j :| 0 <= j < |dims| && dims[j] == Some(distinct[1]);
    }
    if TwoKnownDiffer(dims) {
      var i, j :| 0 <= i < |dims| && 0 <= j < |dims| && dims[i].Some? && dims[j].Some? && dims[i] != dims[j];
      assert Known(dims, dims[i].value) && Known(dims, dims[j].value);
      assert dims[i].value in distinct && dims[j].value in distinct;
    }
  }

  /** Two lists with the same strings, in any order and number, get the same dimensions. */
  lemma SameStringsSameDimensions(r: Registry, a: seq<string>, b: seq<string>, p: seq<int>, q: seq<int>)
    requires forall s :: s in a <==> s in b
    requires StrictlyIncreasing(p) && (forall d :: d in p <==> DimensionListed(r, a, d))
    requires StrictlyIncreasing(q) && (forall d :: d in q <==> DimensionListed(r, b, d))
    ensures p == q
  {
    forall d ensures DimensionListed(r, a, d) <==> DimensionListed(r, b, d) {
      ListedElsewhere(r, a, b, d);
      ListedElsewhere(r, b, a, d);
    }
    SortedSetIsUnique(p, q);
  }

  lemma ListedElsewhere(r: Registry, a: seq<string>, b: seq<string>, d: int)
    requires forall s :: s in a ==> s in b
    ensures DimensionListed(r, a, d) ==> DimensionListed(r, b, d)
  {
    if DimensionListed(r, a, d) {
      var i :| 0 <= i < |a| && Dimensions(r, a)[i] == Some(d);
      assert a[i] in b;
      var j :| 0 <= j < |b| && b[j] == a[i];
      assert Dimensions(r, b)[j] == Some(d);
    }
  }

  lemma {:induction false} SortedSetIsUnique(p: seq<int>, q: seq<int>)
    requires StrictlyIncreasing(p) && StrictlyIncreasing(q)
    requires forall d :: d in p <==> d in q
    ensures p == q
  {
    var first := if p != [] then p[0] else if q != [] then q[0] else 0;
    assert first in p <==> first in q;
    if p != [] && q != [] {
      assert p[0] in p && q[0] in q;
      assert p[0] == q[0];
      forall d ensures d in p[1..] <==> d in q[1..] {
        assert d in p <==> d == p[0] || d in p[1..];
        assert d in q <==> d == q[0] || d in q[1..];
      }
      SortedSetIsUnique(p[1..], q[1..]);
    }
  }
}
