/** The global model search: exact id, then the id without its prefix, then the longest listed prefix. */
module ProviderModels {
  import opened Options
  import opened Text

  function Points(defined: bool, points: nat): nat {
    if defined then points else 0
  }

  /** A registry entry; `richness` is its score by defined capability flags. */
  datatype Model = Model(id: string, flags: Flags) {
    function Richness(): nat {
      Points(flags.xHighEffort, 10) + Points(flags.reasoning, 5) + Points(flags.contextLength, 3)
      + Points(flags.maxOutputTokens, 2) + Points(flags.vision, 2) + Points(flags.toolCalling, 2)
      + Points(flags.interleavedField, 1) + Points(flags.unsupportedParams, 1)
    }
  }

  /** Which capability flags an entry defines. */
  datatype Flags = Flags(
    xHighEffort: bool, reasoning: bool, contextLength: bool, maxOutputTokens: bool,
    vision: bool, toolCalling: bool, interleavedField: bool, unsupportedParams: bool)

  type Catalog = seq<seq<Model>>

  /** The first model of a list with this id. */
  function FindIn(models: seq<Model>, id: string): Option<Model> {
    if models == [] then None
    else if models[0].id == id then Some(models[0])
    else FindIn(models[1..], id)
  }

  /** One candidate per provider that lists the id. */
  function Candidates(catalog: Catalog, id: string): seq<Model> {
    if catalog == [] then []
    else
      var found := FindIn(catalog[|catalog| - 1], id);
      Candidates(catalog[..|catalog| - 1], id) + (if found.Some? then [found.value] else [])
  }

  /** The part after the last slash, or the whole id when that part is empty. */
  function Basename(id: string): string {
    if LastPart(id) == "" then id else LastPart(id)
  }

  function LastPart(id: string): string {
    var parts := Split(id, '/');
    parts[|parts| - 1]
  }

  /** The entry that a stable sort by descending richness puts first. */
  predicate IsRichest(candidates: seq<Model>, best: nat) {
    && best < |candidates|
    && (forall i :: 0 <= i < |candidates| ==> candidates[i].Richness() <= candidates[best].Richness())
    && (forall i :: 0 <= i < best ==> candidates[i].Richness() < candidates[best].Richness())
  }

  /** Longer ids win; among equal lengths the richer entry. */
  predicate Better(a: Model, b: Model) {
    |a.id| > |b.id| || (|a.id| == |b.id| && a.Richness() > b.Richness())
  }

  /** Every listed model in the order of the nested loops. */
  function Flatten(catalog: Catalog): seq<Model> {
    if catalog == [] then [] else Flatten(catalog[..|catalog| - 1]) + catalog[|catalog| - 1]
  }

  /** The name starts with the id of the model. */
  predicate Fits(m: Model, name: string) {
    m.id <= name
  }

  /** The id is longer, or as long and the entry at least as rich. */
  predicate AtLeast(a: Model, b: Model) {
    if |a.id| == |b.id| then a.Richness() >= b.Richness() else |a.id| > |b.id|
  }

  /** The first of the best listed models whose id starts the name. */
  predicate IsBestPrefix(all: seq<Model>, name: string, best: nat) {
    && best < |all|
    && all[best].id <= name
    && (forall i :: 0 <= i < |all| && all[i].id <= name ==> AtLeast(all[best], all[i]))
    && (forall i :: 0 <= i < best && all[i].id <= name ==> !AtLeast(all[i], all[best]))
  }

  /** What the search promises about its result. */
  ghost predicate IsGlobalModel(catalog: Catalog, id: string, r: Option<Model>) {
    var exact, base := Candidates(catalog, id), Candidates(catalog, Basename(id));
    if exact != [] then
      exists best: nat :: IsRichest(exact, best) && r == Some(exact[best])
    else if base != [] then
      exists best: nat :: IsRichest(base, best) && r == Some(base[best])
    else if r.None? then
      forall i :: 0 <= i < |Flatten(catalog)| ==> !(Flatten(catalog)[i].id <= Basename(id))
    else
      exists best: nat :: IsBestPrefix(Flatten(catalog), Basename(id), best) && r == Some(Flatten(catalog)[best])
  }

  function RichnessOf(f: Flags): nat { Model("", f).Richness() }

  /** The two flags that outweigh the others count 10 and 5, whatever else is defined. */
  lemma EffortFlagsCount(f: Flags)
    ensures RichnessOf(f) == RichnessOf(f.(xHighEffort := false)) + (if f.xHighEffort then 10 else 0)
    ensures RichnessOf(f) == RichnessOf(f.(reasoning := false)) + (if f.reasoning then 5 else 0)
  {
  }

  /** The sizes count 3 and 2. */
  lemma SizeFlagsCount(f: Flags)
    ensures RichnessOf(f) == RichnessOf(f.(contextLength := false)) + (if f.contextLength then 3 else 0)
    ensures RichnessOf(f) == RichnessOf(f.(maxOutputTokens := false)) + (if f.maxOutputTokens then 2 else 0)
  {
  }

  /** The other four count 2, 2, 1 and 1, and an entry without flags counts nothing. */
  lemma OtherFlagsCount(vision: bool, toolCalling: bool, interleavedField: bool, unsupportedParams: bool)
    ensures RichnessOf(Flags(false, false, false, false, vision, toolCalling, interleavedField, unsupportedParams))
         == (if vision then 2 else 0) + (if toolCalling then 2 else 0)
            + (if interleavedField then 1 else 0) + (if unsupportedParams then 1 else 0)
  {
  }

  // ----- Candidates and names, provider by provider.

  /** The first model of a list with this id. */
  predicate IsFirstWith(models: seq<Model>, id: string, j: nat) {
    j < |models| && models[j].id == id && forall k :: 0 <= k < j ==> models[k].id != id
  }

  predicate HasNone(models: seq<Model>, id: string) {
    forall j :: 0 <= j < |models| ==> models[j].id != id
  }

  lemma {:induction false} FindInIff(models: seq<Model>, id: string)
    ensures HasNone(models, id) ==> FindIn(models, id) == None
    ensures forall j: nat :: IsFirstWith(models, id, j) ==> FindIn(models, id) == Some(models[j])
  {
    if models != [] {
      FindInIff(models[1..], id);
      assert forall k :: 0 < k < |models| ==> models[k] == models[1..][k - 1];
      forall j: nat | IsFirstWith(models, id, j) ensures FindIn(models, id) == Some(models[j]) {
        if j > 0 { assert IsFirstWith(models[1..], id, j - 1); }
      }
    }
  }

  /** Each further provider adds the first of its models with the id, and nothing without one; with
      no candidate for no provider, this settles the candidates. */
  lemma CandidatesStep(catalog: Catalog, models: seq<Model>, id: string)
    ensures Candidates([], id) == []
    ensures HasNone(models, id) ==> Candidates(catalog + [models], id) == Candidates(catalog, id)
    ensures forall j: nat :: IsFirstWith(models, id, j) ==>
              Candidates(catalog + [models], id) == Candidates(catalog, id) + [models[j]]
  {
    var all, found := catalog + [models], FindIn(models, id);
    assert all[..|catalog|] == catalog && all[|all| - 1] == models;
    FindInIff(models, id);
    assert Candidates(all, id) == Candidates(catalog, id) + (if found.Some? then [found.value] else []);
    assert Candidates(catalog, id) + [] == Candidates(catalog, id);
  }

  /** What stands behind the last slash has `n` characters. */
  predicate IsTail(id: string, n: nat) {
    n <= |id| && IsPieceAt(id, '/', |id| - n, |id|)
  }

  lemma NoneBehind(s: string, c: char, a: nat)
    requires a <= |s| && c !in s[a..]
    ensures forall k :: a <= k < |s| ==> s[k] != c
  {
    forall k | a <= k < |s| ensures s[k] != c {
      assert s[k] == s[a..][k - a];
    }
  }

  lemma OneTail(id: string, m: nat, n: nat)
    requires IsTail(id, m) && IsTail(id, n)
    ensures m == n
  {
    assert id[|id| - m..|id|] == id[|id| - m..] && id[|id| - n..|id|] == id[|id| - n..];
    NoneBehind(id, '/', |id| - m);
    NoneBehind(id, '/', |id| - n);
  }

  lemma LastPartStep(id: string)
    ensures var i := IndexOf(id, '/'); LastPart(id) == if i < |id| then LastPart(id[i + 1..]) else id
  {
    SplitAtFirst(id, '/');
  }

  lemma TailOfRest(id: string, i: nat, n: nat)
    requires i < |id| && id[i] == '/' && IsTail(id[i + 1..], n)
    ensures IsTail(id, n) && id[i + 1..][|id| - i - 1 - n..] == id[|id| - n..]
  {
    PieceOfRest(id, '/', i + 1, |id| - i - 1 - n, |id| - i - 1);
  }

  lemma {:induction false} LastPartIsTail(id: string)
    ensures IsTail(id, |LastPart(id)|) && LastPart(id) == id[|id| - |LastPart(id)|..]
    decreases |id|
  {
    var i := IndexOf(id, '/');
    LastPartStep(id);
    if i < |id| {
      LastPartIsTail(id[i + 1..]);
      TailOfRest(id, i, |LastPart(id)|);
    } else {
      assert id[0..|id|] == id;
    }
  }

  /** The name is what stands behind the last slash, or the whole id when nothing does. */
  lemma BasenameIff(id: string, n: nat)
    requires IsTail(id, n)
    ensures Basename(id) == if n == 0 then id else id[|id| - n..]
  {
    LastPartIsTail(id);
    OneTail(id, n, |LastPart(id)|);
  }

  // ----- The loops.

  method CollectCandidates(catalog: Catalog, id: string) returns (candidates: seq<Model>)
    ensures candidates == Candidates(catalog, id)
  {
    candidates := [];
    var i := 0;
    while i < |catalog|
      invariant 0 <= i <= |catalog|
      invariant candidates == Candidates(catalog[..i], id)
    {
      assert catalog[..i + 1][..i] == catalog[..i];
      var found := FindIn(catalog[i], id);
      if found.Some? {
        candidates := candidates + [found.value];
      }
      i := i + 1;
    }
    assert catalog[..i] == catalog;
  }

  method Richest(candidates: seq<Model>) returns (m: Model)
    requires candidates != []
    ensures exists best: nat :: IsRichest(candidates, best) && m == candidates[best]
  {
    var best, i := 0, 1;
    while i < |candidates|
      invariant 1 <= i <= |candidates|
      invariant best < i && IsRichest(candidates[..i], best)
    {
      if candidates[i].Richness() > candidates[best].Richness() {
        best := i;
      }
      i := i + 1;
    }
    assert candidates[..i] == candidates;
    m := candidates[best];
  }

  /** The best match within one provider's list, starting from the best so far. */
  method ImproveWithin(
    models: seq<Model>, name: string, start: Option<Model>, ghost before: seq<Model>, ghost startAt: nat)
    returns (bestMatch: Option<Model>, ghost best: nat)
    requires start.None? ==> forall i :: 0 <= i < |before| ==> !Fits(before[i], name)
    requires start.Some? ==> IsBestPrefix(before, name, startAt) && start.value == before[startAt]
    ensures bestMatch.None? ==> forall i :: 0 <= i < |before + models| ==> !Fits((before + models)[i], name)
    ensures bestMatch.Some? ==> IsBestPrefix(before + models, name, best) && bestMatch.value == (before + models)[best]
  {
    bestMatch, best := start, startAt;
    ghost var all := before + models;
    ghost var seen := before;
    var i := 0;
    assert before + models[..0] == before;
    while i < |models|
      invariant 0 <= i <= |models|
      invariant seen == before + models[..i]
      invariant bestMatch.None? ==> forall j :: 0 <= j < |seen| ==> !Fits(seen[j], name)
      invariant bestMatch.Some? ==> IsBestPrefix(seen, name, best) && bestMatch.value == seen[best]
    {
      var m := models[i];
      ghost var was := seen;
      seen := seen + [m];
      assert seen == before + models[..i + 1];
      assert forall j :: 0 <= j < |was| ==> seen[j] == was[j];
      if Fits(m, name) {
        if bestMatch.None? || Better(m, bestMatch.value) {
          bestMatch, best := Some(m), |was|;
        }
      }
      i := i + 1;
    }
    assert seen == all;
  }

  method GetGlobalModel(catalog: Catalog, id: string) returns (r: Option<Model>)
    ensures IsGlobalModel(catalog, id, r)
  {
    var candidates := CollectCandidates(catalog, id);
    if candidates != [] {
      var m := Richest(candidates);
      return Some(m);
    }
    var name := Basename(id);
    candidates := CollectCandidates(catalog, name);
    if candidates != [] {
      var m := Richest(candidates);
      return Some(m);
    }
    r := None;
    ghost var best: nat := 0;
    var i := 0;
    while i < |catalog|
      invariant 0 <= i <= |catalog|
      invariant r.None? ==> forall j :: 0 <= j < |Flatten(catalog[..i])| ==> !Fits(Flatten(catalog[..i])[j], name)
      invariant r.Some? ==> IsBestPrefix(Flatten(catalog[..i]), name, best) && r.value == Flatten(catalog[..i])[best]
    {
      assert catalog[..i + 1][..i] == catalog[..i];
      r, best := ImproveWithin(catalog[i], name, r, Flatten(catalog[..i]), best);
      i := i + 1;
    }
    assert catalog[..i] == catalog;
  }

  lemma RichestUnique(candidates: seq<Model>, a: nat, b: nat)
    requires IsRichest(candidates, a) && IsRichest(candidates, b)
    ensures a == b
  {
    assert candidates[a].Richness() == candidates[b].Richness();
  }

  lemma BestPrefixUnique(all: seq<Model>, name: string, a: nat, b: nat)
    requires IsBestPrefix(all, name, a) && IsBestPrefix(all, name, b)
    ensures a == b
  {
  }

  /** The result is determined: two answers to one search are the same model. */
  lemma GlobalModelUnique(catalog: Catalog, id: string, r: Option<Model>, r': Option<Model>)
    requires IsGlobalModel(catalog, id, r) && IsGlobalModel(catalog, id, r')
    ensures r == r'
  {
    var exact, base := Candidates(catalog, id), Candidates(catalog, Basename(id));
    if exact != [] || base != [] {
      var candidates := if exact != [] then exact else base;
      var a: nat :| IsRichest(candidates, a) && r == Some(candidates[a]);
      var b: nat :| IsRichest(candidates, b) && r' == Some(candidates[b]);
      RichestUnique(candidates, a, b);
    } else if r.Some? && r'.Some? {
      var all, name := Flatten(catalog), Basename(id);
      var a: nat :| IsBestPrefix(all, name, a) && r == Some(all[a]);
      var b: nat :| IsBestPrefix(all, name, b) && r' == Some(all[b]);
      BestPrefixUnique(all, name, a, b);
    }
  }
}
