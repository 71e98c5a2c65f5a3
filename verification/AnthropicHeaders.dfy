/** Merging and normalising `anthropic-beta` and `anthropic-version` header values. */
module AnthropicHeaders {
  import opened Options
  import opened Text
  import opened Sequences

  const CONTEXT_1M_BETA := "context-1m-2025-08-07"
  const CONTEXT_1M_SUPPORTED_MODELS := [
    "claude-fable-5", "claude-sonnet-5", "claude-sonnet-4-6",
    "claude-opus-4-8", "claude-opus-4-7", "claude-opus-4-6"
  ]

  // ----- Comma lists.

  function TrimAll(parts: seq<string>): (r: seq<string>)
    ensures |r| == |parts|
  {
    seq(|parts|, i requires 0 <= i < |parts| => Trim(parts[i]))
  }

  /** The non-blank tokens of a comma list. */
  function Tokens(value: string): seq<string> {
    NonBlank(TrimAll(Split(value, ',')))
  }

  function NonBlank(ts: seq<string>): (r: seq<string>)
    ensures forall i :: 0 <= i < |r| ==> r[i] != "" && r[i] in ts
  {
    if ts == [] then [] else (if ts[0] == "" then [] else [ts[0]]) + NonBlank(ts[1..])
  }

  function JoinTokens(tokens: seq<string>): string {
    Join(tokens, ',')
  }

  predicate IsToken(t: string) {
    t != "" && Trimmed(t) && ',' !in t
  }

  predicate AllTokens(ts: seq<string>) {
    forall i :: 0 <= i < |ts| ==> IsToken(ts[i])
  }

  lemma TokensAreTokens(value: string)
    ensures AllTokens(Tokens(value))
  {
    SplitPieces(value, ',');
    var parts := Split(value, ',');
    forall i | 0 <= i < |parts| ensures Trimmed(TrimAll(parts)[i]) && ',' !in TrimAll(parts)[i] {
      assert parts[i] in parts;
      TrimSpec(parts[i]);
    }
  }

  lemma {:induction false} NonBlankKeepsAll(ts: seq<string>)
    requires forall i :: 0 <= i < |ts| ==> ts[i] != ""
    ensures NonBlank(ts) == ts
  {
    if ts != [] {
      NonBlankKeepsAll(ts[1..]);
    }
  }

  /** Rejoining tokens and splitting again gives the same tokens. */
  lemma TokensOfJoin(ts: seq<string>)
    requires AllTokens(ts)
    ensures Tokens(JoinTokens(ts)) == ts
  {
    if ts == [] {
      assert Split("", ',') == [""];
      assert TrimAll([""]) == [""];
      assert NonBlank([""]) == NonBlank([""][1..]);
    } else {
      SplitJoin(ts, ',');
      forall i | 0 <= i < |ts| ensures Trim(ts[i]) == ts[i] { TrimFixesTrimmed(ts[i]); }
      assert TrimAll(ts) == ts;
      NonBlankKeepsAll(ts);
    }
  }

  lemma {:induction false} NonBlankConcat(a: seq<string>, b: seq<string>)
    ensures NonBlank(a + b) == NonBlank(a) + NonBlank(b)
  {
    if a == [] {
      assert a + b == b;
    } else {
      assert (a + b)[1..] == a[1..] + b;
      NonBlankConcat(a[1..], b);
    }
  }

  /** A text without commas is one token, or none when it is blank. */
  lemma TokensOfPlain(piece: string)
    requires ',' !in piece
    ensures Tokens(piece) == if Trim(piece) == "" then [] else [Trim(piece)]
  {
    SplitOfPlain(piece, ',');
    assert TrimAll([piece]) == [Trim(piece)];
    assert [Trim(piece)][1..] == [] && NonBlank([]) == [];
  }

  /** What stands before a comma and behind it has its own tokens; with `TokensOfPlain` this settles
      the tokens of any text. */
  lemma TokensAtComma(piece: string, rest: string)
    requires ',' !in piece
    ensures Tokens(piece + "," + rest) == Tokens(piece) + Tokens(rest)
  {
    SplitAtSeparator(piece, ',', rest);
    SplitOfPlain(piece, ',');
    assert piece + "," + rest == piece + [','] + rest;
    assert TrimAll([piece] + Split(rest, ',')) == TrimAll([piece]) + TrimAll(Split(rest, ','));
    NonBlankConcat(TrimAll([piece]), TrimAll(Split(rest, ',')));
  }

  // ----- The long-context gate.

  predicate AllDigits(s: string) {
    forall c :: c in s ==> '0' <= c <= '9'
  }

  /** Drops a dated alias: a hyphen and eight digits at the end. */
  function StripDate(model: string): string {
    if |model| >= 9 && model[|model| - 9] == '-' && AllDigits(model[|model| - 8..])
    then model[..|model| - 9] else model
  }

  predicate IsOneOf(m: string, supported: seq<string>) {
    exists s :: s in supported && (m == s || s + "-" <= m)
  }

  predicate SupportsContext1m(model: string) {
    IsOneOf(StripDate(Lower(Trim(model))), CONTEXT_1M_SUPPORTED_MODELS)
  }

  /** The caller named a model, and that model does not take the long-context beta. */
  predicate KnownUnsupported(model: Option<string>) {
    model.Some? && model.value != "" && !SupportsContext1m(model.value)
  }

  /** The lower-case tokens that may be forwarded. */
  function AllowSet(allow: seq<string>, model: Option<string>): set<string> {
    LowerSet(allow) - (if KnownUnsupported(model) then {CONTEXT_1M_BETA} else {})
  }

  /** The model is this one, or this one and a suffix behind a hyphen. */
  predicate IsVariantOf(m: string, s: string) {
    m == s || s + "-" <= m
  }

  predicate HasVariant(m: string, supported: seq<string>) {
    exists s :: s in supported && IsVariantOf(m, s)
  }

  /** The trimmed model is a supported one, in any letter case, or that and a suffix behind a hyphen. */
  predicate IsSupported(model: string) {
    HasVariant(Lower(Trim(model)), CONTEXT_1M_SUPPORTED_MODELS)
  }

  lemma DateDecidesNothing(m: string, s: string)
    requires |s| >= 2 && s[|s| - 2] == '-'
    ensures IsVariantOf(StripDate(m), s) <==> IsVariantOf(m, s)
  {
    if StripDate(m) != m {
      var head := m[..|m| - 9];
      assert forall i :: |m| - 8 <= i < |m| ==> m[i] in m[|m| - 8..];
      if IsVariantOf(m, s) && m != s {
        assert m[|s|] == (s + "-")[|s|];
        assert |s| <= |head|;
        assert |s| == |head| ==> head == (s + "-")[..|s|];
      }
      if head == s {
        assert m[..|s| + 1] == s + "-";
      }
    }
  }

  lemma SupportedEndInVersions()
    ensures forall s :: s in CONTEXT_1M_SUPPORTED_MODELS ==> |s| >= 2 && s[|s| - 2] == '-'
  {
  }

  lemma DatesDecideNothing(m: string, supported: seq<string>)
    requires forall s :: s in supported ==> |s| >= 2 && s[|s| - 2] == '-'
    ensures IsOneOf(StripDate(m), supported) <==> HasVariant(m, supported)
  {
    forall s | s in supported {
      DateDecidesNothing(m, s);
    }
  }

  /** Dropping the date of a dated alias decides nothing: it stands behind a hyphen. */
  lemma SupportsIff(model: string)
    ensures SupportsContext1m(model) <==> IsSupported(model)
  {
    SupportedEndInVersions();
    DatesDecideNothing(Lower(Trim(model)), CONTEXT_1M_SUPPORTED_MODELS);
  }

  /** A lower-case token that is on the list, up to letter case, and that the model takes if it is the
      long-context one. */
  predicate Forwardable(t: string, allow: seq<string>, model: Option<string>) {
    && (exists i :: 0 <= i < |allow| && Lower(allow[i]) == t)
    && (t == "context-1m-2025-08-07" && model.Some? && model.value != "" ==> IsSupported(model.value))
  }

  lemma AllowedIff(t: string, allow: seq<string>, model: Option<string>)
    ensures t in AllowSet(allow, model) <==> Forwardable(t, allow, model)
  {
    if model.Some? { SupportsIff(model.value); }
    if t in LowerSet(allow) {
      var a :| a in allow && Lower(a) == t;
      var i :| 0 <= i < |allow| && allow[i] == a;
    }
  }

  // ----- The merge.

  /** The lower-case tokens of a list. */
  function LowerSet(ts: seq<string>): set<string> {
    set t | t in ts :: Lower(t)
  }

  /** The client tokens to append when the tokens in `seen` are present already. */
  function Additions(client: seq<string>, seen: set<string>, allowed: set<string>): seq<string> {
    if client == [] then []
    else
      var lower := Lower(client[0]);
      if lower in allowed && lower !in seen
      then [client[0]] + Additions(client[1..], seen + {lower}, allowed)
      else Additions(client[1..], seen, allowed)
  }

  function MergedTokens(base: string, client: Option<string>, allow: seq<string>, model: Option<string>): seq<string> {
    var baseList := Tokens(base);
    if client.None? || Trim(client.value) == "" then baseList
    else baseList + Additions(Tokens(client.value), LowerSet(baseList), AllowSet(allow, model))
  }

  /** One round of the loop: what the next token adds. */
  lemma AdditionsStep(client: seq<string>, i: nat, seen: set<string>, allowed: set<string>)
    requires i < |client|
    ensures var lower := Lower(client[i]);
            Additions(client[i..], seen, allowed) ==
            if lower in allowed && lower !in seen
            then [client[i]] + Additions(client[i + 1..], seen + {lower}, allowed)
            else Additions(client[i + 1..], seen, allowed)
  {
    assert client[i..][1..] == client[i + 1..];
  }

  /** The loop that pushes allowed new tokens to the list and to the seen-set. */
  method AppendNew(start: seq<string>, client: seq<string>, allowed: set<string>) returns (list: seq<string>)
    ensures list == start + Additions(client, LowerSet(start), allowed)
  {
    list := start;
    var seen := LowerSet(list);
    ghost var goal, added := Additions(client, seen, allowed), [];
    var i := 0;
    while i < |client|
      invariant 0 <= i <= |client|
      invariant list == start + added
      invariant goal == added + Additions(client[i..], seen, allowed)
    {
      AdditionsStep(client, i, seen, allowed);
      var lower := Lower(client[i]);
      if lower in allowed && lower !in seen {
        list := list + [client[i]];
        added := added + [client[i]];
        seen := seen + {lower};
      }
      i := i + 1;
    }
  }

  method MergeClientBeta(base: string, client: Option<string>, allow: seq<string>, model: Option<string>)
    returns (merged: string)
    ensures merged == JoinTokens(MergedTokens(base, client, allow, model))
  {
    var list := Tokens(base);
    if client.Some? && Trim(client.value) != "" {
      list := AppendNew(list, Tokens(client.value), AllowSet(allow, model));
    }
    merged := JoinTokens(list);
  }

  /** Case-insensitively distinct. */
  ghost predicate DistinctFolded(ts: seq<string>) {
    forall i, j :: 0 <= i < j < |ts| ==> Lower(ts[i]) != Lower(ts[j])
  }

  /** The token is listed, before any other spelling of it. */
  ghost predicate IsFirstFolded(ts: seq<string>, t: string) {
    exists k :: 0 <= k < |ts| && ts[k] == t && forall j :: 0 <= j < k ==> Lower(ts[j]) != Lower(t)
  }

  lemma FirstFoldedBehind(ts: seq<string>, t: string)
    requires ts != [] && IsFirstFolded(ts[1..], t) && Lower(ts[0]) != Lower(t)
    ensures IsFirstFolded(ts, t)
  {
    var k :| 0 <= k < |ts[1..]| && ts[1..][k] == t && forall j :: 0 <= j < k ==> Lower(ts[1..][j]) != Lower(t);
    assert ts[k + 1] == t;
    forall j | 0 <= j < k + 1 ensures Lower(ts[j]) != Lower(t) {
      if j > 0 { assert ts[j] == ts[1..][j - 1]; }
    }
  }

  /**
   * What a merge may append: client tokens in the order in which they were first sent, each allowed,
   * new and in its first spelling, with no allowed one left out.
   */
  ghost predicate FairAdditions(add: seq<string>, client: seq<string>, seen: set<string>, allowed: set<string>) {
    && InFirstSeenOrder(add, client)
    && DistinctFolded(add)
    && AreNew(add, client, seen, allowed)
    && LeavesNoneOut(add, client, seen, allowed)
  }

  ghost predicate AreNew(add: seq<string>, client: seq<string>, seen: set<string>, allowed: set<string>) {
    forall t :: t in add ==> t in client && IsFirstFolded(client, t) && Lower(t) in allowed && Lower(t) !in seen
  }

  predicate LeavesNoneOut(add: seq<string>, client: seq<string>, seen: set<string>, allowed: set<string>) {
    forall t :: t in client && Lower(t) in allowed ==> Lower(t) in seen + LowerSet(add)
  }

  lemma NewBehind(add: seq<string>, client: seq<string>, seen: set<string>, allowed: set<string>)
    requires client != [] && AreNew(add, client[1..], seen, allowed)
    requires Lower(client[0]) in seen || Lower(client[0]) !in allowed
    ensures AreNew(add, client, seen, allowed) && client[0] !in add
  {
    forall t | t in add ensures IsFirstFolded(client, t) {
      FirstFoldedBehind(client, t);
    }
  }

  lemma NewWithHead(add: seq<string>, client: seq<string>, seen: set<string>, allowed: set<string>)
    requires client != [] && AreNew(add, client[1..], seen + {Lower(client[0])}, allowed)
    requires Lower(client[0]) in allowed && Lower(client[0]) !in seen
    ensures AreNew([client[0]] + add, client, seen, allowed) && client[0] !in add
  {
    assert IsFirstFolded(client, client[0]);
    NewBehind(add, client, seen + {Lower(client[0])}, allowed);
  }

  lemma DistinctWithHead(head: string, tail: seq<string>)
    requires DistinctFolded(tail) && forall t :: t in tail ==> Lower(t) != Lower(head)
    ensures DistinctFolded([head] + tail)
  {
  }

  lemma NoneLeftWithHead(add: seq<string>, client: seq<string>, seen: set<string>, allowed: set<string>)
    requires client != [] && LeavesNoneOut(add, client[1..], seen + {Lower(client[0])}, allowed)
    ensures LeavesNoneOut([client[0]] + add, client, seen, allowed)
  {
    assert LowerSet([client[0]] + add) == {Lower(client[0])} + LowerSet(add);
  }

  lemma {:induction false} AdditionsSpec(client: seq<string>, seen: set<string>, allowed: set<string>)
    ensures FairAdditions(Additions(client, seen, allowed), client, seen, allowed)
  {
    if client != [] {
      var lower, rest := Lower(client[0]), client[1..];
      if lower in allowed && lower !in seen {
        AdditionsSpec(rest, seen + {lower}, allowed);
        var tail := Additions(rest, seen + {lower}, allowed);
        NewWithHead(tail, client, seen, allowed);
        FirstSeenWithHead(tail, client);
        DistinctWithHead(client[0], tail);
        NoneLeftWithHead(tail, client, seen, allowed);
      } else {
        AdditionsSpec(rest, seen, allowed);
        NewBehind(Additions(rest, seen, allowed), client, seen, allowed);
        FirstSeenBehind(Additions(rest, seen, allowed), client);
      }
    }
  }

  /** The merged list survives printing: reading the header back gives the base and the additions. */
  lemma MergedParts(base: string, client: string, allow: seq<string>, model: Option<string>)
    ensures
      var all := MergedTokens(base, Some(client), allow, model);
      && Tokens(JoinTokens(all)) == all
      && all == Tokens(base) + Additions(Tokens(client), LowerSet(Tokens(base)), AllowSet(allow, model))
  {
    var all := MergedTokens(base, Some(client), allow, model);
    TokensAreTokens(base);
    TokensAreTokens(client);
    if Trim(client) == "" {
      BlankHasNoTokens(client);
    } else {
      AdditionsSpec(Tokens(client), LowerSet(Tokens(base)), AllowSet(allow, model));
      forall i | 0 <= i < |all| ensures IsToken(all[i]) {
        assert i >= |Tokens(base)| ==> all[i] in Tokens(client);
      }
    }
    TokensOfJoin(all);
  }

  /** Each is a client token in its first spelling that may be forwarded and that the base lacks. */
  ghost predicate AreForwarded(
    add: seq<string>, base: seq<string>, sent: seq<string>, allow: seq<string>, model: Option<string>)
  {
    forall t :: t in add ==>
      && IsFirstFolded(sent, t) && Forwardable(Lower(t), allow, model)
      && forall b :: b in base ==> Lower(b) != Lower(t)
  }

  /** Each client token that may be forwarded is among the merged ones, in some spelling. */
  ghost predicate AllForwarded(merged: seq<string>, sent: seq<string>, allow: seq<string>, model: Option<string>) {
    forall t :: t in sent && Forwardable(Lower(t), allow, model) ==> Lower(t) in LowerSet(merged)
  }

  lemma FairIsForwarded(
    add: seq<string>, base: seq<string>, sent: seq<string>, allow: seq<string>, model: Option<string>)
    requires FairAdditions(add, sent, LowerSet(base), AllowSet(allow, model))
    ensures AreForwarded(add, base, sent, allow, model) && AllForwarded(base + add, sent, allow, model)
  {
    forall t ensures Lower(t) in AllowSet(allow, model) <==> Forwardable(Lower(t), allow, model) {
      AllowedIff(Lower(t), allow, model);
    }
    assert LowerSet(base + add) == LowerSet(base) + LowerSet(add);
  }

  /**
   * The merged header holds the base tokens as an untouched prefix. What follows are client tokens
   * in the order in which they were first sent, each forwardable, new and in its first spelling, and
   * no forwardable token of the client is left out. Without a client header there is nothing else.
   */
  lemma MergeSpec(base: string, client: string, allow: seq<string>, model: Option<string>)
    ensures
      var merged := Tokens(JoinTokens(MergedTokens(base, Some(client), allow, model)));
      var n, sent := |Tokens(base)|, Tokens(client);
      && n <= |merged| && merged[..n] == Tokens(base)
      && InFirstSeenOrder(merged[n..], sent) && DistinctFolded(merged[n..])
      && AreForwarded(merged[n..], Tokens(base), sent, allow, model)
      && AllForwarded(merged, sent, allow, model)
    ensures MergedTokens(base, None, allow, model) == Tokens(base)
  {
    MergedParts(base, client, allow, model);
    var seen, allowed := LowerSet(Tokens(base)), AllowSet(allow, model);
    var add := Additions(Tokens(client), seen, allowed);
    AdditionsSpec(Tokens(client), seen, allowed);
    FairIsForwarded(add, Tokens(base), Tokens(client), allow, model);
    assert (Tokens(base) + add)[|Tokens(base)|..] == add;
  }

  lemma BlankHasNoTokens(value: string)
    requires Trim(value) == ""
    ensures Tokens(value) == []
  {
    TrimEmptyMeansSpaces(value);
    SplitOfPlain(value, ',');
    assert TrimAll([value]) == [""];
    assert NonBlank([""]) == NonBlank([""][1..]);
  }

  lemma {:induction false} TrimEmptyMeansSpaces(s: string)
    requires Trim(s) == ""
    ensures forall c :: c in s ==> IsSpace(c)
  {
    if s != "" {
      if IsSpace(s[0]) {
        TrimEmptyMeansSpaces(s[1..]);
      } else {
        TrimEndNonEmpty(s);
      }
    }
  }

  lemma {:induction false} TrimEndNonEmpty(s: string)
    requires s != "" && !IsSpace(s[0])
    ensures TrimEnd(s) != ""
  {
    if IsSpace(s[|s| - 1]) {
      TrimEndNonEmpty(s[..|s| - 1]);
    }
  }

  lemma {:induction false} NothingToAdd(client: seq<string>, seen: set<string>, allowed: set<string>)
    requires forall t :: t in client && Lower(t) in allowed ==> Lower(t) in seen
    ensures Additions(client, seen, allowed) == []
  {
    if client != [] {
      NothingToAdd(client[1..], seen, allowed);
    }
  }

  /** Merging twice equals merging once. */
  lemma MergeTwice(base: string, client: Option<string>, allow: seq<string>, model: Option<string>)
    ensures var once := JoinTokens(MergedTokens(base, client, allow, model));
            JoinTokens(MergedTokens(once, client, allow, model)) == once
  {
    var all := MergedTokens(base, client, allow, model);
    if client.None? {
      TokensAreTokens(base);
      TokensOfJoin(all);
    } else {
      var tokens, seen, allowed := Tokens(client.value), LowerSet(Tokens(base)), AllowSet(allow, model);
      MergedParts(base, client.value, allow, model);
      AdditionsSpec(tokens, seen, allowed);
      assert LowerSet(all) == seen + LowerSet(Additions(tokens, seen, allowed));
      NothingToAdd(tokens, LowerSet(all), allowed);
      assert all + [] == all;
    }
  }

  // ----- Case-variant headers.

  /** First occurrences only, as a JavaScript `Set` keeps them. */
  function Unique(ts: seq<string>, seen: set<string>): seq<string> {
    if ts == [] then []
    else if ts[0] in seen then Unique(ts[1..], seen)
    else [ts[0]] + Unique(ts[1..], seen + {ts[0]})
  }

  /** The trimmed, non-blank, first-seen tokens of two header values. */
  function UniqueCommaValues(a: string, b: string): seq<string> {
    Unique(Tokens(a) + Tokens(b), {})
  }

  lemma {:induction false} UniqueSpec(ts: seq<string>, seen: set<string>)
    ensures var u := Unique(ts, seen);
            && Distinct(u)
            && (forall t :: t in u <==> t in ts && t !in seen)
            && InFirstSeenOrder(u, ts)
  {
    if ts != [] {
      if ts[0] in seen {
        UniqueSpec(ts[1..], seen);
        FirstSeenBehind(Unique(ts[1..], seen), ts);
      } else {
        UniqueSpec(ts[1..], seen + {ts[0]});
        var tail := Unique(ts[1..], seen + {ts[0]});
        FirstSeenWithHead(tail, ts);
      }
    }
  }

  /** The value that replaces two spellings of one header, or `None` when both were blank. */
  function CollapsedValue(a: string, b: string, keepAll: bool): Option<string> {
    var values := UniqueCommaValues(a, b);
    if values == [] then None else Some(if keepAll then JoinTokens(values) else values[0])
  }

  function Replace(headers: map<string, string>, lower: string, title: string, value: Option<string>)
    : map<string, string>
  {
    var rest := headers - {title} - {lower};
    if value.Some? then rest[lower := value.value] else rest
  }

  function CollapseVariants(headers: map<string, string>, lower: string, title: string, keepAll: bool)
    : map<string, string>
  {
    if lower in headers && title in headers
    then Replace(headers, lower, title, CollapsedValue(headers[lower], headers[title], keepAll))
    else headers
  }

  function NormalizeVariants(headers: map<string, string>): map<string, string> {
    CollapseVariants(
      CollapseVariants(headers, "anthropic-version", "Anthropic-Version", false),
      "anthropic-beta", "Anthropic-Beta", true)
  }

  /** Outbound headers that are normalised in place. */
  class OutboundHeaders {
    var headers: map<string, string>

    method Normalize()
      modifies this
      ensures headers == NormalizeVariants(old(headers))
    {
      Collapse("anthropic-version", "Anthropic-Version", false);
      Collapse("anthropic-beta", "Anthropic-Beta", true);
    }

    method Collapse(lower: string, title: string, keepAll: bool)
      modifies this
      ensures headers == CollapseVariants(old(headers), lower, title, keepAll)
    {
      if lower in headers && title in headers {
        var values := UniqueCommaValues(headers[lower], headers[title]);
        headers := headers - {title};
        headers := headers - {lower};
        if |values| > 0 {
          headers := headers[lower := if keepAll then JoinTokens(values) else values[0]];
        }
      }
    }
  }

  /** The tokens that replace two spellings of one list header. */
  ghost predicate CarriesExactly(value: string, sent: seq<string>) {
    && Distinct(Tokens(value))
    && (forall t :: t in Tokens(value) <==> t in sent)
    && InFirstSeenOrder(Tokens(value), sent)
  }

  lemma UniqueKeepsTokens(sent: seq<string>)
    requires AllTokens(sent)
    ensures Tokens(JoinTokens(Unique(sent, {}))) == Unique(sent, {})
  {
    UniqueSpec(sent, {});
    var values := Unique(sent, {});
    forall i | 0 <= i < |values| ensures IsToken(values[i]) {
      assert values[i] in sent;
    }
    TokensOfJoin(values);
  }

  lemma UniqueKeepsFirst(sent: seq<string>)
    ensures Unique(sent, {}) == [] <==> sent == []
    ensures sent != [] ==> Unique(sent, {})[0] == sent[0]
  {
  }

  /** The single header carries each token once, in first-seen order, or just the first token. */
  lemma CollapsedValueSpec(a: string, b: string, keepAll: bool)
    ensures
      var value, sent := CollapsedValue(a, b, keepAll), Tokens(a) + Tokens(b);
      && (value.Some? <==> sent != [])
      && (value.Some? ==> if keepAll then CarriesExactly(value.value, sent) else value.value == sent[0])
  {
    var sent := Tokens(a) + Tokens(b);
    TokensAreTokens(a);
    TokensAreTokens(b);
    UniqueKeepsTokens(sent);
    UniqueKeepsFirst(sent);
    UniqueSpec(sent, {});
  }

  lemma ReplaceSpec(headers: map<string, string>, lower: string, title: string, value: Option<string>)
    requires lower != title
    ensures var out := Replace(headers, lower, title, value);
            && out - {lower, title} == headers - {lower, title}
            && title !in out
            && (lower in out <==> value.Some?)
            && (lower in out ==> Some(out[lower]) == value)
  {
  }

  /**
   * Collapsing leaves at most one spelling and is idempotent; a lone spelling and every other
   * header are untouched. When both spellings were sent, the lower-case header carries exactly
   * the tokens of the two (or their first token, for a single-valued header), and it is absent
   * when both were blank.
   */
  lemma CollapseSpec(headers: map<string, string>, lower: string, title: string, keepAll: bool)
    requires lower != title
    ensures
      var out := CollapseVariants(headers, lower, title, keepAll);
      && out - {lower, title} == headers - {lower, title}
      && CollapseVariants(out, lower, title, keepAll) == out
      && if lower in headers && title in headers then
           var sent := Tokens(headers[lower]) + Tokens(headers[title]);
           && title !in out
           && (lower in out <==> sent != [])
           && (lower in out ==> if keepAll then CarriesExactly(out[lower], sent) else out[lower] == sent[0])
         else out == headers
  {
    if lower in headers && title in headers {
      var a, b := headers[lower], headers[title];
      CollapsedValueSpec(a, b, keepAll);
      ReplaceSpec(headers, lower, title, CollapsedValue(a, b, keepAll));
    }
  }

  /** The value sent under a name. */
  function Sent(headers: map<string, string>, name: string): Option<string> {
    if name in headers then Some(headers[name]) else None
  }

  /** One header pair after a pass: a lone spelling as it was, and for two spellings one lower-case
      header with the tokens of both, or the first token only, or none when both were blank. */
  ghost predicate IsSettled(
    lower: Option<string>, title: Option<string>, lower': Option<string>, title': Option<string>, keepAll: bool)
  {
    if lower.Some? && title.Some? then
      var sent := Tokens(lower.value) + Tokens(title.value);
      && title'.None?
      && (lower'.Some? <==> sent != [])
      && (lower'.Some? ==> if keepAll then CarriesExactly(lower'.value, sent) else lower'.value == sent[0])
    else
      lower' == lower && title' == title
  }

  lemma CollapseSettles(headers: map<string, string>, lower: string, title: string, keepAll: bool)
    requires lower != title
    ensures var out := CollapseVariants(headers, lower, title, keepAll);
            && IsSettled(Sent(headers, lower), Sent(headers, title), Sent(out, lower), Sent(out, title), keepAll)
            && forall k :: k != lower && k != title ==> Sent(out, k) == Sent(headers, k)
  {
    var out := CollapseVariants(headers, lower, title, keepAll);
    CollapseSpec(headers, lower, title, keepAll);
    forall k | k != lower && k != title ensures Sent(out, k) == Sent(headers, k) {
      assert Sent(out, k) == Sent(out - {lower, title}, k);
      assert Sent(headers, k) == Sent(headers - {lower, title}, k);
    }
  }

  lemma TwoPairsSettle(headers: map<string, string>, lower: string, title: string, lower': string, title': string)
    requires lower != title && lower' != title' && lower !in {lower', title'} && title !in {lower', title'}
    ensures
      var out := CollapseVariants(CollapseVariants(headers, lower, title, false), lower', title', true);
      && IsSettled(Sent(headers, lower), Sent(headers, title), Sent(out, lower), Sent(out, title), false)
      && IsSettled(Sent(headers, lower'), Sent(headers, title'), Sent(out, lower'), Sent(out, title'), true)
      && forall k :: k !in {lower, title, lower', title'} ==> Sent(out, k) == Sent(headers, k)
  {
    CollapseSettles(headers, lower, title, false);
    CollapseSettles(CollapseVariants(headers, lower, title, false), lower', title', true);
  }

  /** A pass settles the version header to one token and the beta header to all tokens, and leaves
      every other header alone. */
  lemma NormalizeSpec(headers: map<string, string>)
    ensures
      var out := NormalizeVariants(headers);
      && IsSettled(Sent(headers, "anthropic-version"), Sent(headers, "Anthropic-Version"),
                   Sent(out, "anthropic-version"), Sent(out, "Anthropic-Version"), false)
      && IsSettled(Sent(headers, "anthropic-beta"), Sent(headers, "Anthropic-Beta"),
                   Sent(out, "anthropic-beta"), Sent(out, "Anthropic-Beta"), true)
      && forall k :: k !in {"anthropic-version", "Anthropic-Version", "anthropic-beta", "Anthropic-Beta"} ==>
           Sent(out, k) == Sent(headers, k)
  {
    assert |"anthropic-beta"| == |"Anthropic-Beta"| == 14 && |"anthropic-version"| == |"Anthropic-Version"| == 17;
    assert "anthropic-beta"[0] != "Anthropic-Beta"[0] && "anthropic-version"[0] != "Anthropic-Version"[0];
    TwoPairsSettle(headers, "anthropic-version", "Anthropic-Version", "anthropic-beta", "Anthropic-Beta");
  }

  /** Both header pairs are settled by one pass, and a second pass changes nothing. */
  lemma NormalizeVariantsTwice(headers: map<string, string>)
    ensures
      var out := NormalizeVariants(headers);
      && !("anthropic-version" in out && "Anthropic-Version" in out)
      && !("anthropic-beta" in out && "Anthropic-Beta" in out)
      && NormalizeVariants(out) == out
  {
    var version := CollapseVariants(headers, "anthropic-version", "Anthropic-Version", false);
    CollapseSpec(headers, "anthropic-version", "Anthropic-Version", false);
    CollapseSpec(version, "anthropic-beta", "Anthropic-Beta", true);
    var out := NormalizeVariants(headers);
    var others := {"anthropic-beta", "Anthropic-Beta"};
    forall k | k in {"anthropic-version", "Anthropic-Version"}
      ensures k in out <==> k in version
    {
      assert k in out - others <==> k in version - others;
    }
  }
}
