/** Building endpoint URLs from a configured base URL: strip a known endpoint, then join a path. */
module GlmProvider {
  import opened Options
  import opened Text

  const CHAT := "/chat/completions"
  const MODELS := "/models"
  const MESSAGES := "/messages"
  const COUNT_TOKENS := "/messages/count_tokens"
  const V1 := "/v1"

  // ----- Parts of a URL.

  predicate IsDelimiter(c: char) { c == '?' || c == '#' }

  /** Where the query or the hash starts, or the length. */
  function QueryStart(url: string): (i: nat)
    ensures i <= |url|
    ensures forall j :: 0 <= j < i ==> !IsDelimiter(url[j])
    ensures i < |url| ==> IsDelimiter(url[i])
  {
    if url == "" || IsDelimiter(url[0]) then 0 else 1 + QueryStart(url[1..])
  }

  function BaseOf(url: string): string { url[..QueryStart(url)] }
  function SuffixOf(url: string): string { url[QueryStart(url)..] }

  predicate NoDelimiter(s: string) {
    '?' !in s && '#' !in s
  }

  /** A query or a hash, or nothing. */
  predicate IsSuffix(s: string) {
    s == "" || s[0] == '?' || s[0] == '#'
  }

  lemma SplitOfParts(base: string, suffix: string)
    requires NoDelimiter(base) && IsSuffix(suffix)
    ensures BaseOf(base + suffix) == base && SuffixOf(base + suffix) == suffix
  {
    var url := base + suffix;
    assert forall j :: 0 <= j < |base| ==> url[j] == base[j];
    assert suffix != "" ==> url[|base|] == suffix[0];
    assert QueryStart(url) == |base|;
  }

  function StripSlashes(s: string): string {
    if s != "" && s[|s| - 1] == '/' then StripSlashes(s[..|s| - 1]) else s
  }

  lemma {:induction false} StripSlashesIsPrefix(s: string)
    ensures StripSlashes(s) <= s
  {
    if s != "" && s[|s| - 1] == '/' {
      StripSlashesIsPrefix(s[..|s| - 1]);
    }
  }

  /** The text ends, in either case, with a lower-case ending. */
  predicate EndsWithCi(s: string, ending: string) {
    |ending| <= |s| && Lower(s[|s| - |ending|..]) == ending
  }

  predicate IsDigit(c: char) { '0' <= c <= '9' }

  function TrailingDigits(s: string): (n: nat)
    ensures n <= |s|
    ensures forall j :: |s| - n <= j < |s| ==> IsDigit(s[j])
    ensures n < |s| ==> !IsDigit(s[|s| - n - 1])
  {
    if s != "" && IsDigit(s[|s| - 1]) then 1 + TrailingDigits(s[..|s| - 1]) else 0
  }

  /** Where a version segment (`/v`, digits) at the end starts. */
  function VersionStart(s: string): (r: Option<nat>)
    ensures r.Some? ==> r.value < |s|
  {
    var n := TrailingDigits(s);
    if n >= 1 && |s| >= n + 2 && LowerChar(s[|s| - n - 1]) == 'v' && s[|s| - n - 2] == '/'
    then Some(|s| - n - 2) else None
  }

  function StripVersion(s: string): string {
    if VersionStart(s).Some? then s[..VersionStart(s).value] else s
  }

  function StripEndpoint(s: string): string {
    if EndsWithCi(s, COUNT_TOKENS) then StripVersion(s[..|s| - |COUNT_TOKENS|])
    else if EndsWithCi(s, MESSAGES) then StripVersion(s[..|s| - |MESSAGES|])
    else if EndsWithCi(s, CHAT) then s[..|s| - |CHAT|]
    else if EndsWithCi(s, MODELS) then s[..|s| - |MODELS|]
    else s
  }

  /** The configured URL without query, trailing slashes and known endpoint. */
  function Stripped(url: string): string {
    StripEndpoint(StripSlashes(BaseOf(url)))
  }

  method StripKnownEndpoint(url: string) returns (base: string, suffix: string)
    ensures base == Stripped(url) && suffix == SuffixOf(url)
  {
    base, suffix := BaseOf(url), SuffixOf(url);
    while base != "" && base[|base| - 1] == '/'
      invariant StripSlashes(base) == StripSlashes(BaseOf(url))
      decreases |base|
    {
      base := base[..|base| - 1];
    }
    base := StripEndpoint(base);
  }

  /** The path to append to a stripped base: a version the base already ends with is not repeated. */
  function PathAfter(base: string, path: string): string {
    var v := VersionStart(base);
    if v.Some? && Lower(base[v.value..]) + "/" <= Lower(path) then path[|base| - v.value..] else path
  }

  function JoinPath(url: string, path: string): string {
    Stripped(url) + PathAfter(Stripped(url), path) + SuffixOf(url)
  }

  // ----- Facts about the parts.

  lemma StripEndpointIsPrefix(s: string)
    ensures StripEndpoint(s) <= s
  {
  }

  lemma StrippedHasNoDelimiter(url: string)
    ensures NoDelimiter(Stripped(url))
  {
    StripSlashesIsPrefix(BaseOf(url));
    StripEndpointIsPrefix(StripSlashes(BaseOf(url)));
  }

  lemma StripSlashesKeeps(s: string)
    requires s != "" && s[|s| - 1] != '/'
    ensures StripSlashes(s) == s
  {
  }

  /** The parts that the next strip sees of a joined URL. */
  lemma JoinedParts(joined: string, suffix: string)
    requires joined != "" && joined[|joined| - 1] != '/' && NoDelimiter(joined) && IsSuffix(suffix)
    ensures Stripped(joined + suffix) == StripEndpoint(joined) && SuffixOf(joined + suffix) == suffix
  {
    SplitOfParts(joined, suffix);
    StripSlashesKeeps(joined);
  }

  lemma EndsWithCiAt(s: string, ending: string, k: nat)
    requires EndsWithCi(s, ending) && 1 <= k <= |ending|
    ensures LowerChar(s[|s| - k]) == ending[|ending| - k]
  {
    assert Lower(s[|s| - |ending|..])[|ending| - k] == LowerChar(s[|s| - k]);
  }

  lemma EndsWithAppended(b: string, ending: string)
    requires Lower(ending) == ending
    ensures EndsWithCi(b + ending, ending) && (b + ending)[..|b|] == b
  {
    assert (b + ending)[|b|..] == ending;
  }

  /** Text whose characters are all lower-case is its own lower-casing. */
  lemma LowerOfPath(s: string)
    requires forall i :: 0 <= i < |s| ==> s[i] == '/' || s[i] == '_' || 'a' <= s[i] <= 'z' || '0' <= s[i] <= '9'
    ensures Lower(s) == s
  {
    forall i | 0 <= i < |s| ensures LowerChar(s[i]) == s[i] {
    }
  }

  lemma EndingsAreLowerCase()
    ensures Lower(CHAT) == CHAT && Lower(MODELS) == MODELS && Lower(V1) == V1
    ensures Lower(MESSAGES) == MESSAGES && Lower(COUNT_TOKENS) == COUNT_TOKENS
  {
    LowerOfPath(CHAT);
    LowerOfPath(MODELS);
    LowerOfPath(V1);
    LowerOfPath(MESSAGES);
    LowerOfPath(COUNT_TOKENS);
  }

  /** One character from the end decides that a text with one ending does not have another. */
  lemma EndsOtherwise(b: string, mine: string, other: string, k: nat)
    requires 1 <= k <= |mine| && k <= |other| && LowerChar(mine[|mine| - k]) != other[|other| - k]
    ensures !EndsWithCi(b + mine, other)
  {
    var s := b + mine;
    assert s[|s| - k] == mine[|mine| - k];
    if EndsWithCi(s, other) {
      EndsWithCiAt(s, other, k);
    }
  }

  lemma StripAppendedChat(b: string)
    ensures StripEndpoint(b + CHAT) == b
  {
    EndingsAreLowerCase();
    EndsWithAppended(b, CHAT);
    EndsOtherwise(b, CHAT, COUNT_TOKENS, 3);
    EndsOtherwise(b, CHAT, MESSAGES, 2);
  }

  lemma StripAppendedModels(b: string)
    ensures StripEndpoint(b + MODELS) == b
  {
    EndingsAreLowerCase();
    EndsWithAppended(b, MODELS);
    EndsOtherwise(b, MODELS, COUNT_TOKENS, 2);
    EndsOtherwise(b, MODELS, MESSAGES, 2);
    EndsOtherwise(b, MODELS, CHAT, 2);
  }

  // ----- What is stripped and joined, part by part.

  /** A version segment: `/v`, in either case, and digits. */
  predicate IsVersion(v: string) {
    && |v| >= 3 && v[0] == '/' && LowerChar(v[1]) == 'v'
    && forall i :: 2 <= i < |v| ==> '0' <= v[i] <= '9'
  }

  /** One of the known endpoints, in either case; the two messages endpoints may follow a version. */
  predicate IsEnding(e: string) {
    || Lower(e) in {"/chat/completions", "/models", "/messages", "/messages/count_tokens"}
    || IsVersioned(e, "/messages")
    || IsVersioned(e, "/messages/count_tokens")
  }

  predicate IsVersioned(e: string, endpoint: string) {
    |e| > |endpoint| && Lower(e[|e| - |endpoint|..]) == endpoint && IsVersion(e[..|e| - |endpoint|])
  }

  /** The last `k` characters are a known endpoint. */
  predicate HasEnding(s: string, k: nat) {
    0 < k <= |s| && IsEnding(s[|s| - k..])
  }

  /** The longest known endpoint at the end has `n` characters; zero stands for none. */
  ghost predicate IsLongestEnding(s: string, n: nat) {
    n <= |s| && (n > 0 ==> HasEnding(s, n)) && forall k :: n < k <= |s| ==> !HasEnding(s, k)
  }

  lemma TrailingDigitsAre(s: string, n: nat)
    requires n <= |s| && (forall j :: |s| - n <= j < |s| ==> IsDigit(s[j]))
    requires n < |s| ==> !IsDigit(s[|s| - n - 1])
    ensures TrailingDigits(s) == n
  {
  }

  /** A text has a version segment from `i` exactly when that is found. */
  lemma VersionStartIff(s: string, i: nat)
    ensures VersionStart(s) == Some(i) <==> i < |s| && IsVersion(s[i..])
  {
    if i < |s| && IsVersion(s[i..]) {
      var n := |s| - i - 2;
      assert forall j :: i + 2 <= j < |s| ==> s[j] == s[i..][j - i];
      assert s[|s| - n - 1] == s[i..][1];
      TrailingDigitsAre(s, n);
    }
  }

  /** No text ends in two of the known endpoints. */
  lemma EndsInOne(s: string)
    ensures EndsWithCi(s, COUNT_TOKENS) ==> !EndsWithCi(s, MESSAGES) && !EndsWithCi(s, CHAT) && !EndsWithCi(s, MODELS)
    ensures EndsWithCi(s, MESSAGES) ==> !EndsWithCi(s, CHAT) && !EndsWithCi(s, MODELS)
    ensures EndsWithCi(s, CHAT) ==> !EndsWithCi(s, MODELS)
  {
    if EndsWithCi(s, COUNT_TOKENS) { EndsWithCiAt(s, COUNT_TOKENS, 2); EndsWithCiAt(s, COUNT_TOKENS, 3); }
    if EndsWithCi(s, MESSAGES) { EndsWithCiAt(s, MESSAGES, 2); }
    if EndsWithCi(s, CHAT) { EndsWithCiAt(s, CHAT, 2); EndsWithCiAt(s, CHAT, 3); }
    if EndsWithCi(s, MODELS) { EndsWithCiAt(s, MODELS, 2); EndsWithCiAt(s, MODELS, 3); }
  }

  lemma PlainEndingIff(s: string, k: nat, endpoint: string)
    requires 0 < k <= |s|
    ensures Lower(s[|s| - k..]) == endpoint <==> k == |endpoint| && EndsWithCi(s, endpoint)
  {
  }

  lemma VersionedEndingIff(s: string, k: nat, endpoint: string)
    requires 0 < k <= |s| && endpoint != ""
    ensures IsVersioned(s[|s| - k..], endpoint) <==>
            EndsWithCi(s, endpoint) && VersionStart(s[..|s| - |endpoint|]) == Some(|s| - k)
  {
    var e := s[|s| - k..];
    if |e| > |endpoint| {
      assert e[|e| - |endpoint|..] == s[|s| - |endpoint|..];
      assert e[..|e| - |endpoint|] == s[..|s| - |endpoint|][|s| - k..];
      VersionStartIff(s[..|s| - |endpoint|], |s| - k);
    } else if EndsWithCi(s, endpoint) {
      assert |s| - k >= |s[..|s| - |endpoint|]|;
    }
  }

  lemma EndingIff(s: string, k: nat)
    requires 0 < k <= |s|
    ensures HasEnding(s, k) <==>
            || (k == |CHAT| && EndsWithCi(s, CHAT))
            || (k == |MODELS| && EndsWithCi(s, MODELS))
            || (EndsWithCi(s, MESSAGES)
                && (k == |MESSAGES| || VersionStart(s[..|s| - |MESSAGES|]) == Some(|s| - k)))
            || (EndsWithCi(s, COUNT_TOKENS)
                && (k == |COUNT_TOKENS| || VersionStart(s[..|s| - |COUNT_TOKENS|]) == Some(|s| - k)))
  {
    PlainEndingIff(s, k, CHAT);
    PlainEndingIff(s, k, MODELS);
    PlainEndingIff(s, k, MESSAGES);
    PlainEndingIff(s, k, COUNT_TOKENS);
    VersionedEndingIff(s, k, MESSAGES);
    VersionedEndingIff(s, k, COUNT_TOKENS);
  }

  lemma EndingAt(s: string, k: nat)
    requires 0 < k <= |s| && |s| - |StripEndpoint(s)| <= k
    ensures HasEnding(s, k) <==> k == |s| - |StripEndpoint(s)|
  {
    EndsInOne(s);
    EndingIff(s, k);
    if EndsWithCi(s, COUNT_TOKENS) {
      assert StripEndpoint(s) == StripVersion(s[..|s| - |COUNT_TOKENS|]);
    } else if EndsWithCi(s, MESSAGES) {
      assert StripEndpoint(s) == StripVersion(s[..|s| - |MESSAGES|]);
    }
  }

  /** The longest known endpoint at the end is stripped, whatever its case. */
  lemma StripsLongestEnding(s: string)
    ensures StripEndpoint(s) <= s && IsLongestEnding(s, |s| - |StripEndpoint(s)|)
  {
    var n := |s| - |StripEndpoint(s)|;
    StripEndpointIsPrefix(s);
    forall k | 0 < k <= |s| && n <= k ensures HasEnding(s, k) <==> k == n {
      EndingAt(s, k);
    }
  }

  lemma OneLongestEnding(s: string, m: nat, n: nat)
    requires IsLongestEnding(s, m) && IsLongestEnding(s, n)
    ensures m == n
  {
  }

  predicate AllSlashes(s: string) {
    forall i :: 0 <= i < |s| ==> s[i] == '/'
  }

  lemma {:induction false} StripSlashesOf(core: string, slashes: string)
    requires AllSlashes(slashes) && (core == "" || core[|core| - 1] != '/')
    ensures StripSlashes(core + slashes) == core
  {
    if slashes == "" {
      assert core + slashes == core;
    } else {
      assert (core + slashes)[..|core + slashes| - 1] == core + slashes[..|slashes| - 1];
      StripSlashesOf(core, slashes[..|slashes| - 1]);
    }
  }

  /** A URL in parts: a text that does not end in a slash, slashes, and a query or hash. */
  predicate IsUrl(url: string, core: string, slashes: string, suffix: string) {
    && url == core + slashes + suffix
    && NoDelimiter(core) && AllSlashes(slashes) && IsSuffix(suffix)
    && (core == "" || core[|core| - 1] != '/')
  }

  lemma {:induction false} StrippedSlashes(s: string) returns (slashes: string)
    ensures s == StripSlashes(s) + slashes && AllSlashes(slashes)
    ensures StripSlashes(s) == "" || StripSlashes(s)[|StripSlashes(s)| - 1] != '/'
  {
    slashes := "";
    if s != "" && s[|s| - 1] == '/' {
      slashes := StrippedSlashes(s[..|s| - 1]);
      slashes := slashes + "/";
    }
  }

  /** Every URL has such parts. */
  lemma UrlParts(url: string) returns (core: string, slashes: string, suffix: string, n: nat)
    ensures IsUrl(url, core, slashes, suffix) && IsLongestEnding(core, n)
  {
    core, suffix := StripSlashes(BaseOf(url)), SuffixOf(url);
    slashes := StrippedSlashes(BaseOf(url));
    StripSlashesIsPrefix(BaseOf(url));
    StripsLongestEnding(core);
    n := |core| - |StripEndpoint(core)|;
    assert url == BaseOf(url) + SuffixOf(url);
  }

  /** Stripping takes off the slashes and the longest known endpoint before them, and keeps query and hash. */
  lemma StripSpec(url: string, core: string, slashes: string, suffix: string, n: nat)
    requires IsUrl(url, core, slashes, suffix) && IsLongestEnding(core, n)
    ensures Stripped(url) == core[..|core| - n] && SuffixOf(url) == suffix
  {
    SplitOfParts(core + slashes, suffix);
    StripSlashesOf(core, slashes);
    StripsLongestEnding(core);
    OneLongestEnding(core, n, |core| - |StripEndpoint(core)|);
  }

  /** The base ends, from `i`, in a version that the path starts with, up to case. */
  predicate RepeatsVersion(base: string, i: nat, path: string) {
    i < |base| && IsVersion(base[i..]) && Lower(base[i..] + "/") <= Lower(path)
  }

  lemma RepeatsIff(base: string, i: nat, path: string)
    ensures RepeatsVersion(base, i, path) <==>
            VersionStart(base) == Some(i) && Lower(base[i..]) + "/" <= Lower(path)
  {
    VersionStartIff(base, i);
    if i < |base| {
      assert Lower(base[i..] + "/") == Lower(base[i..]) + "/";
    }
  }

  lemma PathAfterSpec(base: string, path: string, i: nat)
    ensures RepeatsVersion(base, i, path) ==> |base| - i <= |path| && PathAfter(base, path) == path[|base| - i..]
    ensures VersionStart(base) == Some(i) && !RepeatsVersion(base, i, path) ==> PathAfter(base, path) == path
  {
    RepeatsIff(base, i, path);
  }

  /**
   * Joining in full: the path is appended to the stripped base and query and hash follow. A version
   * that the base ends with and the path starts with is written once, as in the base.
   */
  lemma JoinSpec(url: string, core: string, slashes: string, suffix: string, n: nat, path: string)
    requires IsUrl(url, core, slashes, suffix) && IsLongestEnding(core, n)
    ensures var base := core[..|core| - n];
            && (forall i: nat :: RepeatsVersion(base, i, path) ==>
                  |base| - i <= |path| && JoinPath(url, path) == base + path[|base| - i..] + suffix)
            && ((forall i: nat :: !RepeatsVersion(base, i, path)) ==> JoinPath(url, path) == base + path + suffix)
  {
    var base := core[..|core| - n];
    StripSpec(url, core, slashes, suffix, n);
    forall i: nat | RepeatsVersion(base, i, path)
      ensures |base| - i <= |path| && JoinPath(url, path) == base + path[|base| - i..] + suffix
    {
      PathAfterSpec(base, path, i);
    }
    if VersionStart(base).Some? {
      PathAfterSpec(base, path, VersionStart(base).value);
    }
  }

  predicate Unversioned(path: string) {
    |path| >= 2 && LowerChar(path[1]) != 'v'
  }

  lemma UnversionedPath(b: string, path: string)
    requires Unversioned(path)
    ensures PathAfter(b, path) == path
  {
    var v := VersionStart(b);
    if v.Some? {
      assert Lower(b[v.value..])[1] == 'v';
      assert Lower(path)[1] != 'v';
    }
  }

  // ----- Joining chat and model paths.

  /** A path without a version that stripping takes off again. */
  ghost predicate IsEndpoint(path: string) {
    && Unversioned(path) && path[|path| - 1] != '/' && NoDelimiter(path)
    && forall b :: StripEndpoint(b + path) == b
  }

  lemma ChatAndModelsAreEndpoints()
    ensures IsEndpoint(CHAT) && IsEndpoint(MODELS)
  {
    forall b ensures StripEndpoint(b + CHAT) == b { StripAppendedChat(b); }
    forall b ensures StripEndpoint(b + MODELS) == b { StripAppendedModels(b); }
  }

  lemma StripUndoesJoinTo(url: string, path: string)
    requires IsEndpoint(path)
    ensures Stripped(JoinPath(url, path)) == Stripped(url)
    ensures SuffixOf(JoinPath(url, path)) == SuffixOf(url)
  {
    UnversionedPath(Stripped(url), path);
    StrippedHasNoDelimiter(url);
    EndpointParts(Stripped(url), path, SuffixOf(url));
  }

  lemma EndpointParts(b: string, path: string, suffix: string)
    requires NoDelimiter(b) && IsSuffix(suffix) && IsEndpoint(path)
    ensures Stripped(b + path + suffix) == b && SuffixOf(b + path + suffix) == suffix
  {
    JoinedParts(b + path, suffix);
  }

  /** Stripping after joining with the chat or the models path gives the stripped original, and
      query and hash are kept. */
  lemma StripUndoesJoin(url: string, path: string)
    requires path in {CHAT, MODELS}
    ensures Stripped(JoinPath(url, path)) == Stripped(url)
    ensures SuffixOf(JoinPath(url, path)) == SuffixOf(url)
  {
    ChatAndModelsAreEndpoints();
    StripUndoesJoinTo(url, path);
  }

  /** So switching endpoints does not depend on the endpoint joined before, and joining is idempotent. */
  lemma JoinIsPathIndependent(url: string, first: string, path: string)
    requires first in {CHAT, MODELS}
    ensures JoinPath(JoinPath(url, first), path) == JoinPath(url, path)
  {
    StripUndoesJoin(url, first);
  }

  // ----- Joining versioned paths.

  lemma EndsWithV1(b: string)
    ensures EndsWithCi(b, V1) <==> VersionStart(b).Some? && Lower(b[VersionStart(b).value..]) == V1
    ensures EndsWithCi(b, V1) ==> VersionStart(b) == Some(|b| - 3)
  {
    if EndsWithCi(b, V1) {
      EndsWithCiAt(b, V1, 1);
      EndsWithCiAt(b, V1, 2);
      EndsWithCiAt(b, V1, 3);
      assert TrailingDigits(b[..|b| - 1]) == 0;
    }
  }

  lemma V1PathAfter(b: string, rest: string)
    requires rest != "" && rest[0] == '/'
    ensures PathAfter(b, V1 + rest) == if EndsWithCi(b, V1) then rest else V1 + rest
  {
    EndsWithV1(b);
    var v, path := VersionStart(b), V1 + rest;
    if v.Some? {
      var segment := b[v.value..];
      assert Lower(path)[..4] == V1 + "/";
      if Lower(segment) + "/" <= Lower(path) {
        assert forall i :: 2 <= i < |segment| ==> IsDigit(segment[i]);
        assert (Lower(segment) + "/")[|segment|] == '/' == Lower(path)[|segment|];
        assert forall i :: 0 <= i < |segment| ==> Lower(segment)[i] == (Lower(segment) + "/")[i] == Lower(path)[i];
        assert Lower(path)[3] == '/' && Lower(path)[2] == '1';
        assert |segment| == 3;
        assert Lower(segment) == V1;
      }
    }
  }

  /** The base of a joined versioned path up to and including its version. */
  function Versioned(b: string): string {
    if EndsWithCi(b, V1) then b else b + V1
  }

  lemma VersionedEnds(b: string)
    ensures EndsWithCi(Versioned(b), V1)
    ensures StripVersion(Versioned(b)) == if EndsWithCi(b, V1) then b[..|b| - 3] else b
  {
    EndingsAreLowerCase();
    EndsWithAppended(b, V1);
    EndsWithV1(Versioned(b));
  }

  lemma StripAppendedMessages(r: string)
    ensures StripEndpoint(r + MESSAGES) == StripVersion(r)
  {
    EndingsAreLowerCase();
    EndsWithAppended(r, MESSAGES);
    EndsOtherwise(r, MESSAGES, COUNT_TOKENS, 2);
  }

  lemma StripAppendedCountTokens(r: string)
    ensures StripEndpoint(r + COUNT_TOKENS) == StripVersion(r)
  {
    EndingsAreLowerCase();
    EndsWithAppended(r, COUNT_TOKENS);
  }

  predicate IsMessagesPath(rest: string) { rest == MESSAGES || rest == COUNT_TOKENS }

  lemma MessagesPathFacts(rest: string)
    requires IsMessagesPath(rest)
    ensures rest != "" && rest[0] == '/' && rest[|rest| - 1] != '/' && NoDelimiter(rest)
    ensures forall r :: StripEndpoint(r + rest) == StripVersion(r)
  {
    forall r ensures StripEndpoint(r + rest) == StripVersion(r) {
      if rest == MESSAGES { StripAppendedMessages(r); } else { StripAppendedCountTokens(r); }
    }
  }

  /** What is left of the base after joining a versioned messages path and stripping again. */
  lemma StripAfterMessages(url: string, rest: string)
    requires IsMessagesPath(rest)
    ensures var b := Stripped(url);
            Stripped(JoinPath(url, V1 + rest)) == WithoutV1(b)
    ensures SuffixOf(JoinPath(url, V1 + rest)) == SuffixOf(url)
  {
    MessagesPathFacts(rest);
    StripAfterVersioned(url, rest);
    VersionedEnds(Stripped(url));
  }

  lemma StripAfterVersioned(url: string, rest: string)
    requires rest != "" && rest[0] == '/' && rest[|rest| - 1] != '/' && NoDelimiter(rest)
    ensures Stripped(JoinPath(url, V1 + rest)) == StripEndpoint(Versioned(Stripped(url)) + rest)
    ensures SuffixOf(JoinPath(url, V1 + rest)) == SuffixOf(url)
  {
    StrippedHasNoDelimiter(url);
    VersionedJoinText(Stripped(url), rest);
    VersionedParts(Stripped(url), SuffixOf(url), rest);
  }

  lemma VersionedParts(b: string, suffix: string, rest: string)
    requires NoDelimiter(b) && IsSuffix(suffix)
    requires rest != "" && rest[|rest| - 1] != '/' && NoDelimiter(rest)
    ensures Stripped(Versioned(b) + rest + suffix) == StripEndpoint(Versioned(b) + rest)
    ensures SuffixOf(Versioned(b) + rest + suffix) == suffix
  {
    JoinedParts(Versioned(b) + rest, suffix);
  }

  /** The stripped base ends in a version segment 1 that is upper-case or doubled. */
  predicate AwkwardVersion(b: string) {
    EndsWithCi(b, V1) && (b[|b| - 3..] != V1 || EndsWithCi(b[..|b| - 3], V1))
  }

  lemma SameTextIff(head: string, mid: string, mid': string, tail: string)
    requires |mid| == |mid'|
    ensures head + mid + tail == head + mid' + tail <==> mid == mid'
  {
    assert (head + mid + tail)[|head|..|head| + |mid|] == mid;
    assert (head + mid' + tail)[|head|..|head| + |mid|] == mid';
  }

  /** The text of a versioned join, for a base that ends in the version and for one that does not. */
  lemma VersionedJoinText(base: string, rest: string)
    requires rest != "" && rest[0] == '/'
    ensures base + PathAfter(base, V1 + rest) == if EndsWithCi(base, V1) then base + rest else base + V1 + rest
  {
    V1PathAfter(base, rest);
    assert base + (V1 + rest) == base + V1 + rest;
  }

  /** Joining to a base that ends in a version, against joining to it without that version. */
  lemma DropVersionAndJoinIff(c: string, version: string, rest: string)
    requires |version| == 3 && EndsWithCi(c + version, V1) && rest != "" && rest[0] == '/'
    ensures c + PathAfter(c, V1 + rest) == c + version + PathAfter(c + version, V1 + rest)
            <==> version == V1 && !EndsWithCi(c, V1)
  {
    VersionedJoinText(c, rest);
    VersionedJoinText(c + version, rest);
    if EndsWithCi(c, V1) {
      assert |c + rest| != |c + version + rest|;
    } else {
      SameTextIff(c, version, V1, rest);
    }
  }

  lemma SameSuffixIff(a: string, b: string, suffix: string)
    ensures a + suffix == b + suffix <==> a == b
  {
    if a + suffix == b + suffix {
      assert (a + suffix)[..|a|] == a && (b + suffix)[..|b|] == b;
    }
  }

  /** The base a versioned messages join leaves behind. */
  function WithoutV1(b: string): string {
    if EndsWithCi(b, V1) then b[..|b| - 3] else b
  }

  /** Joining to the base without its version, against joining to the base itself. */
  lemma RejoinIff(b: string, rest: string)
    requires rest != "" && rest[0] == '/'
    ensures WithoutV1(b) + PathAfter(WithoutV1(b), V1 + rest) == b + PathAfter(b, V1 + rest) <==> !AwkwardVersion(b)
  {
    if EndsWithCi(b, V1) {
      var c, version := b[..|b| - 3], b[|b| - 3..];
      assert b == c + version;
      DropVersionAndJoinIff(c, version, rest);
    }
  }

  /**
   * Joining a versioned path (another messages path, the same again, or the versioned models
   * path) after a versioned messages path equals joining it at once, exactly when the stripped
   * base does not end in an upper-case or doubled version.
   */
  lemma MessagesJoinIsPathIndependentIff(url: string, first: string, rest: string)
    requires IsMessagesPath(first) && rest != "" && rest[0] == '/'
    ensures JoinPath(JoinPath(url, V1 + first), V1 + rest) == JoinPath(url, V1 + rest)
            <==> !AwkwardVersion(Stripped(url))
  {
    var b := Stripped(url);
    StripAfterMessages(url, first);
    RejoinIff(b, rest);
    SameSuffixIff(WithoutV1(b) + PathAfter(WithoutV1(b), V1 + rest), b + PathAfter(b, V1 + rest), SuffixOf(url));
  }

  /**
   * Joining a path without a version after a versioned messages path equals joining it at once,
   * exactly when the stripped base does not end in that version.
   */
  lemma MessagesThenUnversionedIff(url: string, first: string, path: string)
    requires IsMessagesPath(first) && Unversioned(path)
    ensures JoinPath(JoinPath(url, V1 + first), path) == JoinPath(url, path) <==> !EndsWithCi(Stripped(url), V1)
  {
    var b := Stripped(url);
    StripAfterMessages(url, first);
    UnversionedPath(b, path);
    UnversionedPath(WithoutV1(b), path);
    SameSuffixIff(WithoutV1(b) + path, b + path, SuffixOf(url));
    SameSuffixIff(WithoutV1(b), b, path);
    assert WithoutV1(b) == b <==> !EndsWithCi(b, V1);
  }

  /** For the chat and the models path, after either messages path. */
  lemma MessagesThenChatOrModelsIff(url: string, first: string)
    requires IsMessagesPath(first)
    ensures JoinPath(JoinPath(url, V1 + first), CHAT) == JoinPath(url, CHAT) <==> !EndsWithCi(Stripped(url), V1)
    ensures JoinPath(JoinPath(url, V1 + first), MODELS) == JoinPath(url, MODELS) <==> !EndsWithCi(Stripped(url), V1)
  {
    ChatAndModelsAreEndpoints();
    MessagesThenUnversionedIff(url, first, CHAT);
    MessagesThenUnversionedIff(url, first, MODELS);
  }

  /** What is left of the base after joining the versioned models path and stripping again. */
  lemma StripAfterVersionedModels(url: string)
    ensures Stripped(JoinPath(url, V1 + MODELS)) == Versioned(Stripped(url))
    ensures SuffixOf(JoinPath(url, V1 + MODELS)) == SuffixOf(url)
  {
    StripAfterVersioned(url, MODELS);
    StripAppendedModels(Versioned(Stripped(url)));
  }

  /** Joining a versioned path after the versioned models path equals joining it at once, for every
      URL; so joining the versioned models path is idempotent. */
  lemma VersionedModelsThenVersioned(url: string, rest: string)
    requires rest != "" && rest[0] == '/'
    ensures JoinPath(JoinPath(url, V1 + MODELS), V1 + rest) == JoinPath(url, V1 + rest)
  {
    StripAfterVersionedModels(url);
    VersionedEnds(Stripped(url));
    VersionedJoinText(Stripped(url), rest);
    VersionedJoinText(Versioned(Stripped(url)), rest);
  }

  /** Joining a path without a version after it equals joining it at once, exactly when the stripped
      base ends in the version already. */
  lemma VersionedModelsThenUnversionedIff(url: string, path: string)
    requires Unversioned(path)
    ensures JoinPath(JoinPath(url, V1 + MODELS), path) == JoinPath(url, path) <==> EndsWithCi(Stripped(url), V1)
  {
    var b := Stripped(url);
    StripAfterVersionedModels(url);
    UnversionedPath(b, path);
    UnversionedPath(Versioned(b), path);
    SameSuffixIff(Versioned(b) + path, b + path, SuffixOf(url));
    SameSuffixIff(Versioned(b), b, path);
    assert Versioned(b) == b <==> EndsWithCi(b, V1);
  }
}
