/**
 * The web-login manager: one login window, an overall timeout, and a poll that alternates
 * between a timer, a cookie query and a script in the page. Every callback is one atomic step.
 * The world keeps what is outstanding: armed timers, unanswered queries and scripts, windows
 * whose `closed` event has not fired, and the calls made to the promise of each accepted login.
 */
module LoginManager {
  import opened Options
  import opened Text

  datatype CookieSource = CookieSource(name: string, domain: Option<string>)
  datatype Cookie = Cookie(name: string, domain: string, value: string)

  /** What a provider asks for, by where it is found. */
  datatype Config = Config(cookieSources: seq<CookieSource>, storageKeys: set<string>, headerKeys: set<string>) {
    function CookieKeys(): set<string> { set s | s in cookieSources :: s.name }
    function Required(): set<string> { CookieKeys() + storageKeys + headerKeys }
  }

  // ----- What a cookie jar and a request's headers hold for a provider.

  /** The name agrees, and the cookie's domain contains the one asked for, if any, without its leading dot. */
  predicate Matches(source: CookieSource, c: Cookie) {
    && c.name == source.name
    && (source.domain.Some? && source.domain.value != "" ==>
          var d := source.domain.value;
          Contains(c.domain, if d[0] == '.' then d[1..] else d))
  }

  function FirstMatch(source: CookieSource, jar: seq<Cookie>): Option<string> {
    if jar == [] then None
    else if Matches(source, jar[0]) then Some(jar[0].value)
    else FirstMatch(source, jar[1..])
  }

  /** The value of the first matching cookie for each source; a later source of a name wins. */
  function Extracted(sources: seq<CookieSource>, jar: seq<Cookie>): (found: map<string, string>)
    ensures forall k :: k in found ==> exists i :: 0 <= i < |sources| && sources[i].name == k
  {
    if sources == [] then map[]
    else
      var n := |sources| - 1;
      var before, v := Extracted(sources[..n], jar), FirstMatch(sources[n], jar);
      if v.Some? then before[sources[n].name := v.value] else before
  }

  // ----- The same, cookie by cookie.

  /** The domain a source asks for, without its leading dot. */
  function AskedDomain(source: CookieSource): string {
    var d := source.domain.GetOr("");
    if "." <= d then d[1..] else d
  }

  /** A cookie of the source's name whose domain contains the one asked for; "" is contained in any. */
  ghost predicate Suits(source: CookieSource, c: Cookie) {
    c.name == source.name && exists before, after :: c.domain == before + AskedDomain(source) + after
  }

  /** The first cookie of the jar that suits the source. */
  ghost predicate IsFirstSuiting(source: CookieSource, jar: seq<Cookie>, j: nat) {
    && j < |jar| && Suits(source, jar[j])
    && forall k :: 0 <= k < j ==> !Suits(source, jar[k])
  }

  ghost predicate Suited(source: CookieSource, jar: seq<Cookie>) {
    exists j :: 0 <= j < |jar| && Suits(source, jar[j])
  }

  /** The last source of a name that some cookie of the jar suits. */
  ghost predicate IsLastSuited(sources: seq<CookieSource>, jar: seq<Cookie>, name: string, i: nat) {
    && i < |sources| && sources[i].name == name && Suited(sources[i], jar)
    && forall k :: i < k < |sources| && sources[k].name == name ==> !Suited(sources[k], jar)
  }

  /** `v` is the value of the first cookie that suits the last suited source of the name, if there is one. */
  ghost predicate IsCookieFor(sources: seq<CookieSource>, jar: seq<Cookie>, name: string, v: Option<string>) {
    if v.None? then forall i :: 0 <= i < |sources| && sources[i].name == name ==> !Suited(sources[i], jar)
    else exists i: nat, j: nat ::
           IsLastSuited(sources, jar, name, i) && IsFirstSuiting(sources[i], jar, j) && jar[j].value == v.value
  }

  lemma MatchesIff(source: CookieSource, c: Cookie)
    ensures Matches(source, c) <==> Suits(source, c)
  {
    ContainsIff(c.domain, AskedDomain(source));
    if AskedDomain(source) == "" {
      assert c.domain == "" + AskedDomain(source) + c.domain;
    }
    var d := source.domain.GetOr("");
    assert "." <= d <==> d != "" && d[0] == '.';
  }

  lemma {:induction false} FirstMatchIff(source: CookieSource, jar: seq<Cookie>)
    ensures var v := FirstMatch(source, jar);
            if v.None? then !Suited(source, jar)
            else exists j: nat :: IsFirstSuiting(source, jar, j) && jar[j].value == v.value
  {
    if jar != [] {
      MatchesIff(source, jar[0]);
      if Matches(source, jar[0]) {
        assert IsFirstSuiting(source, jar, 0);
      } else {
        FirstMatchIff(source, jar[1..]);
        FirstSuitingOfTail(source, jar);
      }
    }
  }

  lemma FirstSuitingOfTail(source: CookieSource, jar: seq<Cookie>)
    requires jar != [] && !Suits(source, jar[0])
    ensures Suited(source, jar) ==> Suited(source, jar[1..])
    ensures forall j: nat :: IsFirstSuiting(source, jar[1..], j) ==> IsFirstSuiting(source, jar, j + 1)
  {
    assert forall k :: 0 < k < |jar| ==> jar[k] == jar[1..][k - 1];
  }

  /**
   * A cookie name is found exactly when some source of that name has a cookie in the jar with
   * that name and a domain that contains the one asked for; its value is that of the first such
   * cookie of the last such source.
   */
  lemma {:induction false} ExtractedIff(sources: seq<CookieSource>, jar: seq<Cookie>, name: string)
    ensures var found := Extracted(sources, jar);
            IsCookieFor(sources, jar, name, if name in found then Some(found[name]) else None)
  {
    if sources != [] {
      var n := |sources| - 1;
      ExtractedIff(sources[..n], jar, name);
      FirstMatchIff(sources[n], jar);
      assert forall i :: 0 <= i < n ==> sources[..n][i] == sources[i];
      var v := FirstMatch(sources[n], jar);
      if v.Some? && sources[n].name == name {
        var j: nat :| IsFirstSuiting(sources[n], jar, j) && jar[j].value == v.value;
        assert Suited(sources[n], jar);
        assert IsLastSuited(sources, jar, name, n);
      } else {
        LastSuitedOfInit(sources, jar, name);
      }
    }
  }

  lemma LastSuitedOfInit(sources: seq<CookieSource>, jar: seq<Cookie>, name: string)
    requires sources != []
    requires var last := sources[|sources| - 1]; last.name == name ==> !Suited(last, jar)
    ensures forall i: nat ::
              IsLastSuited(sources[..|sources| - 1], jar, name, i) ==> IsLastSuited(sources, jar, name, i)
  {
    var init := sources[..|sources| - 1];
    assert forall i :: 0 <= i < |init| ==> init[i] == sources[i];
  }

  /** The last header of a lower-case name. */
  function HeaderNamed(request: seq<(string, string)>, lower: string): Option<string> {
    if request == [] then None
    else
      var last := request[|request| - 1];
      if Lower(last.0) == lower then Some(last.1) else HeaderNamed(request[..|request| - 1], lower)
  }

  predicate Captures(request: seq<(string, string)>, key: string) {
    var v := HeaderNamed(request, Lower(key));
    v.Some? && Trim(v.value) != ""
  }

  /** The trimmed non-blank headers among the names asked for, whatever their letter case. */
  function Captured(keys: set<string>, request: seq<(string, string)>): map<string, string> {
    map k | k in keys && Captures(request, k) :: Trim(HeaderNamed(request, Lower(k)).value)
  }

  /** The last header of a name, up to letter case. */
  predicate IsLastNamed(request: seq<(string, string)>, key: string, i: nat) {
    && i < |request| && Lower(request[i].0) == Lower(key)
    && forall j :: i < j < |request| ==> Lower(request[j].0) != Lower(key)
  }

  /** `v` is the trimmed last header of the name, if there is one and it is not blank. */
  ghost predicate IsHeaderFor(request: seq<(string, string)>, key: string, v: Option<string>) {
    if v.None? then forall i: nat :: IsLastNamed(request, key, i) ==> Trim(request[i].1) == ""
    else exists i: nat :: IsLastNamed(request, key, i) && Trim(request[i].1) == v.value != ""
  }

  lemma {:induction false} HeaderNamedIff(request: seq<(string, string)>, key: string)
    ensures var v := HeaderNamed(request, Lower(key));
            if v.None? then forall i: nat :: !IsLastNamed(request, key, i)
            else exists i: nat :: IsLastNamed(request, key, i) && request[i].1 == v.value
  {
    if request != [] {
      var n := |request| - 1;
      var init := request[..n];
      if Lower(request[n].0) == Lower(key) {
        assert IsLastNamed(request, key, n);
      } else {
        HeaderNamedIff(init, key);
        assert forall i :: 0 <= i < n ==> init[i] == request[i];
        assert forall i: nat :: IsLastNamed(init, key, i) <==> IsLastNamed(request, key, i);
      }
    }
  }

  lemma OneLastNamed(request: seq<(string, string)>, key: string, i: nat, j: nat)
    requires IsLastNamed(request, key, i) && IsLastNamed(request, key, j)
    ensures i == j
  {
  }

  /** Captured are the names asked for whose last header, up to letter case, is not blank. */
  lemma CapturedIff(keys: set<string>, request: seq<(string, string)>, key: string)
    ensures var seen := Captured(keys, request);
            if key in keys then IsHeaderFor(request, key, if key in seen then Some(seen[key]) else None)
            else key !in seen
  {
    HeaderNamedIff(request, key);
    forall i: nat, j: nat | IsLastNamed(request, key, i) && IsLastNamed(request, key, j) ensures i == j {
      OneLastNamed(request, key, i, j);
    }
  }

  /** Extracted values; `None` is the null that an absent storage item yields. */
  type Creds = map<string, Option<string>>

  datatype Reason = OpenFailed | Cancelled | WindowClosed | TimedOut
  datatype Result = Success(creds: Creds) | Failure(reason: Reason)

  datatype Kind = MinTimer | OverallTimer | PollTimer
  datatype Timer = Timer(kind: Kind, config: Config)
  datatype Script = Script(config: Config, creds: Creds)

  datatype State = State(
    // the manager's fields
    active: Option<string>, completed: bool, promise: nat, window: Option<nat>,
    minTimer: Option<nat>, overallTimer: Option<nat>, pollTimer: Option<nat>,
    headerCreds: map<string, string>,
    // the world
    sessions: nat, settled: seq<(nat, Result)>, nextId: nat,
    armed: map<nat, Timer>, queries: map<nat, Config>, scripts: map<nat, Script>, windows: map<nat, Config>)

  const INITIAL := State(None, false, 0, None, None, None, None, map[], 0, [], 0, map[], map[], map[], map[])

  datatype Lookup = NotFound | Found(config: Config)
  datatype Opening = Opens | ThrowsBeforeWindow | ThrowsAfterWindow
  datatype CookieReply = CookiesRejected | Cookies(jar: seq<Cookie>)
  datatype ScriptReply = NoValues | Values(values: Creds)

  datatype Event =
    | StartLogin(provider: string, lookup: Lookup, opening: Opening)
    | Cancel
    | Closed(w: nat)
    | TimerFires(id: nat)
    | CookiesArrive(q: nat, cookieReply: CookieReply)
    | ScriptReturns(x: nat, scriptReply: ScriptReply)
    | HeadersSeen(w: nat, request: seq<(string, string)>)
    | ReadyToShow(w: nat)

  predicate Enabled(s: State, e: Event) {
    match e
    case StartLogin(_, _, _) => true
    case Cancel => true
    case Closed(w) => w in s.windows
    case TimerFires(id) => id in s.armed
    case CookiesArrive(q, _) => q in s.queries
    case ScriptReturns(x, reply) =>
      x in s.scripts && (reply.Values? ==> reply.values.Keys <= s.scripts[x].config.storageKeys)
    case HeadersSeen(w, _) => w in s.windows
    case ReadyToShow(w) => w in s.windows
  }

  // ----- The steps.

  function Disarm(armed: map<nat, Timer>, field: Option<nat>): map<nat, Timer> {
    if field.Some? then armed - {field.value} else armed
  }

  function Cleanup(s: State): State {
    s.(completed := true, active := None, window := None, headerCreds := map[],
       armed := Disarm(Disarm(Disarm(s.armed, s.minTimer), s.overallTimer), s.pollTimer),
       minTimer := None, overallTimer := None, pollTimer := None)
  }

  function Finish(s: State, r: Result): State {
    Cleanup(s).(settled := s.settled + [(s.promise, r)])
  }

  function OpenWindow(s: State, config: Config): State {
    s.(window := Some(s.nextId), windows := s.windows[s.nextId := config], nextId := s.nextId + 1)
  }

  function ArmMin(s: State, config: Config): State {
    s.(minTimer := Some(s.nextId), armed := s.armed[s.nextId := Timer(MinTimer, config)], nextId := s.nextId + 1)
  }

  function ArmOverall(s: State, config: Config): State {
    s.(overallTimer := Some(s.nextId), armed := s.armed[s.nextId := Timer(OverallTimer, config)],
       nextId := s.nextId + 1)
  }

  function ArmPoll(s: State, config: Config): State {
    s.(pollTimer := Some(s.nextId), armed := s.armed[s.nextId := Timer(PollTimer, config)], nextId := s.nextId + 1)
  }

  function IssueQuery(s: State, config: Config): State {
    s.(queries := s.queries[s.nextId := config], nextId := s.nextId + 1)
  }

  function IssueScript(s: State, config: Config, creds: Creds): State {
    s.(scripts := s.scripts[s.nextId := Script(config, creds)], nextId := s.nextId + 1)
  }

  function OpenLogin(s: State, config: Config, opening: Opening): State {
    match opening
    case ThrowsBeforeWindow => Finish(s, Failure(OpenFailed))
    case ThrowsAfterWindow => Finish(OpenWindow(s, config), Failure(OpenFailed))
    case Opens => ArmOverall(ArmMin(OpenWindow(s, config), config), config)
  }

  function Begin(s: State, provider: string): State {
    s.(active := Some(provider), completed := false, promise := s.sessions, sessions := s.sessions + 1)
  }

  function Accept(s: State, provider: string, config: Config, opening: Opening): State {
    OpenLogin(Begin(s, provider), config, opening)
  }

  predicate AllFound(config: Config, creds: Creds) {
    config.Required() <= creds.Keys && creds != map[]
  }

  function Check(s: State, config: Config, creds: Creds): State {
    if s.completed then s
    else if AllFound(config, creds) then Finish(s, Success(creds))
    else ArmPoll(s, config)
  }

  function FoundSoFar(headers: map<string, string>, cookies: map<string, string>): Creds {
    var all := headers + cookies;
    map k | k in all :: Some(all[k])
  }

  function OnTimer(s: State, t: Timer): State {
    if s.completed then s
    else
      match t.kind
      case MinTimer => ArmPoll(s, t.config)
      case OverallTimer => Finish(s, Failure(TimedOut))
      case PollTimer => IssueQuery(s, t.config)
  }

  function OnCookies(s: State, config: Config, reply: CookieReply): State {
    if s.completed then s
    else
      match reply
      case CookiesRejected => ArmPoll(s, config)
      case Cookies(jar) =>
        var creds := FoundSoFar(s.headerCreds, Extracted(config.cookieSources, jar));
        if config.storageKeys != {} && s.window.Some? && s.window.value in s.windows
        then IssueScript(s, config, creds)
        else Check(s, config, creds)
  }

  function OnScript(s: State, script: Script, reply: ScriptReply): State {
    Check(s, script.config, if reply.Values? then script.creds + reply.values else script.creds)
  }

  function Next(s: State, e: Event): State
    requires Enabled(s, e)
  {
    match e
    case StartLogin(provider, lookup, opening) =>
      if lookup.Found? && s.active.None? then Accept(s, provider, lookup.config, opening) else s
    case Cancel => if s.active.None? then s else Finish(s, Failure(Cancelled))
    case Closed(w) =>
      var rest := s.(windows := s.windows - {w});
      if s.completed then rest else Finish(rest, Failure(WindowClosed))
    case TimerFires(id) => OnTimer(s.(armed := s.armed - {id}), s.armed[id])
    case CookiesArrive(q, reply) => OnCookies(s.(queries := s.queries - {q}), s.queries[q], reply)
    case ScriptReturns(x, reply) => OnScript(s.(scripts := s.scripts - {x}), s.scripts[x], reply)
    case HeadersSeen(w, request) => s.(headerCreds := Captured(s.windows[w].headerKeys, request) + s.headerCreds)
    case ReadyToShow(_) => s
  }

  // ----- The invariant.

  predicate AtMostOne(ids: set<nat>) {
    forall a, b :: a in ids && b in ids ==> a == b
  }

  /** A timer of this kind is armed, and the manager's field for it names it. */
  predicate ArmedAs(s: State, field: Option<nat>, kind: Kind) {
    field.Some? && field.value in s.armed && s.armed[field.value].kind == kind
  }

  /** Exactly one continuation of the poll is outstanding besides the overall timer. */
  ghost predicate OneContinuation(s: State)
    requires s.overallTimer.Some?
  {
    var overall := s.overallTimer.value;
    || (ArmedAs(s, s.minTimer, MinTimer) && s.armed.Keys == {overall, s.minTimer.value}
        && s.queries == map[] && s.scripts == map[])
    || (ArmedAs(s, s.pollTimer, PollTimer) && s.armed.Keys == {overall, s.pollTimer.value}
        && s.queries == map[] && s.scripts == map[])
    || (s.armed.Keys == {overall} && (exists q :: s.queries.Keys == {q}) && s.scripts == map[])
    || (s.armed.Keys == {overall} && s.queries == map[] && (exists x :: s.scripts.Keys == {x}))
  }

  /** A login is in progress. */
  ghost predicate Running(s: State) {
    && !s.completed
    && s.sessions > 0 && s.promise == s.sessions - 1 && |s.settled| == s.sessions - 1
    && s.window.Some? && s.window.value in s.windows
    && ArmedAs(s, s.overallTimer, OverallTimer)
    && OneContinuation(s)
  }

  /** No login is in progress: timers and window are gone, and every accepted login is settled. */
  ghost predicate Idle(s: State) {
    && (s.sessions > 0 ==> s.completed)
    && |s.settled| == s.sessions
    && s.window.None? && s.minTimer.None? && s.overallTimer.None? && s.pollTimer.None?
    && s.armed == map[]
    && AtMostOne(s.queries.Keys) && AtMostOne(s.scripts.Keys)
    && (s.queries == map[] || s.scripts == map[])
    && (s.sessions == 0 ==> s == INITIAL)
  }

  ghost predicate Inv(s: State) {
    && (forall i :: 0 <= i < |s.settled| ==> s.settled[i].0 == i)
    && (forall id :: id in s.armed || id in s.queries || id in s.scripts || id in s.windows ==> id < s.nextId)
    && (if s.active.Some? then Running(s) else Idle(s))
  }

  /** No timer, query or script of an earlier login is outstanding; its window may still be closing. */
  predicate Drained(s: State) {
    s.armed == map[] && s.queries == map[] && s.scripts == map[]
  }

  predicate Accepts(s: State, e: Event) {
    e.StartLogin? && e.lookup.Found? && s.active.None?
  }

  /** The poll callbacks of an earlier login have been delivered before a new one is accepted. */
  predicate Orderly(s: State, e: Event) {
    Enabled(s, e) && (Accepts(s, e) ==> Drained(s))
  }

  /** The books of a login in progress, whatever timers are armed. */
  ghost predicate Booked(s: State) {
    && s.active.Some? && s.sessions > 0 && s.promise == s.sessions - 1 && |s.settled| == s.sessions - 1
    && (forall i :: 0 <= i < |s.settled| ==> s.settled[i].0 == i)
    && (forall id :: id in s.armed || id in s.queries || id in s.scripts || id in s.windows ==> id < s.nextId)
  }

  /** A login in progress whose poll continuation has just been taken. */
  ghost predicate Paused(s: State) {
    && Booked(s) && !s.completed
    && s.window.Some? && s.window.value in s.windows
    && ArmedAs(s, s.overallTimer, OverallTimer) && s.armed.Keys == {s.overallTimer.value}
    && s.queries == map[] && s.scripts == map[]
  }

  lemma FinishKeepsInv(s: State, r: Result)
    requires Booked(s)
    requires forall id :: id in s.armed ==> Some(id) in {s.minTimer, s.overallTimer, s.pollTimer}
    requires AtMostOne(s.queries.Keys) && AtMostOne(s.scripts.Keys)
    requires s.queries == map[] || s.scripts == map[]
    ensures Inv(Finish(s, r)) && Idle(Finish(s, r))
  {
    assert Finish(s, r).armed.Keys == {};
  }

  lemma AcceptKeepsInv(s: State, provider: string, config: Config, opening: Opening)
    requires Inv(s) && s.active.None? && Drained(s)
    ensures Inv(Accept(s, provider, config, opening))
  {
    var started := Begin(s, provider);
    match opening
    case ThrowsBeforeWindow => FinishKeepsInv(started, Failure(OpenFailed));
    case ThrowsAfterWindow => FinishKeepsInv(OpenWindow(started, config), Failure(OpenFailed));
    case Opens => OpeningKeepsInv(started, config);
  }

  lemma OpeningKeepsInv(s: State, config: Config)
    requires Booked(s) && !s.completed && Drained(s)
    ensures Inv(ArmOverall(ArmMin(OpenWindow(s, config), config), config))
  {
    var ready := ArmOverall(ArmMin(OpenWindow(s, config), config), config);
    assert ready.armed.Keys == {s.nextId + 1, s.nextId + 2};
  }

  /** From a paused login, each way to go on restores the invariant. */
  lemma ContinueKeepsInv(s: State, config: Config, creds: Creds)
    requires Paused(s)
    ensures Inv(ArmPoll(s, config))
    ensures Inv(IssueQuery(s, config))
    ensures Inv(IssueScript(s, config, creds))
    ensures Inv(Check(s, config, creds))
  {
    assert ArmPoll(s, config).armed.Keys == {s.overallTimer.value, s.nextId};
    assert IssueQuery(s, config).queries.Keys == {s.nextId};
    assert IssueScript(s, config, creds).scripts.Keys == {s.nextId};
    FinishKeepsInv(s, Success(creds));
  }

  lemma TimerKeepsInv(s: State, id: nat)
    requires Inv(s) && s.active.Some? && id in s.armed
    ensures Inv(OnTimer(s.(armed := s.armed - {id}), s.armed[id]))
  {
    var rest := s.(armed := s.armed - {id});
    if s.armed[id].kind == OverallTimer {
      FinishKeepsInv(rest, Failure(TimedOut));
    } else {
      assert rest.armed.Keys == {s.overallTimer.value};
      ContinueKeepsInv(rest, s.armed[id].config, map[]);
    }
  }

  lemma QueryKeepsInv(s: State, q: nat, reply: CookieReply)
    requires Inv(s) && s.active.Some? && q in s.queries
    ensures Inv(OnCookies(s.(queries := s.queries - {q}), s.queries[q], reply))
  {
    var rest := s.(queries := s.queries - {q});
    assert rest.queries.Keys == {};
    ContinueKeepsInv(rest, s.queries[q], if reply.Cookies? then
      FoundSoFar(s.headerCreds, Extracted(s.queries[q].cookieSources, reply.jar)) else map[]);
  }

  lemma ScriptKeepsInv(s: State, x: nat, reply: ScriptReply)
    requires Inv(s) && s.active.Some? && x in s.scripts
    ensures Inv(OnScript(s.(scripts := s.scripts - {x}), s.scripts[x], reply))
  {
    var rest, script := s.(scripts := s.scripts - {x}), s.scripts[x];
    assert rest.scripts.Keys == {};
    ContinueKeepsInv(rest, script.config, if reply.Values? then script.creds + reply.values else script.creds);
  }

  /** Every step of every interleaving keeps the invariant. */
  lemma StepKeepsInv(s: State, e: Event)
    requires Inv(s) && Orderly(s, e)
    ensures Inv(Next(s, e))
  {
    match e
    case StartLogin(provider, lookup, opening) =>
      if Accepts(s, e) { AcceptKeepsInv(s, provider, lookup.config, opening); }
    case Cancel => if s.active.Some? { FinishKeepsInv(s, Failure(Cancelled)); }
    case Closed(w) => if s.active.Some? { FinishKeepsInv(s.(windows := s.windows - {w}), Failure(WindowClosed)); }
    case TimerFires(id) => if s.active.Some? { TimerKeepsInv(s, id); }
    case CookiesArrive(q, reply) => if s.active.Some? { QueryKeepsInv(s, q, reply); }
    case ScriptReturns(x, reply) => if s.active.Some? { ScriptKeepsInv(s, x, reply); }
    case HeadersSeen(_, _) =>
    case ReadyToShow(_) =>
  }

  // ----- Whole runs.

  /** A run: each event is enabled where it happens, and accepted logins start drained. */
  ghost predicate Run(states: seq<State>, events: seq<Event>) {
    && |states| == |events| + 1
    && states[0] == INITIAL
    && forall i :: 0 <= i < |events| ==> Orderly(states[i], events[i]) && states[i + 1] == Next(states[i], events[i])
  }

  lemma {:induction false} RunKeepsInv(states: seq<State>, events: seq<Event>, t: nat)
    requires Run(states, events) && t < |states|
    ensures Inv(states[t])
  {
    if t == 0 {
    } else {
      RunKeepsInv(states, events, t - 1);
      StepKeepsInv(states[t - 1], events[t - 1]);
    }
  }

  /** The poll continuations that are outstanding: armed poll timers, queries and scripts. */
  function Continuations(s: State): set<nat> {
    (set id | id in s.armed && s.armed[id].kind != OverallTimer) + s.queries.Keys + s.scripts.Keys
  }

  /**
   * In every interleaving: the calls to promises are one per accepted login and in order, with
   * only the login in progress still unsettled; at most one poll continuation is outstanding,
   * and exactly one while a login is in progress; a login in progress always has its overall
   * timeout armed; and once settled, no timer is armed and the window is gone.
   */
  lemma LoginProtocol(states: seq<State>, events: seq<Event>, t: nat)
    requires Run(states, events) && t < |states|
    ensures var s := states[t];
            && (forall i :: 0 <= i < |s.settled| ==> s.settled[i].0 == i)
            && |s.settled| == (if s.active.Some? then s.sessions - 1 else s.sessions)
            && AtMostOne(Continuations(s))
            && (s.active.Some? ==> Continuations(s) != {} && ArmedAs(s, s.overallTimer, OverallTimer))
            && (s.active.None? ==> s.armed == map[] && s.window.None?)
  {
    RunKeepsInv(states, events, t);
    var s := states[t];
    if s.active.Some? {
      if s.queries != map[] {
        var q :| q in s.queries;
        assert q in Continuations(s);
      } else if s.scripts != map[] {
        var x :| x in s.scripts;
        assert x in Continuations(s);
      } else if ArmedAs(s, s.minTimer, MinTimer) {
        assert s.minTimer.value in Continuations(s);
      } else {
        assert s.pollTimer.value in Continuations(s);
      }
    }
  }

  // ----- Draining: exactly what it is needed for.

  /** A new login keeps to one poll continuation exactly when none of an earlier one is outstanding. */
  lemma StartKeepsOneContinuationIff(s: State, provider: string, config: Config)
    requires Inv(s) && s.active.None?
    ensures AtMostOne(Continuations(Next(s, StartLogin(provider, Found(config), Opens)))) <==> Drained(s)
  {
    var s' := Next(s, StartLogin(provider, Found(config), Opens));
    assert s.nextId + 1 in Continuations(s');
    if s.queries != map[] {
      var q :| q in s.queries;
      assert q in Continuations(s') && q != s.nextId + 1;
    }
    if s.scripts != map[] {
      var x :| x in s.scripts;
      assert x in Continuations(s') && x != s.nextId + 1;
    }
  }

  /** A run of any interleaving: callbacks of earlier logins may still be outstanding. */
  ghost predicate FreeRun(states: seq<State>, events: seq<Event>) {
    && |states| == |events| + 1
    && states[0] == INITIAL
    && forall i :: 0 <= i < |events| ==> Enabled(states[i], events[i]) && states[i + 1] == Next(states[i], events[i])
  }

  /** The timers the fields do not name are poll timers. */
  ghost predicate StrayTimersPoll(s: State) {
    forall id :: id in s.armed ==>
      && (s.armed[id].kind == MinTimer ==> s.minTimer == Some(id))
      && (s.armed[id].kind == OverallTimer ==> s.overallTimer == Some(id))
  }

  /** What holds without any draining. */
  ghost predicate FreeInv(s: State) {
    && (forall i :: 0 <= i < |s.settled| ==> s.settled[i].0 == i)
    && (forall id :: id in s.armed ==> id < s.nextId)
    && StrayTimersPoll(s)
    && (s.sessions == 0 ==> s == INITIAL)
    && (if s.active.Some? then
          && !s.completed && s.sessions > 0 && s.promise == s.sessions - 1 && |s.settled| == s.sessions - 1
          && s.window.Some? && ArmedAs(s, s.overallTimer, OverallTimer)
        else
          && (s.sessions > 0 ==> s.completed) && |s.settled| == s.sessions && s.window.None?
          && s.minTimer.None? && s.overallTimer.None? && s.pollTimer.None?)
  }

  lemma FinishKeepsFreeInv(s: State, r: Result)
    requires StrayTimersPoll(s) && s.sessions > 0 && s.promise == s.sessions - 1 == |s.settled|
    requires forall i :: 0 <= i < |s.settled| ==> s.settled[i].0 == i
    requires forall id :: id in s.armed ==> id < s.nextId
    ensures FreeInv(Finish(s, r)) && Finish(s, r).active.None?
  {
  }

  lemma CheckKeepsFreeInv(s: State, config: Config, creds: Creds)
    requires FreeInv(s) && s.active.Some?
    ensures FreeInv(ArmPoll(s, config)) && FreeInv(Check(s, config, creds))
  {
    FinishKeepsFreeInv(s, Success(creds));
  }

  lemma AcceptKeepsFreeInv(s: State, provider: string, config: Config, opening: Opening)
    requires FreeInv(s) && s.active.None?
    ensures FreeInv(Accept(s, provider, config, opening))
  {
    var started := Begin(s, provider);
    match opening
    case ThrowsBeforeWindow => FinishKeepsFreeInv(started, Failure(OpenFailed));
    case ThrowsAfterWindow => FinishKeepsFreeInv(OpenWindow(started, config), Failure(OpenFailed));
    case Opens =>
  }

  lemma TimerKeepsFreeInv(s: State, id: nat)
    requires FreeInv(s) && s.active.Some? && id in s.armed
    ensures FreeInv(Next(s, TimerFires(id)))
  {
    var rest, timer := s.(armed := s.armed - {id}), s.armed[id];
    if timer.kind == OverallTimer {
      FinishKeepsFreeInv(rest, Failure(TimedOut));
    } else {
      CheckKeepsFreeInv(rest, timer.config, map[]);
    }
  }

  lemma CookiesKeepFreeInv(s: State, config: Config, reply: CookieReply)
    requires FreeInv(s) && s.active.Some?
    ensures FreeInv(OnCookies(s, config, reply))
  {
    var creds :=
      if reply.Cookies? then FoundSoFar(s.headerCreds, Extracted(config.cookieSources, reply.jar)) else map[];
    CheckKeepsFreeInv(s, config, creds);
    assert FreeInv(IssueScript(s, config, creds));
  }

  /** Every step of every interleaving keeps it. */
  lemma StepKeepsFreeInv(s: State, e: Event)
    requires FreeInv(s) && Enabled(s, e)
    ensures FreeInv(Next(s, e))
  {
    match e
    case StartLogin(provider, lookup, opening) =>
      if Accepts(s, e) { AcceptKeepsFreeInv(s, provider, lookup.config, opening); }
    case Cancel => if s.active.Some? { FinishKeepsFreeInv(s, Failure(Cancelled)); }
    case Closed(w) => if s.active.Some? { FinishKeepsFreeInv(s.(windows := s.windows - {w}), Failure(WindowClosed)); }
    case TimerFires(id) => if s.active.Some? { TimerKeepsFreeInv(s, id); }
    case CookiesArrive(q, reply) =>
      if s.active.Some? { CookiesKeepFreeInv(s.(queries := s.queries - {q}), s.queries[q], reply); }
    case ScriptReturns(x, reply) =>
      if s.active.Some? {
        var script := s.scripts[x];
        CheckKeepsFreeInv(s.(scripts := s.scripts - {x}), script.config,
                          if reply.Values? then script.creds + reply.values else script.creds);
      }
    case HeadersSeen(_, _) =>
    case ReadyToShow(_) =>
  }

  lemma {:induction false} FreeRunKeepsInv(states: seq<State>, events: seq<Event>, t: nat)
    requires FreeRun(states, events) && t < |states|
    ensures FreeInv(states[t])
  {
    if t > 0 {
      FreeRunKeepsInv(states, events, t - 1);
      StepKeepsFreeInv(states[t - 1], events[t - 1]);
    }
  }

  /**
   * Without any draining: every accepted login is still settled at most once and in order, with
   * only the login in progress unsettled and its timeout armed; after settlement the window is
   * gone, and a timer that is still armed is a poll timer.
   */
  lemma FreeProtocol(states: seq<State>, events: seq<Event>, t: nat)
    requires FreeRun(states, events) && t < |states|
    ensures var s := states[t];
            && (forall i :: 0 <= i < |s.settled| ==> s.settled[i].0 == i)
            && |s.settled| == (if s.active.Some? then s.sessions - 1 else s.sessions)
            && (s.active.Some? ==> ArmedAs(s, s.overallTimer, OverallTimer))
            && (s.active.None? ==> s.window.None? && forall id :: id in s.armed ==> s.armed[id].kind == PollTimer)
  {
    FreeRunKeepsInv(states, events, t);
    var s := states[t];
    forall id | id in s.armed && s.active.None? ensures s.armed[id].kind == PollTimer {
    }
  }

  /** The state in which the event has been delivered and nothing else has happened. */
  function Delivered(s: State, e: Event): State {
    match e
    case Closed(w) => s.(windows := s.windows - {w})
    case TimerFires(id) => s.(armed := s.armed - {id})
    case CookiesArrive(q, _) => s.(queries := s.queries - {q})
    case ScriptReturns(x, _) => s.(scripts := s.scripts - {x})
    case _ => s
  }

  /** Nothing is in progress for the event to act on; headers are acted on at any time when they are new. */
  predicate NothingToDo(s: State, e: Event)
    requires Enabled(s, e)
  {
    match e
    case StartLogin(_, lookup, _) => lookup.NotFound? || s.active.Some?
    case HeadersSeen(w, request) => Captured(s.windows[w].headerKeys, request).Keys <= s.headerCreds.Keys
    case ReadyToShow(_) => true
    case _ => s.active.None?
  }

  /**
   * In every interleaving, drained or not, and whichever login a callback belongs to: delivering
   * it changes nothing exactly when no login is in progress (for captured headers, when they
   * have no new name). So a callback of an earlier login acts on a login in progress.
   */
  lemma HarmlessIff(states: seq<State>, events: seq<Event>, t: nat)
    requires FreeRun(states, events) && t < |events|
    ensures states[t + 1] == Delivered(states[t], events[t]) <==> NothingToDo(states[t], events[t])
  {
    FreeRunKeepsInv(states, events, t);
    StepHarmlessIff(states[t], events[t]);
  }

  lemma StepHarmlessIff(s: State, e: Event)
    requires FreeInv(s) && Enabled(s, e)
    ensures Next(s, e) == Delivered(s, e) <==> NothingToDo(s, e)
  {
    match e
    case HeadersSeen(w, request) => HeadersHarmlessIff(s, w, request);
    case ReadyToShow(_) =>
    case StartLogin(provider, lookup, opening) => StartHarmlessIff(s, provider, lookup, opening);
    case _ => CallbackHarmlessIff(s, e);
  }

  lemma HeadersHarmlessIff(s: State, w: nat, request: seq<(string, string)>)
    requires w in s.windows
    ensures Next(s, HeadersSeen(w, request)) == s
            <==> Captured(s.windows[w].headerKeys, request).Keys <= s.headerCreds.Keys
  {
    KeptIff(Captured(s.windows[w].headerKeys, request), s.headerCreds);
  }

  lemma StartHarmlessIff(s: State, provider: string, lookup: Lookup, opening: Opening)
    ensures Next(s, StartLogin(provider, lookup, opening)) == s <==> lookup.NotFound? || s.active.Some?
  {
    if lookup.Found? && s.active.None? {
      assert Accept(s, provider, lookup.config, opening).sessions == s.sessions + 1;
    }
  }

  lemma DeliveredKeeps(s: State, e: Event)
    ensures Delivered(s, e).settled == s.settled && Delivered(s, e).nextId == s.nextId
  {
  }

  lemma CallbackHarmlessIff(s: State, e: Event)
    requires FreeInv(s) && Enabled(s, e) && !e.StartLogin? && !e.HeadersSeen? && !e.ReadyToShow?
    ensures Next(s, e) == Delivered(s, e) <==> s.active.None?
  {
    if s.active.Some? {
      CallbackActs(s, e);
      DeliveredKeeps(s, e);
    } else {
      NothingHappens(s, e);
    }
  }

  lemma KeptIff(seen: map<string, string>, kept: map<string, string>)
    ensures seen + kept == kept <==> seen.Keys <= kept.Keys
  {
    assert (seen + kept).Keys == seen.Keys + kept.Keys;
  }

  lemma NothingHappens(s: State, e: Event)
    requires FreeInv(s) && Enabled(s, e) && s.active.None? && !e.StartLogin? && !e.HeadersSeen?
    ensures Next(s, e) == Delivered(s, e)
  {
  }

  predicate Acts(s: State, s': State) {
    |s'.settled| == |s.settled| + 1 || s'.nextId == s.nextId + 1
  }

  lemma CheckActs(s: State, config: Config, creds: Creds)
    requires !s.completed
    ensures Acts(s, Check(s, config, creds)) && Acts(s, ArmPoll(s, config))
  {
  }

  lemma TimerActs(s: State, timer: Timer)
    requires !s.completed
    ensures Acts(s, OnTimer(s, timer))
  {
  }

  lemma CookiesAct(s: State, config: Config, reply: CookieReply)
    requires !s.completed
    ensures Acts(s, OnCookies(s, config, reply))
  {
    if reply.Cookies? {
      CheckActs(s, config, FoundSoFar(s.headerCreds, Extracted(config.cookieSources, reply.jar)));
    }
  }

  /** During a login every poll callback, timeout and close settles it or issues a next identifier. */
  lemma CallbackActs(s: State, e: Event)
    requires !s.completed && Enabled(s, e) && s.active.Some?
    requires !e.StartLogin? && !e.HeadersSeen? && !e.ReadyToShow?
    ensures Acts(s, Next(s, e))
  {
    match e
    case Cancel =>
    case Closed(w) =>
    case TimerFires(id) => TimerActs(s.(armed := s.armed - {id}), s.armed[id]);
    case CookiesArrive(q, reply) => CookiesAct(s.(queries := s.queries - {q}), s.queries[q], reply);
    case ScriptReturns(x, reply) =>
      var script := s.scripts[x];
      CheckActs(s.(scripts := s.scripts - {x}), script.config,
                if reply.Values? then script.creds + reply.values else script.creds);
  }

  /** The window that a `ready-to-show` callback shows: the current one, whichever window it belongs
      to; with `None` it dereferences a null and throws. */
  function ShownBy(s: State): Option<nat> {
    s.window
  }

  /**
   * In every interleaving a `ready-to-show` callback throws exactly when no login is in progress,
   * and shows the window of another login exactly when one is in progress in another window.
   */
  lemma ReadyToShowIff(states: seq<State>, events: seq<Event>, t: nat)
    requires FreeRun(states, events) && t < |events| && events[t].ReadyToShow?
    ensures states[t + 1] == states[t]
    ensures ShownBy(states[t]).None? <==> states[t].active.None?
    ensures ShownBy(states[t]).Some? && ShownBy(states[t]) != Some(events[t].w)
            <==> states[t].active.Some? && states[t].window != Some(events[t].w)
  {
    FreeRunKeepsInv(states, events, t);
  }

  /** The close of any window settles a login in progress as closed, and nothing otherwise. */
  lemma CloseSettlesIff(states: seq<State>, events: seq<Event>, t: nat)
    requires FreeRun(states, events) && t < |events| && events[t].Closed?
    ensures states[t + 1].settled ==
            if states[t].active.Some? then states[t].settled + [(states[t].promise, Failure(WindowClosed))]
            else states[t].settled
  {
    FreeRunKeepsInv(states, events, t);
  }

  // ----- What a successful login delivers.

  ghost predicate NoNulls(creds: Creds) {
    forall k :: k in creds ==> creds[k].Some?
  }

  /** Everything outstanding for the login in progress belongs to the provider of its window. */
  ghost predicate Coherent(s: State) {
    s.active.Some? ==>
      && s.window.Some? && s.window.value in s.windows
      && var config := s.windows[s.window.value];
         && (forall id :: id in s.armed ==> s.armed[id].config == config)
         && (forall q :: q in s.queries ==> s.queries[q] == config)
         && (forall x :: x in s.scripts ==> s.scripts[x].config == config)
  }

  lemma TimerKeepsCoherent(s: State, id: nat)
    requires s.active.Some? && !s.completed && Coherent(s) && id in s.armed
    ensures Coherent(Next(s, TimerFires(id)))
  {
  }

  lemma CookiesKeepCoherent(s: State, q: nat, reply: CookieReply)
    requires s.active.Some? && !s.completed && Coherent(s) && Enabled(s, CookiesArrive(q, reply))
    ensures Coherent(Next(s, CookiesArrive(q, reply)))
  {
  }

  lemma ScriptKeepsCoherent(s: State, x: nat, reply: ScriptReply)
    requires s.active.Some? && !s.completed && Coherent(s) && Enabled(s, ScriptReturns(x, reply))
    ensures Coherent(Next(s, ScriptReturns(x, reply)))
  {
  }

  lemma StepKeepsCoherent(s: State, e: Event)
    requires s.active.Some? ==> !s.completed
    requires Coherent(s) && Orderly(s, e)
    ensures Coherent(Next(s, e))
  {
    if s.active.Some? {
      match e
      case TimerFires(id) => TimerKeepsCoherent(s, id);
      case CookiesArrive(q, reply) => CookiesKeepCoherent(s, q, reply);
      case ScriptReturns(x, reply) => ScriptKeepsCoherent(s, x, reply);
      case _ =>
    }
  }

  /** The login that was accepted at `start`, drained, is the last one accepted before `t`. */
  ghost predicate AcceptedDrained(states: seq<State>, events: seq<Event>, start: nat, t: nat)
    requires FreeRun(states, events) && start < t <= |events|
  {
    && Accepts(states[start], events[start]) && Drained(states[start])
    && forall i :: start < i < t ==> !Accepts(states[i], events[i])
  }

  lemma {:induction false} CoherentSince(states: seq<State>, events: seq<Event>, start: nat, t: nat)
    requires FreeRun(states, events) && start < t <= |events| && AcceptedDrained(states, events, start, t)
    ensures Coherent(states[t])
  {
    FreeRunKeepsInv(states, events, t - 1);
    if t > start + 1 {
      CoherentSince(states, events, start, t - 1);
    }
    StepKeepsCoherent(states[t - 1], events[t - 1]);
  }

  /** What a script will add to has no nulls. */
  ghost predicate ScriptsHaveNoNulls(s: State) {
    forall x :: x in s.scripts ==> NoNulls(s.scripts[x].creds)
  }

  lemma StepKeepsNoNulls(s: State, e: Event)
    requires ScriptsHaveNoNulls(s) && Enabled(s, e)
    ensures ScriptsHaveNoNulls(Next(s, e))
  {
    if e.CookiesArrive? {
      CookiesKeepNoNulls(s.(queries := s.queries - {e.q}), s.queries[e.q], e.cookieReply);
    }
  }

  lemma CookiesKeepNoNulls(s: State, config: Config, reply: CookieReply)
    requires ScriptsHaveNoNulls(s)
    ensures ScriptsHaveNoNulls(OnCookies(s, config, reply))
  {
  }

  lemma {:induction false} FreeRunKeepsNoNulls(states: seq<State>, events: seq<Event>, t: nat)
    requires FreeRun(states, events) && t < |states|
    ensures ScriptsHaveNoNulls(states[t])
  {
    if t > 0 {
      FreeRunKeepsNoNulls(states, events, t - 1);
      StepKeepsNoNulls(states[t - 1], events[t - 1]);
    }
  }

  /** The step settles the login in progress with these credentials. */
  predicate SucceedsWith(s: State, s': State, creds: Creds) {
    s'.settled == s.settled + [(s.promise, Success(creds))]
  }

  lemma OneOutcome(s: State, s': State, a: Creds, b: Creds)
    requires SucceedsWith(s, s', a) && SucceedsWith(s, s', b)
    ensures a == b
  {
    assert s'.settled[|s.settled|] == (s.promise, Success(a));
    assert s'.settled[|s.settled|] == (s.promise, Success(b));
  }

  /** A check settles with the credentials found exactly when it finds every name. */
  lemma CheckSucceedsIff(s: State, config: Config, found: Creds, creds: Creds)
    ensures SucceedsWith(s, Check(s, config, found), creds)
            <==> !s.completed && creds == found && AllFound(config, found)
  {
    if !s.completed && AllFound(config, found) && SucceedsWith(s, Check(s, config, found), creds) {
      OneOutcome(s, Check(s, config, found), creds, found);
    }
    assert s.completed || !AllFound(config, found) ==> Check(s, config, found).settled == s.settled;
  }

  lemma CookiesSucceed(s: State, config: Config, reply: CookieReply, creds: Creds)
    requires SucceedsWith(s, OnCookies(s, config, reply), creds)
    ensures config.Required() <= creds.Keys && NoNulls(creds)
  {
    if reply.Cookies? {
      CheckSucceedsIff(s, config, FoundSoFar(s.headerCreds, Extracted(config.cookieSources, reply.jar)), creds);
    }
  }

  lemma ScriptSucceeds(s: State, script: Script, reply: ScriptReply, creds: Creds)
    requires SucceedsWith(s, OnScript(s, script, reply), creds) && NoNulls(script.creds)
    ensures script.config.Required() <= creds.Keys
    ensures forall k :: k in creds ==>
              (creds[k].None? <==> reply.Values? && k in reply.values && reply.values[k].None?)
  {
    CheckSucceedsIff(s, script.config, if reply.Values? then script.creds + reply.values else script.creds, creds);
  }

  predicate IsFailure(s: State, s': State) {
    s'.settled == s.settled || (|s'.settled| == |s.settled| + 1 && s'.settled[|s.settled|].1.Failure?)
  }

  lemma FailureIsNoSuccess(s: State, s': State, creds: Creds)
    requires IsFailure(s, s')
    ensures !SucceedsWith(s, s', creds)
  {
    assert (s.settled + [(s.promise, Success(creds))])[|s.settled|].1 == Success(creds);
  }

  lemma OtherEventFails(s: State, e: Event)
    requires Enabled(s, e) && !e.CookiesArrive? && !e.ScriptReturns? && !e.StartLogin?
    ensures IsFailure(s, Next(s, e))
  {
  }

  lemma StartFails(s: State, provider: string, lookup: Lookup, opening: Opening)
    ensures IsFailure(s, Next(s, StartLogin(provider, lookup, opening)))
  {
  }

  /** Only cookies and scripts settle with credentials, and only during a login. */
  lemma OthersNeverSucceed(s: State, e: Event, creds: Creds)
    requires Enabled(s, e) && (s.completed || (!e.CookiesArrive? && !e.ScriptReturns?))
    ensures !SucceedsWith(s, Next(s, e), creds)
  {
    match e
    case StartLogin(provider, lookup, opening) => StartFails(s, provider, lookup, opening);
    case CookiesArrive(_, _) => assert Next(s, e).settled == s.settled;
    case ScriptReturns(_, _) => assert Next(s, e).settled == s.settled;
    case _ => OtherEventFails(s, e);
    FailureIsNoSuccess(s, Next(s, e), creds);
  }

  predicate IsReply(e: Event) {
    e.CookiesArrive? || e.ScriptReturns?
  }

  /** The provider that the replied query or script was issued for. */
  function IssuedFor(s: State, e: Event): Config
    requires Enabled(s, e) && IsReply(e)
  {
    if e.CookiesArrive? then s.queries[e.q] else s.scripts[e.x].config
  }

  /** A delivered value is null exactly when the page's script handed in a null for it. */
  ghost predicate NullsFromScript(e: Event, creds: Creds) {
    forall k :: k in creds ==>
      (creds[k].None? <==>
        && e.ScriptReturns? && e.scriptReply.Values?
        && k in e.scriptReply.values && e.scriptReply.values[k].None?)
  }

  lemma SuccessStep(s: State, e: Event, creds: Creds)
    requires ScriptsHaveNoNulls(s) && Enabled(s, e) && SucceedsWith(s, Next(s, e), creds)
    ensures IsReply(e) && !s.completed && IssuedFor(s, e).Required() <= creds.Keys && NullsFromScript(e, creds)
  {
    if s.completed || !IsReply(e) {
      OthersNeverSucceed(s, e, creds);
    } else if e.CookiesArrive? {
      CookiesSucceed(s.(queries := s.queries - {e.q}), s.queries[e.q], e.cookieReply, creds);
    } else {
      ScriptSucceeds(s.(scripts := s.scripts - {e.x}), s.scripts[e.x], e.scriptReply, creds);
    }
  }

  /**
   * In every interleaving a success delivers every name of the provider its query or script was
   * issued for. Presence of a name is what is checked: a delivered value is null exactly when
   * the page's script handed in a null, which is how a missing storage item is reported.
   */
  lemma SuccessDeliversIssuedNames(states: seq<State>, events: seq<Event>, t: nat, creds: Creds)
    requires FreeRun(states, events) && t < |events| && SucceedsWith(states[t], states[t + 1], creds)
    ensures states[t].active.Some? && IsReply(events[t])
    ensures IssuedFor(states[t], events[t]).Required() <= creds.Keys && NullsFromScript(events[t], creds)
  {
    FreeRunKeepsInv(states, events, t);
    FreeRunKeepsNoNulls(states, events, t);
    SuccessStep(states[t], events[t], creds);
    if states[t].sessions == 0 {
      assert states[t] == INITIAL;
    }
  }

  /**
   * That is the provider of the login in progress whenever that login was accepted drained,
   * whatever earlier logins did; so a successful login delivers every name its provider asks for.
   */
  lemma SuccessDeliversEveryName(states: seq<State>, events: seq<Event>, start: nat, t: nat, creds: Creds)
    requires FreeRun(states, events) && start < t < |events| && AcceptedDrained(states, events, start, t)
    requires SucceedsWith(states[t], states[t + 1], creds)
    ensures states[t].window.Some? && states[t].window.value in states[t].windows
    ensures IsReply(events[t])
    ensures IssuedFor(states[t], events[t]) == states[t].windows[states[t].window.value]
    ensures states[t].windows[states[t].window.value].Required() <= creds.Keys
    ensures NullsFromScript(events[t], creds)
  {
    SuccessDeliversIssuedNames(states, events, t, creds);
    CoherentSince(states, events, start, t);
  }

  // ----- Where delivered values come from.

  /** What is collected under a name: the cookie found for it, else the header kept for it. */
  ghost predicate CollectedAt(
    headers: map<string, string>, sources: seq<CookieSource>, jar: seq<Cookie>, name: string, creds: Creds)
  {
    && (forall v :: IsCookieFor(sources, jar, name, Some(v)) ==> name in creds && creds[name] == Some(v))
    && (IsCookieFor(sources, jar, name, None) ==>
          if name in headers then name in creds && creds[name] == Some(headers[name]) else name !in creds)
  }

  lemma OneFirstSuiting(source: CookieSource, jar: seq<Cookie>, i: nat, j: nat)
    requires IsFirstSuiting(source, jar, i) && IsFirstSuiting(source, jar, j)
    ensures i == j
  {
  }

  lemma OneLastSuited(sources: seq<CookieSource>, jar: seq<Cookie>, name: string, i: nat, j: nat)
    requires IsLastSuited(sources, jar, name, i) && IsLastSuited(sources, jar, name, j)
    ensures i == j
  {
  }

  lemma OneCookieFor(
    sources: seq<CookieSource>, jar: seq<Cookie>, name: string, v: Option<string>, w: Option<string>)
    requires IsCookieFor(sources, jar, name, v) && IsCookieFor(sources, jar, name, w)
    ensures v == w
  {
    if v.Some? && w.Some? {
      var i: nat, j: nat :|
        IsLastSuited(sources, jar, name, i) && IsFirstSuiting(sources[i], jar, j) && jar[j].value == v.value;
      var k: nat, l: nat :|
        IsLastSuited(sources, jar, name, k) && IsFirstSuiting(sources[k], jar, l) && jar[l].value == w.value;
      OneLastSuited(sources, jar, name, i, k);
      OneFirstSuiting(sources[i], jar, j, l);
    }
  }

  lemma FoundIsCollected(headers: map<string, string>, sources: seq<CookieSource>, jar: seq<Cookie>, name: string)
    ensures CollectedAt(headers, sources, jar, name, FoundSoFar(headers, Extracted(sources, jar)))
  {
    var found := Extracted(sources, jar);
    var own := if name in found then Some(found[name]) else None;
    ExtractedIff(sources, jar, name);
    forall v | IsCookieFor(sources, jar, name, v) ensures v == own {
      OneCookieFor(sources, jar, name, v, own);
    }
  }

  /** The reply at `t0` brought cookies for this configuration, and this is what was collected with them. */
  ghost predicate CollectedBy(states: seq<State>, events: seq<Event>, t0: nat, config: Config, creds: Creds)
    requires FreeRun(states, events)
  {
    && t0 < |events| && events[t0].CookiesArrive? && events[t0].cookieReply.Cookies?
    && events[t0].q in states[t0].queries && states[t0].queries[events[t0].q] == config
    && forall name :: CollectedAt(states[t0].headerCreds, config.cookieSources, events[t0].cookieReply.jar, name, creds)
  }

  lemma ReplyCollects(states: seq<State>, events: seq<Event>, t: nat)
    requires FreeRun(states, events) && t < |events|
    requires events[t].CookiesArrive? && events[t].cookieReply.Cookies?
    ensures var config := states[t].queries[events[t].q];
            CollectedBy(states, events, t, config,
              FoundSoFar(states[t].headerCreds, Extracted(config.cookieSources, events[t].cookieReply.jar)))
  {
    var config, jar := states[t].queries[events[t].q], events[t].cookieReply.jar;
    forall name { FoundIsCollected(states[t].headerCreds, config.cookieSources, jar, name); }
  }

  lemma RepliesIssue(s: State, config: Config, reply: CookieReply, x: nat)
    requires x in OnCookies(s, config, reply).scripts
    ensures || (x in s.scripts && OnCookies(s, config, reply).scripts[x] == s.scripts[x])
            || (&& reply.Cookies? && x == s.nextId
                && OnCookies(s, config, reply).scripts[x] == Script(config,
                     FoundSoFar(s.headerCreds, Extracted(config.cookieSources, reply.jar))))
  {
  }

  lemma OthersIssueNone(s: State, e: Event, x: nat)
    requires Enabled(s, e) && !e.CookiesArrive? && x in Next(s, e).scripts
    ensures x in s.scripts && Next(s, e).scripts[x] == s.scripts[x]
  {
  }

  /** Only a reply with cookies issues a script, for its own configuration and with what it collected. */
  lemma ScriptsOfStep(s: State, e: Event, x: nat)
    requires Enabled(s, e) && x in Next(s, e).scripts
    ensures || (x in s.scripts && Next(s, e).scripts[x] == s.scripts[x])
            || (&& e.CookiesArrive? && e.cookieReply.Cookies? && x == s.nextId
                && Next(s, e).scripts[x] == Script(s.queries[e.q],
                     FoundSoFar(s.headerCreds, Extracted(s.queries[e.q].cookieSources, e.cookieReply.jar))))
  {
    if e.CookiesArrive? {
      RepliesIssue(s.(queries := s.queries - {e.q}), s.queries[e.q], e.cookieReply, x);
    } else {
      OthersIssueNone(s, e, x);
    }
  }

  /** Every outstanding script was issued by an earlier reply with cookies. */
  lemma {:induction false} ScriptOrigin(states: seq<State>, events: seq<Event>, t: nat, x: nat) returns (t0: nat)
    requires FreeRun(states, events) && t < |states| && x in states[t].scripts
    ensures t0 < t && x == states[t0].nextId
    ensures CollectedBy(states, events, t0, states[t].scripts[x].config, states[t].scripts[x].creds)
  {
    ScriptsOfStep(states[t - 1], events[t - 1], x);
    if x in states[t - 1].scripts && states[t].scripts[x] == states[t - 1].scripts[x] {
      t0 := ScriptOrigin(states, events, t - 1, x);
    } else {
      t0 := t - 1;
      ReplyCollects(states, events, t0);
    }
  }

  /**
   * In every interleaving, what a success delivers under a name: the value that the page's script
   * handed in under it, if any, and otherwise what was collected with the cookies of the reply
   * that settles, or that issued the script - the value of the first cookie that suits the last
   * suited source of that name, else the header kept at that time.
   */
  lemma SuccessDelivers(states: seq<State>, events: seq<Event>, t: nat, creds: Creds)
    returns (t0: nat, collected: Creds)
    requires FreeRun(states, events) && t < |events| && SucceedsWith(states[t], states[t + 1], creds)
    ensures IsReply(events[t]) && t0 <= t
    ensures if events[t].CookiesArrive? then t0 == t else t0 < t && events[t].x == states[t0].nextId
    ensures CollectedBy(states, events, t0, IssuedFor(states[t], events[t]), collected)
    ensures creds == if events[t].ScriptReturns? && events[t].scriptReply.Values?
                     then collected + events[t].scriptReply.values else collected
  {
    var s, e := states[t], events[t];
    if s.completed || !IsReply(e) {
      OthersNeverSucceed(s, e, creds);
    } else if e.CookiesArrive? {
      t0, collected := t, creds;
      CookiesSucceedWith(s.(queries := s.queries - {e.q}), s.queries[e.q], e.cookieReply, creds);
      ReplyCollects(states, events, t);
    } else {
      collected := s.scripts[e.x].creds;
      t0 := ScriptOrigin(states, events, t, e.x);
      ScriptSucceedsWith(s.(scripts := s.scripts - {e.x}), s.scripts[e.x], e.scriptReply, creds);
    }
  }

  lemma ScriptSucceedsWith(s: State, script: Script, reply: ScriptReply, creds: Creds)
    requires SucceedsWith(s, OnScript(s, script, reply), creds)
    ensures creds == if reply.Values? then script.creds + reply.values else script.creds
  {
    CheckSucceedsIff(s, script.config, if reply.Values? then script.creds + reply.values else script.creds, creds);
  }

  lemma CookiesSucceedWith(s: State, config: Config, reply: CookieReply, creds: Creds)
    requires SucceedsWith(s, OnCookies(s, config, reply), creds)
    ensures reply.Cookies? && creds == FoundSoFar(s.headerCreds, Extracted(config.cookieSources, reply.jar))
  {
    if reply.Cookies? {
      CheckSucceedsIff(s, config, FoundSoFar(s.headerCreds, Extracted(config.cookieSources, reply.jar)), creds);
    }
  }

  // ----- What each event does.

  /** Why the event ends the login in progress, or the one it accepts, without success. */
  function FailureBy(s: State, e: Event): Option<Reason>
    requires Enabled(s, e)
  {
    match e
    case StartLogin(_, lookup, opening) =>
      if lookup.Found? && s.active.None? && !opening.Opens? then Some(OpenFailed) else None
    case Cancel => if s.active.Some? then Some(Cancelled) else None
    case Closed(_) => if s.active.Some? then Some(WindowClosed) else None
    case TimerFires(id) => if s.active.Some? && s.armed[id].kind == OverallTimer then Some(TimedOut) else None
    case _ => None
  }

  predicate AsksFor(config: Config, name: string) {
    || (exists i :: 0 <= i < |config.cookieSources| && config.cookieSources[i].name == name)
    || name in config.storageKeys
    || name in config.headerKeys
  }

  /** With this reply there is a value under the name. */
  ghost predicate Brings(s: State, e: Event, name: string)
    requires Enabled(s, e) && IsReply(e)
  {
    match e
    case CookiesArrive(q, reply) =>
      reply.Cookies? && (!IsCookieFor(s.queries[q].cookieSources, reply.jar, name, None) || name in s.headerCreds)
    case ScriptReturns(x, reply) =>
      name in s.scripts[x].creds || (reply.Values? && name in reply.values)
  }

  /** Storage items remain to be asked for, and there is a page to ask. */
  predicate LeavesScript(s: State, config: Config) {
    config.storageKeys != {} && s.window.Some? && s.window.value in s.windows
  }

  /** The reply completes the login in progress: it brings everything asked for, and something at all. */
  ghost predicate Completes(s: State, e: Event)
    requires Enabled(s, e)
  {
    && IsReply(e) && s.active.Some?
    && (e.CookiesArrive? ==> e.cookieReply.Cookies? && !LeavesScript(s, s.queries[e.q]))
    && (forall name :: AsksFor(IssuedFor(s, e), name) ==> Brings(s, e, name))
    && (exists name :: Brings(s, e, name))
  }

  /** The promise of a login is settled for these reasons and by these replies, and by nothing else. */
  lemma SettlesIff(states: seq<State>, events: seq<Event>, t: nat)
    requires FreeRun(states, events) && t < |events|
    ensures var s, e, s' := states[t], events[t], states[t + 1];
            match FailureBy(s, e)
            case Some(reason) =>
              s'.settled == s.settled + [(if e.StartLogin? then s.sessions else s.promise, Failure(reason))]
            case None =>
              if Completes(s, e) then exists creds :: SucceedsWith(s, s', creds) else s'.settled == s.settled
  {
    FreeRunKeepsInv(states, events, t);
    var s, e := states[t], events[t];
    if IsReply(e) && s.active.Some? {
      RepliesSettleIff(s, e);
      assert states[t + 1] == Next(s, e) && FailureBy(s, e).None?;
      if Completes(s, e) {
        var creds :| SucceedsWith(s, Next(s, e), creds);
        assert SucceedsWith(s, states[t + 1], creds);
      }
    } else {
      assert !Completes(s, e);
      OthersSettle(s, e);
    }
  }

  lemma OthersSettle(s: State, e: Event)
    requires FreeInv(s) && Enabled(s, e) && !(IsReply(e) && s.active.Some?)
    ensures match FailureBy(s, e)
            case Some(reason) =>
              Next(s, e).settled == s.settled + [(if e.StartLogin? then s.sessions else s.promise, Failure(reason))]
            case None => Next(s, e).settled == s.settled
  {
  }

  /** The names found are those with a cookie or a kept header. */
  lemma FoundIff(headers: map<string, string>, sources: seq<CookieSource>, jar: seq<Cookie>, name: string)
    ensures name in FoundSoFar(headers, Extracted(sources, jar))
            <==> !IsCookieFor(sources, jar, name, None) || name in headers
  {
    var found := Extracted(sources, jar);
    var own := if name in found then Some(found[name]) else None;
    ExtractedIff(sources, jar, name);
    if IsCookieFor(sources, jar, name, None) {
      OneCookieFor(sources, jar, name, None, own);
    }
  }

  lemma AsksForIff(config: Config, name: string)
    ensures name in config.Required() <==> AsksFor(config, name)
  {
    if name in config.CookieKeys() {
      var source :| source in config.cookieSources && source.name == name;
      var i :| 0 <= i < |config.cookieSources| && config.cookieSources[i] == source;
    }
  }

  /** All names asked for are found, and some name is, said of any credentials with the names found. */
  lemma AllFoundIff(s: State, e: Event, creds: Creds)
    requires Enabled(s, e) && IsReply(e) && forall name :: name in creds <==> Brings(s, e, name)
    ensures AllFound(IssuedFor(s, e), creds)
            <==> && (forall name :: AsksFor(IssuedFor(s, e), name) ==> Brings(s, e, name))
                 && (exists name :: Brings(s, e, name))
  {
    var config := IssuedFor(s, e);
    forall name ensures name in config.Required() <==> AsksFor(config, name) { AsksForIff(config, name); }
    if creds != map[] {
      var name :| name in creds;
      assert Brings(s, e, name);
    }
  }

  lemma CheckSettles(s: State, config: Config, creds: Creds)
    requires !s.completed
    ensures if AllFound(config, creds) then SucceedsWith(s, Check(s, config, creds), creds)
            else Check(s, config, creds).settled == s.settled
  {
  }

  lemma RepliesSettleIff(s: State, e: Event)
    requires FreeInv(s) && Enabled(s, e) && IsReply(e) && s.active.Some?
    ensures if Completes(s, e) then exists creds :: SucceedsWith(s, Next(s, e), creds)
            else Next(s, e).settled == s.settled
  {
    if e.ScriptReturns? {
      ScriptSettlesIff(s, e);
    } else if e.cookieReply.Cookies? && !LeavesScript(s, s.queries[e.q]) {
      CookiesSettleIff(s, e);
    }
  }

  /** A reply that is checked with these credentials. */
  predicate IsCheckedWith(s: State, e: Event, creds: Creds)
    requires Enabled(s, e) && IsReply(e)
  {
    Next(s, e) == Check(Delivered(s, e), IssuedFor(s, e), creds)
  }

  lemma CheckedReplySettlesIff(s: State, e: Event, creds: Creds)
    requires Enabled(s, e) && IsReply(e) && s.active.Some? && !s.completed && IsCheckedWith(s, e, creds)
    requires e.CookiesArrive? ==> e.cookieReply.Cookies? && !LeavesScript(s, s.queries[e.q])
    requires forall name :: name in creds <==> Brings(s, e, name)
    ensures if Completes(s, e) then exists creds :: SucceedsWith(s, Next(s, e), creds)
            else Next(s, e).settled == s.settled
  {
    AllFoundIff(s, e, creds);
    DeliveredKeeps(s, e);
    CheckSettles(Delivered(s, e), IssuedFor(s, e), creds);
    assert Completes(s, e) ==> SucceedsWith(s, Next(s, e), creds);
  }

  lemma ScriptSettlesIff(s: State, e: Event)
    requires Enabled(s, e) && e.ScriptReturns? && s.active.Some? && !s.completed
    ensures if Completes(s, e) then exists creds :: SucceedsWith(s, Next(s, e), creds)
            else Next(s, e).settled == s.settled
  {
    var script := s.scripts[e.x];
    CheckedReplySettlesIff(s, e, if e.scriptReply.Values? then script.creds + e.scriptReply.values else script.creds);
  }

  lemma CookiesAreChecked(s: State, e: Event, creds: Creds)
    requires Enabled(s, e) && e.CookiesArrive? && !s.completed
    requires e.cookieReply.Cookies? && !LeavesScript(s, s.queries[e.q])
    requires creds == FoundSoFar(s.headerCreds, Extracted(s.queries[e.q].cookieSources, e.cookieReply.jar))
    ensures IsCheckedWith(s, e, creds)
  {
  }

  lemma CookiesSettleIff(s: State, e: Event)
    requires Enabled(s, e) && e.CookiesArrive? && s.active.Some? && !s.completed
    requires e.cookieReply.Cookies? && !LeavesScript(s, s.queries[e.q])
    ensures if Completes(s, e) then exists creds :: SucceedsWith(s, Next(s, e), creds)
            else Next(s, e).settled == s.settled
  {
    var config, jar := s.queries[e.q], e.cookieReply.jar;
    var creds := FoundSoFar(s.headerCreds, Extracted(config.cookieSources, jar));
    forall name ensures name in creds <==> Brings(s, e, name) {
      FoundIff(s.headerCreds, config.cookieSources, jar, name);
    }
    CookiesAreChecked(s, e, creds);
    CheckedReplySettlesIff(s, e, creds);
  }

  /** How a login in progress goes on. */
  datatype Continuation = PollLater(config: Config) | QueryNow(config: Config) | RunScript(config: Config)

  function GoesOn(s: State, e: Event): Continuation
    requires Enabled(s, e) && (e.TimerFires? || IsReply(e))
  {
    match e
    case TimerFires(id) =>
      if s.armed[id].kind == MinTimer then PollLater(s.armed[id].config) else QueryNow(s.armed[id].config)
    case CookiesArrive(q, reply) =>
      if reply.Cookies? && LeavesScript(s, s.queries[q]) then RunScript(s.queries[q]) else PollLater(s.queries[q])
    case ScriptReturns(x, _) => PollLater(s.scripts[x].config)
  }

  /**
   * During a login a timer or a reply that does not settle it goes on with exactly one step, for
   * the configuration it belongs to: the minimum time is followed by a poll, a poll by a cookie
   * query, cookies by a script when storage items remain, and an incomplete reply by the next
   * poll. Nothing else changes.
   */
  lemma GoesOnWith(states: seq<State>, events: seq<Event>, t: nat)
    requires FreeRun(states, events) && t < |events| && states[t].active.Some?
    requires events[t].TimerFires? || IsReply(events[t])
    requires states[t + 1].settled == states[t].settled
    ensures var s, s', d := states[t], states[t + 1], Delivered(states[t], events[t]);
            match GoesOn(s, events[t])
            case PollLater(config) =>
              s' == d.(pollTimer := Some(s.nextId), nextId := s.nextId + 1,
                       armed := d.armed[s.nextId := Timer(PollTimer, config)])
            case QueryNow(config) => s' == d.(queries := d.queries[s.nextId := config], nextId := s.nextId + 1)
            case RunScript(config) =>
              exists creds ::
                s' == d.(scripts := d.scripts[s.nextId := Script(config, creds)], nextId := s.nextId + 1)
  {
    FreeRunKeepsInv(states, events, t);
    match events[t]
    case TimerFires(_) => TimerGoesOn(states[t], events[t]);
    case CookiesArrive(_, _) => CookiesGoOn(states[t], events[t]);
    case ScriptReturns(_, _) => ScriptGoesOn(states[t], events[t]);
  }

  lemma TimerGoesOn(s: State, e: Event)
    requires FreeInv(s) && Enabled(s, e) && s.active.Some? && e.TimerFires? && Next(s, e).settled == s.settled
    ensures var d, config := Delivered(s, e), s.armed[e.id].config;
            Next(s, e) == if s.armed[e.id].kind == MinTimer then ArmPoll(d, config) else IssueQuery(d, config)
  {
  }

  lemma CookiesGoOn(s: State, e: Event)
    requires FreeInv(s) && Enabled(s, e) && s.active.Some? && e.CookiesArrive? && Next(s, e).settled == s.settled
    ensures var d, config := Delivered(s, e), s.queries[e.q];
            if e.cookieReply.Cookies? && LeavesScript(s, config)
            then exists creds :: Next(s, e) == IssueScript(d, config, creds)
            else Next(s, e) == ArmPoll(d, config)
  {
    var d, config := Delivered(s, e), s.queries[e.q];
    if e.cookieReply.Cookies? {
      var creds := FoundSoFar(s.headerCreds, Extracted(config.cookieSources, e.cookieReply.jar));
      if LeavesScript(s, config) {
        assert Next(s, e) == IssueScript(d, config, creds);
      } else {
        CheckSettles(d, config, creds);
      }
    }
  }

  lemma ScriptGoesOn(s: State, e: Event)
    requires FreeInv(s) && Enabled(s, e) && s.active.Some? && e.ScriptReturns? && Next(s, e).settled == s.settled
    ensures Next(s, e) == ArmPoll(Delivered(s, e), s.scripts[e.x].config)
  {
    var script := s.scripts[e.x];
    CheckSettles(Delivered(s, e), script.config,
                 if e.scriptReply.Values? then script.creds + e.scriptReply.values else script.creds);
  }

  /** An accepted login that opens has its own window, and its minimum time and timeout armed. */
  lemma AcceptedOpens(s: State, provider: string, config: Config)
    requires s.active.None?
    ensures var s', id := Next(s, StartLogin(provider, Found(config), Opens)), s.nextId;
            s' == s.(active := Some(provider), completed := false, promise := s.sessions, sessions := s.sessions + 1,
                     window := Some(id), windows := s.windows[id := config],
                     minTimer := Some(id + 1), overallTimer := Some(id + 2), nextId := id + 3,
                     armed := s.armed[id + 1 := Timer(MinTimer, config)][id + 2 := Timer(OverallTimer, config)])
  {
  }

  /** What ends a login drops the headers kept for it; no other callback than captured headers changes them. */
  lemma HeadersAfter(states: seq<State>, events: seq<Event>, t: nat, key: string)
    requires FreeRun(states, events) && t < |events|
    ensures var s, e, s' := states[t], events[t], states[t + 1];
            if s'.settled != s.settled then s'.headerCreds == map[]
            else if !e.HeadersSeen? then s'.headerCreds == s.headerCreds
            else if key in s.headerCreds then key in s'.headerCreds && s'.headerCreds[key] == s.headerCreds[key]
            else if key in s.windows[e.w].headerKeys then
              IsHeaderFor(e.request, key, if key in s'.headerCreds then Some(s'.headerCreds[key]) else None)
            else key !in s'.headerCreds
  {
    var e := events[t];
    if e.HeadersSeen? {
      CapturedIff(states[t].windows[e.w].headerKeys, e.request, key);
    } else {
      OthersKeepHeaders(states[t], e);
    }
  }

  /** The headers are kept, unless the promise is settled, which drops them. */
  predicate KeepsHeaders(s: State, s': State) {
    s'.headerCreds == if s'.settled == s.settled then s.headerCreds else map[]
  }

  lemma FinishDropsHeaders(s: State, r: Result)
    ensures KeepsHeaders(s, Finish(s, r))
  {
    assert |Finish(s, r).settled| == |s.settled| + 1;
  }

  lemma CheckKeepsHeaders(s: State, config: Config, creds: Creds)
    ensures KeepsHeaders(s, Check(s, config, creds))
  {
    FinishDropsHeaders(s, Success(creds));
  }

  lemma StartKeepsHeaders(s: State, provider: string, config: Config, opening: Opening)
    ensures KeepsHeaders(s, Accept(s, provider, config, opening))
  {
    var started := Begin(s, provider);
    FinishDropsHeaders(started, Failure(OpenFailed));
    FinishDropsHeaders(OpenWindow(started, config), Failure(OpenFailed));
  }

  lemma CookiesKeepHeaders(s: State, config: Config, reply: CookieReply)
    ensures KeepsHeaders(s, OnCookies(s, config, reply))
  {
    if reply.Cookies? {
      CheckKeepsHeaders(s, config, FoundSoFar(s.headerCreds, Extracted(config.cookieSources, reply.jar)));
    }
  }

  lemma ScriptKeepsHeaders(s: State, e: Event)
    requires Enabled(s, e) && e.ScriptReturns?
    ensures KeepsHeaders(s, Next(s, e))
  {
    var script, reply := s.scripts[e.x], e.scriptReply;
    CheckKeepsHeaders(Delivered(s, e), script.config,
                      if reply.Values? then script.creds + reply.values else script.creds);
  }

  lemma OthersKeepHeaders(s: State, e: Event)
    requires Enabled(s, e) && !e.HeadersSeen?
    ensures KeepsHeaders(s, Next(s, e))
  {
    match e
    case StartLogin(provider, lookup, opening) =>
      if Accepts(s, e) { StartKeepsHeaders(s, provider, lookup.config, opening); }
    case Cancel => FinishDropsHeaders(s, Failure(Cancelled));
    case Closed(w) => FinishDropsHeaders(s.(windows := s.windows - {w}), Failure(WindowClosed));
    case TimerFires(id) => FinishDropsHeaders(s.(armed := s.armed - {id}), Failure(TimedOut));
    case CookiesArrive(q, reply) => CookiesKeepHeaders(s.(queries := s.queries - {q}), s.queries[q], reply);
    case ScriptReturns(_, _) => ScriptKeepsHeaders(s, e);
    case ReadyToShow(_) =>
  }

  /** An idle manager that can accept a login. */
  ghost predicate Ready(s: State) {
    Inv(s) && s.active.None? && Drained(s)
  }

  /** A login has just been accepted from `s`. */
  predicate JustOpened(s: State, config: Config, s1: State) {
    && s1.active.Some? && !s1.completed && s1.promise == s.sessions && s1.sessions == s.sessions + 1
    && s1.settled == s.settled && s1.headerCreds == s.headerCreds && s1.nextId == s.nextId + 3
    && s1.window == Some(s.nextId) && s1.windows == s.windows[s.nextId := config]
    && s1.minTimer == Some(s.nextId + 1) && s1.overallTimer == Some(s.nextId + 2)
    && s1.armed == s.armed[s.nextId + 1 := Timer(MinTimer, config)][s.nextId + 2 := Timer(OverallTimer, config)]
    && s1.queries == s.queries && s1.scripts == s.scripts
  }

  lemma OpenedFacts(s: State, config: Config)
    requires s.active.None?
    ensures JustOpened(s, config, Next(s, StartLogin("web", Found(config), Opens)))
  {
  }

  /** The login in progress waits for the reply to cookie query `q`. */
  predicate WaitingFor(s: State, q: nat, config: Config) {
    && s.active.Some? && !s.completed && s.window.Some? && s.window.value in s.windows
    && s.queries == map[q := config] && s.scripts == map[]
  }

  /** The minimum time has passed and the first poll is due under timer `id`. */
  predicate PollDue(s: State, id: nat, config: Config) {
    && s.active.Some? && !s.completed && s.window.Some? && s.window.value in s.windows
    && id in s.armed && s.armed[id] == Timer(PollTimer, config)
    && s.queries == map[] && s.scripts == map[]
  }

  /** From any idle and drained state three events lead to a login that waits for its cookies; headers are kept. */
  lemma WaitingIsReached(s: State, config: Config) returns (s1: State, s2: State, s3: State)
    requires Ready(s)
    ensures var start := StartLogin("web", Found(config), Opens); Orderly(s, start) && s1 == Next(s, start)
    ensures var minTime := TimerFires(s.nextId + 1); Orderly(s1, minTime) && s2 == Next(s1, minTime)
    ensures var poll := TimerFires(s.nextId + 3); Orderly(s2, poll) && s3 == Next(s2, poll)
    ensures WaitingFor(s3, s.nextId + 4, config) && s3.headerCreds == s.headerCreds && s3.promise == s.sessions
  {
    s1 := Next(s, StartLogin("web", Found(config), Opens));
    OpenedFacts(s, config);
    s2 := ToFirstPoll(s, config, s1);
    s3 := ToFirstQuery(s2, s.nextId + 3, config);
  }

  lemma ToFirstPoll(s: State, config: Config, s1: State) returns (s2: State)
    requires Drained(s) && JustOpened(s, config, s1)
    ensures Enabled(s1, TimerFires(s.nextId + 1)) && s2 == Next(s1, TimerFires(s.nextId + 1))
    ensures PollDue(s2, s.nextId + 3, config) && s2.nextId == s.nextId + 4
    ensures s2.headerCreds == s.headerCreds && s2.promise == s.sessions
  {
    s2 := Next(s1, TimerFires(s.nextId + 1));
  }

  lemma ToFirstQuery(s2: State, id: nat, config: Config) returns (s3: State)
    requires PollDue(s2, id, config)
    ensures Enabled(s2, TimerFires(id)) && s3 == Next(s2, TimerFires(id))
    ensures WaitingFor(s3, s2.nextId, config) && s3.headerCreds == s2.headerCreds && s3.promise == s2.promise
  {
    s3 := Next(s2, TimerFires(id));
  }

  /** A provider with one storage item is logged in with a null: the script finds no such item,
      and the name alone counts as found. */
  lemma AbsentStorageItemCompletesLogin(asked: State, q: nat, name: string) returns (answered: State, done: State)
    requires WaitingFor(asked, q, Config([], {name}, {})) && asked.headerCreds == map[]
    ensures answered == Next(asked, CookiesArrive(q, Cookies([])))
    ensures var script := ScriptReturns(asked.nextId, Values(map[name := None]));
            Enabled(answered, script) && done == Next(answered, script)
    ensures done.settled == asked.settled + [(asked.promise, Success(map[name := None]))]
  {
    var config := Config([], {name}, {});
    answered := ScriptIssued(asked, q, config);
    done := Next(answered, ScriptReturns(asked.nextId, Values(map[name := None])));
    NullCompletes(answered.(scripts := answered.scripts - {asked.nextId}), config, name);
  }

  lemma ScriptIssued(asked: State, q: nat, config: Config) returns (answered: State)
    requires WaitingFor(asked, q, config) && config.storageKeys != {} && config.cookieSources == []
    requires asked.headerCreds == map[]
    ensures answered == Next(asked, CookiesArrive(q, Cookies([])))
    ensures answered.scripts == map[asked.nextId := Script(config, map[])]
    ensures !answered.completed && answered.promise == asked.promise && answered.settled == asked.settled
  {
    assert FoundSoFar(map[], map[]) == map[];
    answered := Next(asked, CookiesArrive(q, Cookies([])));
  }

  lemma NullCompletes(s: State, config: Config, name: string)
    requires !s.completed && config == Config([], {name}, {})
    ensures OnScript(s, Script(config, map[]), Values(map[name := None])) == Finish(s, Success(map[name := None]))
  {
    var values: Creds := map[name := None];
    assert map[] + values == values;
    assert name in values && values != map[];
  }

  lemma CapturedOne(name: string, value: string)
    requires Trimmed(value) && value != ""
    ensures Captured({name}, [(name, value)]) == map[name := value]
  {
    TrimFixesTrimmed(value);
    assert HeaderNamed([(name, value)], Lower(name)) == Some(value);
  }

  /**
   * Headers outlive a cancelled login. From any idle and drained state: a login is opened and
   * cancelled, its window hands in a header before it closes, and the manager is idle and
   * drained again with that header kept.
   */
  lemma LeftoverHeaderIsKept(s: State, name: string, value: string)
    returns (started: State, cancelled: State, handed: State, drained: State)
    requires Ready(s) && s.headerCreds == map[] && Trimmed(value) && value != ""
    ensures var start := StartLogin("web", Found(Config([], {}, {name})), Opens);
            Orderly(s, start) && started == Next(s, start)
    ensures Orderly(started, Cancel) && cancelled == Next(started, Cancel)
    ensures var headers := HeadersSeen(s.nextId, [(name, value)]);
            Orderly(cancelled, headers) && handed == Next(cancelled, headers)
    ensures Orderly(handed, Closed(s.nextId)) && drained == Next(handed, Closed(s.nextId))
    ensures Ready(drained) && drained.headerCreds == map[name := value]
  {
    var config := Config([], {}, {name});
    started, cancelled := OpenedAndCancelled(s, config);
    CapturedOne(name, value);
    handed := Next(cancelled, HeadersSeen(s.nextId, [(name, value)]));
    assert handed == cancelled.(headerCreds := map[name := value]) by {
      var seen := Captured({name}, [(name, value)]);
      assert seen + map[] == seen;
    }
    drained := Next(handed, Closed(s.nextId));
    assert drained == handed.(windows := handed.windows - {s.nextId});
  }

  lemma OpenedAndCancelled(s: State, config: Config) returns (started: State, cancelled: State)
    requires Ready(s)
    ensures var start := StartLogin("web", Found(config), Opens);
            Orderly(s, start) && started == Next(s, start)
    ensures Orderly(started, Cancel) && cancelled == Next(started, Cancel)
    ensures Ready(cancelled) && cancelled.completed && cancelled.headerCreds == map[]
    ensures cancelled.windows == s.windows[s.nextId := config] && cancelled.nextId == s.nextId + 3
    ensures cancelled.sessions == s.sessions + 1
    ensures cancelled.settled == s.settled + [(s.sessions, Failure(Cancelled))]
  {
    started := Next(s, StartLogin("web", Found(config), Opens));
    StepKeepsInv(s, StartLogin("web", Found(config), Opens));
    OpenedFacts(s, config);
    cancelled := Next(started, Cancel);
    StepKeepsInv(started, Cancel);
  }

  /** A header so kept completes the next login, which starts drained and sees no header at all. */
  lemma LeftoverHeaderCompletesNextLogin(asked: State, q: nat, name: string, value: string) returns (done: State)
    requires WaitingFor(asked, q, Config([], {}, {name})) && asked.headerCreds == map[name := value]
    ensures done == Next(asked, CookiesArrive(q, Cookies([])))
    ensures done.settled == asked.settled + [(asked.promise, Success(map[name := Some(value)]))]
  {
    done := Next(asked, CookiesArrive(q, Cookies([])));
    FoundCompletes(asked.(queries := asked.queries - {q}), Config([], {}, {name}), [], name, value);
  }

  /** One name found, and no other asked for, completes the login. */
  lemma FoundCompletes(s: State, config: Config, jar: seq<Cookie>, name: string, value: string)
    requires !s.completed && config.storageKeys == {} && config.Required() == {name}
    requires s.headerCreds + Extracted(config.cookieSources, jar) == map[name := value]
    ensures OnCookies(s, config, Cookies(jar)) == Finish(s, Success(map[name := Some(value)]))
  {
    var creds := FoundSoFar(s.headerCreds, Extracted(config.cookieSources, jar));
    assert creds == map[name := Some(value)];
    assert name in creds && creds != map[];
  }

  /** The close of an earlier window settles the login in progress, whose own window is still open. */
  lemma StaleCloseEndsLoginInProgress(s: State, first: Config, second: Config)
    returns (started: State, cancelled: State, restarted: State, ended: State)
    requires Ready(s)
    ensures started == Next(s, StartLogin("web", Found(first), Opens)) && cancelled == Next(started, Cancel)
    ensures var start := StartLogin("web", Found(second), Opens);
            Orderly(cancelled, start) && restarted == Next(cancelled, start)
    ensures Orderly(restarted, Closed(s.nextId)) && ended == Next(restarted, Closed(s.nextId))
    ensures restarted.window.Some? && restarted.window.value in ended.windows && restarted.window.value != s.nextId
    ensures ended.settled == restarted.settled + [(s.sessions + 1, Failure(WindowClosed))]
  {
    started, cancelled := OpenedAndCancelled(s, first);
    restarted := Next(cancelled, StartLogin("web", Found(second), Opens));
    OpenedFacts(cancelled, second);
    ended := Next(restarted, Closed(s.nextId));
  }

  /**
   * Without draining, the reply to an earlier login's cookie query completes the login in
   * progress with the earlier login's cookies, whatever the login in progress asks for.
   */
  lemma StaleCookiesCompleteNextLogin(asked: State, q: nat, c: Cookie, second: Config)
    returns (cancelled: State, restarted: State, done: State)
    requires WaitingFor(asked, q, Config([CookieSource(c.name, None)], {}, {}))
    ensures cancelled == Next(asked, Cancel)
    ensures restarted == Next(cancelled, StartLogin("web", Found(second), Opens))
    ensures restarted.active.Some? && restarted.promise == asked.sessions
    ensures var reply := CookiesArrive(q, Cookies([c])); Enabled(restarted, reply) && done == Next(restarted, reply)
    ensures done.settled == restarted.settled + [(asked.sessions, Success(map[c.name := Some(c.value)]))]
  {
    var first := Config([CookieSource(c.name, None)], {}, {});
    cancelled, restarted := StaleQuery(asked, q, first, second);
    done := StaleReply(restarted, q, c);
  }

  lemma StaleQuery(asked: State, q: nat, first: Config, second: Config) returns (cancelled: State, restarted: State)
    requires WaitingFor(asked, q, first)
    ensures cancelled == Next(asked, Cancel)
    ensures restarted == Next(cancelled, StartLogin("web", Found(second), Opens))
    ensures restarted.active.Some? && !restarted.completed && restarted.headerCreds == map[]
    ensures restarted.queries == map[q := first] && restarted.promise == asked.sessions
  {
    cancelled := Next(asked, Cancel);
    restarted := Next(cancelled, StartLogin("web", Found(second), Opens));
    OpenedFacts(cancelled, second);
  }

  lemma StaleReply(s: State, q: nat, c: Cookie) returns (done: State)
    requires s.queries == map[q := Config([CookieSource(c.name, None)], {}, {})]
    requires !s.completed && s.headerCreds == map[]
    ensures done == Next(s, CookiesArrive(q, Cookies([c])))
    ensures done.settled == s.settled + [(s.promise, Success(map[c.name := Some(c.value)]))]
  {
    ExtractedOne(c);
    assert map[] + map[c.name := c.value] == map[c.name := c.value];
    FoundCompletes(s.(queries := s.queries - {q}), s.queries[q], [c], c.name, c.value);
    done := Next(s, CookiesArrive(q, Cookies([c])));
  }

  lemma ExtractedOne(c: Cookie)
    ensures Extracted([CookieSource(c.name, None)], [c]) == map[c.name := c.value]
    ensures Config([CookieSource(c.name, None)], {}, {}).Required() == {c.name}
  {
    assert FirstMatch(CookieSource(c.name, None), [c]) == Some(c.value);
  }
}
