/**
 * The login manager as an object whose fields its methods and callbacks update. Each of them
 * performs the step of its event, keeps what holds in every interleaving, and keeps the whole
 * protocol when logins are accepted drained.
 */
module LoginManagerObject {
  import opened Options
  import opened Text
  import opened LoginManager

  /** What one event keeps. */
  lemma EventKeeps(s: State, e: Event)
    requires FreeInv(s) && Enabled(s, e)
    ensures FreeInv(Next(s, e))
    ensures Inv(s) && Orderly(s, e) ==> Inv(Next(s, e))
  {
    StepKeepsFreeInv(s, e);
    if Inv(s) && Orderly(s, e) {
      StepKeepsInv(s, e);
    }
  }

  class Manager {
    var active: Option<string>
    var completed: bool
    var promise: nat
    var window: Option<nat>
    var minTimer: Option<nat>
    var overallTimer: Option<nat>
    var pollTimer: Option<nat>
    var headerCreds: map<string, string>
    // what the runtime keeps
    var sessions: nat
    var settled: seq<(nat, Result)>
    var nextId: nat
    var armed: map<nat, Timer>
    var queries: map<nat, Config>
    var scripts: map<nat, Script>
    var windows: map<nat, Config>

    ghost function Snapshot(): State
      reads this
    {
      State(active, completed, promise, window, minTimer, overallTimer, pollTimer, headerCreds,
            sessions, settled, nextId, armed, queries, scripts, windows)
    }

    /** Holds between any two events. */
    ghost predicate Valid()
      reads this
    {
      FreeInv(Snapshot())
    }

    /** Holds between any two events as long as logins are accepted drained. */
    ghost predicate Protocol()
      reads this
    {
      Inv(Snapshot())
    }

    constructor ()
      ensures Snapshot() == INITIAL && Valid() && Protocol()
    {
      active, completed, promise, window := None, false, 0, None;
      minTimer, overallTimer, pollTimer, headerCreds := None, None, None, map[];
      sessions, settled, nextId := 0, [], 0;
      armed, queries, scripts, windows := map[], map[], map[], map[];
    }

    method SetTimer(kind: Kind, config: Config) returns (id: nat)
      modifies this`armed, this`nextId
      ensures id == old(nextId) && nextId == id + 1
      ensures armed == old(armed)[id := Timer(kind, config)]
    {
      id := nextId;
      armed, nextId := armed[id := Timer(kind, config)], nextId + 1;
    }

    method Resolve(r: Result)
      modifies this`settled
      ensures settled == old(settled) + [(promise, r)]
    {
      settled := settled + [(promise, r)];
    }

    method CleanUp()
      modifies this`completed, this`active, this`window, this`headerCreds, this`armed
      modifies this`minTimer, this`overallTimer, this`pollTimer
      ensures completed && active.None? && window.None? && headerCreds == map[]
      ensures minTimer.None? && overallTimer.None? && pollTimer.None?
      ensures armed == old(Disarm(Disarm(Disarm(armed, minTimer), overallTimer), pollTimer))
    {
      completed, active := true, None;
      var remaining := armed;
      if minTimer.Some? { remaining := remaining - {minTimer.value}; }
      if overallTimer.Some? { remaining := remaining - {overallTimer.value}; }
      if pollTimer.Some? { remaining := remaining - {pollTimer.value}; }
      armed, minTimer, overallTimer, pollTimer := remaining, None, None, None;
      // closing the window leaves it among the windows until its `closed` event
      window, headerCreds := None, map[];
    }

    method Fail(reason: Reason)
      modifies this
      ensures Snapshot() == Finish(old(Snapshot()), Failure(reason))
    {
      CleanUp();
      Resolve(Failure(reason));
    }

    method ShowWindow(config: Config)
      modifies this`window, this`windows, this`nextId
      ensures Snapshot() == OpenWindow(old(Snapshot()), config)
    {
      window, windows, nextId := Some(nextId), windows[nextId := config], nextId + 1;
    }

    method ArmTimers(config: Config)
      modifies this`armed, this`nextId, this`minTimer, this`overallTimer
      ensures Snapshot() == ArmOverall(ArmMin(old(Snapshot()), config), config)
    {
      var id := SetTimer(MinTimer, config);
      minTimer := Some(id);
      id := SetTimer(OverallTimer, config);
      overallTimer := Some(id);
    }

    method OpenLoginWindow(config: Config, opening: Opening)
      modifies this
      ensures Snapshot() == OpenLogin(old(Snapshot()), config, opening)
    {
      match opening
      case ThrowsBeforeWindow => Fail(OpenFailed);
      case ThrowsAfterWindow => ShowWindow(config); Fail(OpenFailed);
      case Opens => ShowWindow(config); ArmTimers(config);
    }

    method BeginSession(provider: string)
      modifies this`active, this`completed, this`promise, this`sessions
      ensures Snapshot() == Begin(old(Snapshot()), provider)
    {
      active, completed, promise, sessions := Some(provider), false, sessions, sessions + 1;
    }

    method AcceptLogin(provider: string, config: Config, opening: Opening)
      modifies this
      ensures Snapshot() == Accept(old(Snapshot()), provider, config, opening)
    {
      BeginSession(provider);
      OpenLoginWindow(config, opening);
    }

    method Start(provider: string, lookup: Lookup, opening: Opening)
      requires Valid()
      modifies this
      ensures Snapshot() == Next(old(Snapshot()), StartLogin(provider, lookup, opening))
      ensures Valid()
      ensures old(Protocol() && Orderly(Snapshot(), StartLogin(provider, lookup, opening))) ==> Protocol()
    {
      EventKeeps(Snapshot(), StartLogin(provider, lookup, opening));
      if lookup.NotFound? || active.Some? {
        return;
      }
      AcceptLogin(provider, lookup.config, opening);
    }

    method CancelLogin()
      requires Valid()
      modifies this
      ensures Snapshot() == Next(old(Snapshot()), Cancel)
      ensures Valid()
      ensures old(Protocol()) ==> Protocol()
    {
      EventKeeps(Snapshot(), Cancel);
      if active.None? {
        return;
      }
      Fail(Cancelled);
    }

    method OnClosed(w: nat)
      requires Valid()
      requires w in windows
      modifies this
      ensures Snapshot() == Next(old(Snapshot()), Closed(w))
      ensures Valid()
      ensures old(Protocol()) ==> Protocol()
    {
      EventKeeps(Snapshot(), Closed(w));
      windows := windows - {w};
      if !completed {
        Fail(WindowClosed);
      }
    }

    method SchedulePoll(config: Config)
      modifies this
      ensures Snapshot() == ArmPoll(old(Snapshot()), config)
    {
      var id := SetTimer(PollTimer, config);
      pollTimer := Some(id);
    }

    method TimerDue(timer: Timer)
      modifies this
      ensures Snapshot() == OnTimer(old(Snapshot()), timer)
    {
      if completed {
        return;
      }
      match timer.kind
      case MinTimer => SchedulePoll(timer.config);
      case OverallTimer => Fail(TimedOut);
      case PollTimer => queries, nextId := queries[nextId := timer.config], nextId + 1;
    }

    method OnTimerFired(id: nat)
      requires Valid()
      requires id in armed
      modifies this
      ensures Snapshot() == Next(old(Snapshot()), TimerFires(id))
      ensures Valid()
      ensures old(Protocol()) ==> Protocol()
    {
      EventKeeps(Snapshot(), TimerFires(id));
      var timer := armed[id];
      armed := armed - {id};
      TimerDue(timer);
    }

    method CompleteLogin(creds: Creds)
      modifies this
      ensures Snapshot() == Finish(old(Snapshot()), Success(creds))
    {
      CleanUp();
      Resolve(Success(creds));
    }

    method CheckCredentials(config: Config, creds: Creds)
      modifies this
      ensures Snapshot() == Check(old(Snapshot()), config, creds)
    {
      if completed {
        return;
      }
      if config.Required() <= creds.Keys && creds != map[] {
        CompleteLogin(creds);
      } else {
        SchedulePoll(config);
      }
    }

    method CookiesReplied(config: Config, reply: CookieReply)
      modifies this
      ensures Snapshot() == OnCookies(old(Snapshot()), config, reply)
    {
      if completed {
        return;
      }
      match reply
      case CookiesRejected => SchedulePoll(config);
      case Cookies(jar) =>
        var found := ExtractCookies(config.cookieSources, jar);
        var creds := FoundSoFar(headerCreds, found);
        if config.storageKeys != {} && window.Some? && window.value in windows {
          scripts, nextId := scripts[nextId := Script(config, creds)], nextId + 1;
        } else {
          CheckCredentials(config, creds);
        }
    }

    method OnCookiesArrived(q: nat, reply: CookieReply)
      requires Valid()
      requires q in queries
      modifies this
      ensures Snapshot() == Next(old(Snapshot()), CookiesArrive(q, reply))
      ensures Valid()
      ensures old(Protocol()) ==> Protocol()
    {
      EventKeeps(Snapshot(), CookiesArrive(q, reply));
      var config := queries[q];
      queries := queries - {q};
      CookiesReplied(config, reply);
    }

    method OnScriptReturned(x: nat, reply: ScriptReply)
      requires Valid()
      requires x in scripts
      requires reply.Values? ==> reply.values.Keys <= scripts[x].config.storageKeys
      modifies this
      ensures Snapshot() == Next(old(Snapshot()), ScriptReturns(x, reply))
      ensures Valid()
      ensures old(Protocol()) ==> Protocol()
    {
      EventKeeps(Snapshot(), ScriptReturns(x, reply));
      var script := scripts[x];
      scripts := scripts - {x};
      var creds := script.creds;
      if reply.Values? {
        creds := creds + reply.values;
      }
      CheckCredentials(script.config, creds);
    }

    method OnHeadersSeen(w: nat, request: seq<(string, string)>)
      requires Valid()
      requires w in windows
      modifies this`headerCreds
      ensures Snapshot() == Next(old(Snapshot()), HeadersSeen(w, request))
      ensures Valid()
      ensures old(Protocol()) ==> Protocol()
    {
      EventKeeps(Snapshot(), HeadersSeen(w, request));
      var seen := CaptureHeaders(windows[w].headerKeys, request);
      headerCreds := seen + headerCreds;
    }

    /** Shows the current window, whichever window `w` is; `None` stands for the null dereference. */
    method OnReadyToShow(w: nat) returns (shown: Option<nat>)
      requires Valid() && w in windows
      ensures shown == ShownBy(Snapshot()) && (shown.None? <==> active.None?)
    {
      shown := window;
    }
  }

  /** The loop over cookie sources. */
  method ExtractCookies(sources: seq<CookieSource>, jar: seq<Cookie>) returns (found: map<string, string>)
    ensures found == Extracted(sources, jar)
  {
    found := map[];
    for i := 0 to |sources|
      invariant found == Extracted(sources[..i], jar)
    {
      assert sources[..i + 1][..i] == sources[..i];
      var matched := FirstMatch(sources[i], jar);
      if matched.Some? {
        found := found[sources[i].name := matched.value];
      }
    }
    assert sources[..|sources|] == sources;
  }

  /** The normalisation of header names and the loop over header sources. */
  method CaptureHeaders(keys: set<string>, request: seq<(string, string)>) returns (seen: map<string, string>)
    ensures seen == Captured(keys, request)
  {
    var normalized: map<string, string> := map[];
    for i := 0 to |request|
      invariant forall k :: k in normalized <==> HeaderNamed(request[..i], k).Some?
      invariant forall k :: k in normalized ==> HeaderNamed(request[..i], k) == Some(normalized[k])
    {
      assert request[..i + 1][..i] == request[..i];
      normalized := normalized[Lower(request[i].0) := request[i].1];
    }
    assert request[..|request|] == request;
    seen := map[];
    var todo := keys;
    while todo != {}
      invariant todo <= keys
      invariant forall k :: k in seen <==> k in keys - todo && Captures(request, k)
      invariant forall k :: k in seen ==> seen[k] == Trim(HeaderNamed(request, Lower(k)).value)
      decreases |todo|
    {
      var k :| k in todo;
      todo := todo - {k};
      if Lower(k) in normalized && Trim(normalized[Lower(k)]) != "" {
        seen := seen[k := Trim(normalized[Lower(k)])];
      }
    }
  }
}
