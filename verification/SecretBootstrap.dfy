/**
 * The secret bootstrap of the desktop shell: each start of the local server reads `server.env`,
 * generates the secrets that are missing, writes the file back and launches the server with
 * them. Credentials are stored encrypted under the storage key of the running server.
 */
module SecretBootstrap {
  import opened Options
  import opened Text
  import opened ServerEnvFile

  /** The record names the bootstrap works with. */
  datatype Names = Names(jwt: string, storageKey: string, keyVersion: string, api: string, bootstrapped: string) {
    /** Five different names. */
    predicate Valid() {
      && storageKey !in {jwt, api, keyVersion, bootstrapped}
      && jwt !in {api, keyVersion, bootstrapped}
      && api !in {keyVersion, bootstrapped}
      && keyVersion != bootstrapped
    }

    predicate IsWritten(name: string) { name in {jwt, storageKey, keyVersion, api} }

    /** The file format can carry the names that are written. */
    ghost predicate Printable() {
      forall name :: IsWritten(name) ==> WellFormedPair(name, "")
    }
  }

  const NAMES := Names("JWT_SECRET", "STORAGE_ENCRYPTION_KEY", "STORAGE_ENCRYPTION_KEY_VERSION",
                       "API_KEY_SECRET", "OMNIROUTE_BOOTSTRAPPED")

  lemma NamesAreValid()
    ensures NAMES.Valid()
  {
    assert |NAMES.jwt| == 10 && |NAMES.api| == 14 && |NAMES.storageKey| == 22 && |NAMES.keyVersion| == 30;
    assert NAMES.storageKey[0] != NAMES.bootstrapped[0];
  }

  predicate IsNameChar(c: char) {
    'A' <= c <= 'Z' || c == '_'
  }

  lemma NameIsPrintable(name: string)
    requires name != "" && forall i :: 0 <= i < |name| ==> IsNameChar(name[i])
    ensures WellFormedPair(name, "")
  {
    assert |name| != |"__proto__"| || name[2] != "__proto__"[2];
  }

  lemma NamesArePrintable()
    ensures NAMES.Printable()
  {
    NameIsPrintable(NAMES.jwt);
    NameIsPrintable(NAMES.storageKey);
    NameIsPrintable(NAMES.keyVersion);
    NameIsPrintable(NAMES.api);
  }

  /** What a start meets: the two environments that override the file, fresh random secrets,
      whether the database can be inspected, and whether the write will succeed. */
  datatype StartInput = StartInput(
    preferred: Env, process: Env,
    jwt: string, storageKey: string, api: string,
    inspectable: bool, writeSucceeds: bool)
  {
    function Overlay(): Env { preferred + process }

    predicate Fresh() { IsHex(jwt) && IsHex(storageKey) && IsHex(api) }

    /** Neither environment mentions the name, not even with an empty value. */
    predicate LeavesAlone(name: string) { name !in preferred && name !in process }
  }

  predicate IsHexDigit(c: char) {
    '0' <= c <= '9' || 'a' <= c <= 'f'
  }

  predicate IsHex(s: string) {
    s != "" && forall i :: 0 <= i < |s| ==> IsHexDigit(s[i])
  }

  /** JavaScript falsiness of a record entry. */
  predicate Missing(env: Env, name: string) {
    name !in env || env[name] == ""
  }

  // ----- What is given under a name.

  function Value(env: Env, name: string): Option<string> {
    if name in env then Some(env[name]) else None
  }

  predicate Blank(v: Option<string>) {
    v.None? || v.value == ""
  }

  /** By the process environment, else by the preferred environment file, else by `server.env`. */
  function Given(persisted: Env, input: StartInput, name: string): Option<string> {
    if name in input.process then Some(input.process[name])
    else if name in input.preferred then Some(input.preferred[name])
    else Value(persisted, name)
  }

  /** A value is given for each of the three secrets. */
  predicate SecretsGiven(n: Names, persisted: Env, input: StartInput) {
    && !Blank(Given(persisted, input, n.jwt))
    && !Blank(Given(persisted, input, n.storageKey))
    && !Blank(Given(persisted, input, n.api))
  }

  // ----- One start.

  /** The two records under construction and whether the file must be rewritten. */
  datatype Draft = Draft(persisted: Env, serverEnv: Env, changed: bool)

  function Put(d: Draft, name: string, value: string): Draft {
    Draft(d.persisted[name := value], d.serverEnv[name := value], true)
  }

  function Supply(d: Draft, name: string, value: string): Draft {
    if Missing(d.serverEnv, name) then Put(d, name, value) else d
  }

  datatype Outcome = InspectionFailed | Refused | Launched(draft: Draft)

  function Bootstrap(n: Names, persisted: Env, hasRows: bool, input: StartInput): Outcome {
    var afterJwt := Supply(Draft(persisted, persisted + input.Overlay(), false), n.jwt, input.jwt);
    if !Missing(afterJwt.serverEnv, n.storageKey) then Launched(Supply(afterJwt, n.api, input.api))
    else if !input.inspectable then InspectionFailed
    else if hasRows then Refused
    else
      var afterKey := Put(Put(afterJwt, n.storageKey, input.storageKey), n.keyVersion, "v1");
      Launched(Supply(afterKey, n.api, input.api))
  }

  function FinalEnv(n: Names, d: Draft): Env {
    if d.changed then d.serverEnv[n.bootstrapped := "true"] else d.serverEnv
  }

  /** The record a launch leaves in the file: rewritten if it changed and the write succeeds. */
  function Kept(persisted: Env, d: Draft, writeSucceeds: bool): Env {
    if d.changed && writeSucceeds then d.persisted else persisted
  }

  // ----- The system.

  /**
   * The file, the encrypted values of the database (each by the key it is under) and the running
   * server. `rows` are the credentials of provider connections, which a start inspects; `other`
   * are the encrypted values of other tables, which it does not.
   */
  datatype State =
    State(file: Option<string>, rows: multiset<string>, other: multiset<string>, server: Option<Env>)
  {
    function AllValues(): multiset<string> { rows + other }
  }

  ghost predicate FileAfter(file: Option<string>, d: Draft, writeSucceeds: bool, file': Option<string>) {
    if d.changed && writeSucceeds
    then exists entries :: Enumerates(entries, d.persisted) && file' == Some(Print(entries))
    else file' == file
  }

  ghost predicate StartStep(n: Names, s: State, input: StartInput, s': State) {
    && s.server.None?
    && match Bootstrap(n, Parse(s.file), s.rows != multiset{}, input)
       case Launched(d) =>
         && s'.rows == s.rows && s'.other == s.other
         && s'.server == Some(FinalEnv(n, d)) && FileAfter(s.file, d, input.writeSucceeds, s'.file)
       case _ => s' == s
  }

  datatype Action =
    | Start(input: StartInput)
    | StoreCredential
    | StoreOther
    | RemoveValues
    | ServerDies
    | DeleteFile

  ghost predicate Step(n: Names, s: State, a: Action, s': State) {
    match a
    case Start(input) => input.Fresh() && StartStep(n, s, input, s')
    case StoreCredential =>
      s.server.Some? && !Missing(s.server.value, n.storageKey)
      && s' == s.(rows := s.rows + multiset{s.server.value[n.storageKey]})
    case StoreOther =>
      s.server.Some? && !Missing(s.server.value, n.storageKey)
      && s' == s.(other := s.other + multiset{s.server.value[n.storageKey]})
    case RemoveValues =>
      s'.rows <= s.rows && s'.other <= s.other && s' == s.(rows := s'.rows, other := s'.other)
    case ServerDies => s' == s.(server := None)
    case DeleteFile => s' == s.(file := None)
  }

  ghost predicate Run(n: Names, states: seq<State>, actions: seq<Action>) {
    && |states| == |actions| + 1
    && forall i :: 0 <= i < |actions| ==> Step(n, states[i], actions[i], states[i + 1])
  }

  /** What every step keeps holds over the whole run. */
  lemma {:induction false} HoldsOverRun(states: seq<State>, keep: State -> bool, t: nat)
    requires t < |states| && keep(states[0])
    requires forall i :: 0 <= i < |states| - 1 && keep(states[i]) ==> keep(states[i + 1])
    ensures keep(states[t])
  {
    if t > 0 {
      HoldsOverRun(states, keep, t - 1);
      assert keep(states[t - 1]) ==> keep(states[t - 1 + 1]);
    }
  }

  // ----- One storage key.

  function StoredKey(n: Names, persisted: Env): Option<string> {
    if Missing(persisted, n.storageKey) then None else Some(persisted[n.storageKey])
  }

  predicate AllUnder(values: multiset<string>, key: string) {
    forall v :: v in values ==> v == key
  }

  /** Values agree with each other, with the running server and with the file, and so do those two. */
  ghost predicate Agree(n: Names, persisted: Env, values: multiset<string>, server: Option<Env>) {
    var stored := StoredKey(n, persisted);
    && (forall a, b :: a in values && b in values ==> a == b)
    && (server.Some? ==> !Missing(server.value, n.storageKey) && AllUnder(values, server.value[n.storageKey]))
    && (stored.Some? ==> AllUnder(values, stored.value))
    && (server.Some? && stored.Some? ==> stored.value == server.value[n.storageKey])
  }

  /** Some of the encrypted values agree in the state they are in. */
  ghost predicate AgreeIn(n: Names, s: State, values: multiset<string>) {
    Agree(n, Parse(s.file), values, s.server)
  }

  /** The credentials of provider connections are under one key. */
  ghost predicate OneCredentialKey(n: Names, s: State) {
    AgreeIn(n, s, s.rows)
  }

  /** All encrypted values are under one key. */
  ghost predicate OneKey(n: Names, s: State) {
    AgreeIn(n, s, s.AllValues())
  }

  lemma SecretsAreWellFormed(n: Names, name: string, value: string)
    requires n.Printable() && n.IsWritten(name)
    requires IsHex(value) || value == "v1"
    ensures WellFormedPair(name, value)
  {
    assert WellFormedPair(name, "");
    assert forall i :: 0 <= i < |value| ==> !IsSpace(value[i]) && value[i] != '\n';
  }

  lemma SupplyKeepsWellFormed(n: Names, d: Draft, name: string, value: string)
    requires n.Printable() && n.IsWritten(name) && IsHex(value) && WellFormed(d.persisted)
    ensures WellFormed(Supply(d, name, value).persisted) && WellFormed(Put(d, name, value).persisted)
  {
    SecretsAreWellFormed(n, name, value);
  }

  lemma DraftIsWellFormed(n: Names, persisted: Env, hasRows: bool, input: StartInput)
    requires n.Printable() && WellFormed(persisted)
    requires input.Fresh() && Bootstrap(n, persisted, hasRows, input).Launched?
    ensures WellFormed(Bootstrap(n, persisted, hasRows, input).draft.persisted)
  {
    var d := Draft(persisted, persisted + input.Overlay(), false);
    SupplyKeepsWellFormed(n, d, n.jwt, input.jwt);
    var afterJwt := Supply(d, n.jwt, input.jwt);
    SupplyKeepsWellFormed(n, afterJwt, n.api, input.api);
    SupplyKeepsWellFormed(n, afterJwt, n.storageKey, input.storageKey);
    SecretsAreWellFormed(n, n.keyVersion, "v1");
    var afterKey := Put(Put(afterJwt, n.storageKey, input.storageKey), n.keyVersion, "v1");
    SupplyKeepsWellFormed(n, afterKey, n.api, input.api);
  }

  /** After a launch the file reads as the record the launch means to keep. */
  lemma FileReadsAsKept(n: Names, s: State, input: StartInput, s': State)
    requires n.Printable() && input.Fresh() && StartStep(n, s, input, s')
    requires Bootstrap(n, Parse(s.file), s.rows != multiset{}, input).Launched?
    ensures var d := Bootstrap(n, Parse(s.file), s.rows != multiset{}, input).draft;
            Parse(s'.file) == Kept(Parse(s.file), d, input.writeSucceeds)
  {
    var persisted := Parse(s.file);
    var d := Bootstrap(n, persisted, s.rows != multiset{}, input).draft;
    if d.changed && input.writeSucceeds {
      var entries :| Enumerates(entries, d.persisted) && s'.file == Some(Print(entries));
      ParseIsWellFormed(s.file);
      DraftIsWellFormed(n, persisted, s.rows != multiset{}, input);
      ParseOfPrint(entries, d.persisted);
    }
  }

  /**
   * The condition, known when a start begins, under which it keeps these values under one key.
   * Without a key in effect: the start is refused, or the fresh key is the one of the values and
   * the file will agree. Otherwise: the key in effect is the one of values and file.
   */
  predicate KeySafeStart(n: Names, persisted: Env, hasRows: bool, values: multiset<string>, input: StartInput) {
    var stored, given := StoredKey(n, persisted), Given(persisted, input, n.storageKey);
    if Blank(given) then
      || hasRows || !input.inspectable
      || (&& AllUnder(values, input.storageKey)
          && (input.writeSucceeds || stored.None? || stored.value == input.storageKey))
    else
      AllUnder(values, given.value) && (stored.None? || stored.value == given.value)
  }

  predicate AllSecrets(n: Names, env: Env) {
    !Missing(env, n.jwt) && !Missing(env, n.storageKey) && !Missing(env, n.api)
  }

  /** What a launch does to a secret: it generates the missing one, and keeps the one in effect. */
  ghost predicate SecretLaunched(
    persisted: Env, effective: Env, kept: Env, launched: Env, name: string, generated: string)
  {
    && name in launched
    && if Missing(effective, name) then
         launched[name] == generated && name in kept && kept[name] == generated
       else
         && launched[name] == effective[name]
         && (name in kept <==> name in persisted)
         && (name in kept ==> kept[name] == persisted[name])
  }

  lemma LaunchedKey(n: Names, persisted: Env, hasRows: bool, input: StartInput)
    requires n.Valid() && Bootstrap(n, persisted, hasRows, input).Launched?
    ensures var d := Bootstrap(n, persisted, hasRows, input).draft;
            var effective := persisted + input.Overlay();
            && SecretLaunched(persisted, effective, d.persisted, FinalEnv(n, d), n.storageKey, input.storageKey)
            && (Missing(effective, n.storageKey) ==> !hasRows && input.inspectable && d.changed)
  {
  }

  lemma LaunchedJwt(n: Names, persisted: Env, hasRows: bool, input: StartInput)
    requires n.Valid() && Bootstrap(n, persisted, hasRows, input).Launched?
    ensures var d := Bootstrap(n, persisted, hasRows, input).draft;
            SecretLaunched(persisted, persisted + input.Overlay(), d.persisted, FinalEnv(n, d), n.jwt, input.jwt)
  {
  }

  lemma LaunchedApi(n: Names, persisted: Env, hasRows: bool, input: StartInput)
    requires n.Valid() && Bootstrap(n, persisted, hasRows, input).Launched?
    ensures var d := Bootstrap(n, persisted, hasRows, input).draft;
            SecretLaunched(persisted, persisted + input.Overlay(), d.persisted, FinalEnv(n, d), n.api, input.api)
  {
  }

  lemma ChangedIff(n: Names, persisted: Env, hasRows: bool, input: StartInput)
    requires n.Valid() && Bootstrap(n, persisted, hasRows, input).Launched?
    ensures var d := Bootstrap(n, persisted, hasRows, input).draft;
            var effective := persisted + input.Overlay();
            && (d.changed <==> !AllSecrets(n, effective))
            && (!d.changed ==> d.persisted == persisted)
  {
  }

  lemma LaunchKeepsAgreementIff(
    n: Names, persisted: Env, hasRows: bool, values: multiset<string>, input: StartInput)
    requires n.Valid() && input.Fresh() && Agree(n, persisted, values, None)
    requires Bootstrap(n, persisted, hasRows, input).Launched?
    ensures var d := Bootstrap(n, persisted, hasRows, input).draft;
            Agree(n, Kept(persisted, d, input.writeSucceeds), values, Some(FinalEnv(n, d)))
            <==> KeySafeStart(n, persisted, hasRows, values, input)
  {
    LaunchedKey(n, persisted, hasRows, input);
    var d := Bootstrap(n, persisted, hasRows, input).draft;
    AgreementIff(n, persisted, values, input, Kept(persisted, d, input.writeSucceeds), d.persisted, FinalEnv(n, d));
  }

  /** The same for any records that treat the storage key as a launch does. */
  lemma AgreementIff(
    n: Names, persisted: Env, values: multiset<string>, input: StartInput, left: Env, kept: Env, launched: Env)
    requires input.storageKey != "" && Agree(n, persisted, values, None)
    requires Missing(persisted + input.Overlay(), n.storageKey) ==> input.inspectable
    requires var effective := persisted + input.Overlay();
             && SecretLaunched(persisted, effective, kept, launched, n.storageKey, input.storageKey)
             && (left == kept || left == persisted)
             && (Missing(effective, n.storageKey) ==> (if input.writeSucceeds then left == kept else left == persisted))
    ensures Agree(n, left, values, Some(launched)) <==> KeySafeStart(n, persisted, false, values, input)
  {
  }

  /** A start keeps any of the encrypted values under one key exactly when it is key-safe for them. */
  lemma StartKeepsAgreementIff(n: Names, s: State, input: StartInput, s': State, values: multiset<string>)
    requires n.Valid() && n.Printable()
    requires AgreeIn(n, s, values) && input.Fresh() && StartStep(n, s, input, s')
    ensures AgreeIn(n, s', values) <==> KeySafeStart(n, Parse(s.file), s.rows != multiset{}, values, input)
  {
    var persisted := Parse(s.file);
    if Bootstrap(n, persisted, s.rows != multiset{}, input).Launched? {
      FileReadsAsKept(n, s, input, s');
      LaunchKeepsAgreementIff(n, persisted, s.rows != multiset{}, values, input);
    }
  }

  /** The start is key-safe for all encrypted values. */
  predicate SafeStart(n: Names, s: State, input: StartInput) {
    KeySafeStart(n, Parse(s.file), s.rows != multiset{}, s.AllValues(), input)
  }

  /** The start finds no key in effect, sees no credential, and leaves a value under another key than its own. */
  predicate OrphansOther(n: Names, s: State, input: StartInput) {
    && Missing(Parse(s.file), n.storageKey) && s.rows == multiset{} && input.inspectable
    && !AllUnder(s.other, input.storageKey)
  }

  /** With the key left alone by both environments, a start orphans the values it does not inspect, or is safe. */
  lemma LeftAloneIsSafeIff(n: Names, s: State, input: StartInput)
    requires OneKey(n, s) && input.LeavesAlone(n.storageKey)
    ensures SafeStart(n, s, input) <==> !OrphansOther(n, s, input)
  {
    if s.rows == multiset{} {
      assert s.AllValues() == s.other;
    }
  }

  /** For the credentials that a start inspects it is always safe then. */
  lemma LeftAloneIsSafeForCredentials(n: Names, s: State, input: StartInput)
    requires OneCredentialKey(n, s) && input.LeavesAlone(n.storageKey)
    ensures KeySafeStart(n, Parse(s.file), s.rows != multiset{}, s.rows, input)
  {
  }

  // ----- Whole runs.

  predicate SafeAction(n: Names, s: State, a: Action) {
    a.Start? ==> SafeStart(n, s, a.input)
  }

  /** Every value is an old one or is under the key of the running server. */
  predicate NoForeign(n: Names, s: State, values: multiset<string>) {
    forall v :: v in values ==>
      || v in s.AllValues()
      || (s.server.Some? && !Missing(s.server.value, n.storageKey) && v == s.server.value[n.storageKey])
  }

  lemma NoForeignAgrees(n: Names, s: State, values: multiset<string>)
    requires OneKey(n, s) && NoForeign(n, s, values)
    ensures AgreeIn(n, s, values)
  {
    forall a, b | a in values && b in values ensures a == b {
      assert a in s.AllValues() || s.server.Some?;
    }
  }

  lemma OtherStepsAddNoForeign(n: Names, s: State, a: Action, s': State)
    requires Step(n, s, a, s') && !a.Start?
    ensures NoForeign(n, s, s'.AllValues())
  {
    forall v | v in s'.AllValues() ensures v in s'.rows || v in s'.other {
    }
    forall v | v in s.rows || v in s.other ensures v in s.AllValues() {
    }
  }

  lemma StepKeepsOneKeyIff(n: Names, s: State, a: Action, s': State)
    requires n.Valid() && n.Printable() && OneKey(n, s) && Step(n, s, a, s')
    ensures OneKey(n, s') <==> SafeAction(n, s, a)
  {
    if a.Start? {
      StartKeepsAgreementIff(n, s, a.input, s', s.AllValues());
    } else {
      OtherStepsAddNoForeign(n, s, a, s');
      NoForeignAgrees(n, s, s'.AllValues());
    }
  }

  /** From a state with one key, all encrypted values are under one key at every state of a run
      exactly when every start in it is key-safe. */
  lemma RunKeepsOneKeyIff(n: Names, states: seq<State>, actions: seq<Action>)
    requires n.Valid() && n.Printable() && Run(n, states, actions) && OneKey(n, states[0])
    ensures (forall t :: 0 <= t < |states| ==> OneKey(n, states[t]))
       <==> (forall i :: 0 <= i < |actions| ==> SafeAction(n, states[i], actions[i]))
  {
    if forall i :: 0 <= i < |actions| ==> SafeAction(n, states[i], actions[i]) {
      var keep := s => OneKey(n, s);
      forall i | 0 <= i < |states| - 1 && keep(states[i]) ensures keep(states[i + 1]) {
        StepKeepsOneKeyIff(n, states[i], actions[i], states[i + 1]);
      }
      forall t | 0 <= t < |states| ensures OneKey(n, states[t]) {
        HoldsOverRun(states, keep, t);
      }
    }
    if forall t :: 0 <= t < |states| ==> OneKey(n, states[t]) {
      forall i | 0 <= i < |actions| ensures SafeAction(n, states[i], actions[i]) {
        assert OneKey(n, states[i]) && OneKey(n, states[i + 1]);
        StepKeepsOneKeyIff(n, states[i], actions[i], states[i + 1]);
      }
    }
  }

  predicate NothingStored(s: State) {
    s.rows == multiset{} && s.other == multiset{} && s.server.None?
  }

  predicate KeyLeftAlone(n: Names, a: Action) {
    a.Start? ==> a.input.LeavesAlone(n.storageKey)
  }

  /**
   * Over every run of starts, failed writes, writes of credentials and other encrypted values,
   * crashes and deletions of the file, with the storage key given nowhere else: all encrypted
   * values are always under one key, and every server runs with it, exactly when no start
   * orphans values of the tables it does not inspect.
   */
  lemma EveryValueKeepsOneKeyIff(n: Names, states: seq<State>, actions: seq<Action>)
    requires n.Valid() && n.Printable() && Run(n, states, actions) && NothingStored(states[0])
    requires forall i :: 0 <= i < |actions| ==> KeyLeftAlone(n, actions[i])
    ensures (forall t :: 0 <= t < |states| ==> OneKey(n, states[t]))
       <==> (forall i :: 0 <= i < |actions| && actions[i].Start? ==> !OrphansOther(n, states[i], actions[i].input))
  {
    RunKeepsOneKeyIff(n, states, actions);
    if forall t :: 0 <= t < |states| ==> OneKey(n, states[t]) {
      forall i | 0 <= i < |actions| && actions[i].Start? ensures !OrphansOther(n, states[i], actions[i].input) {
        assert SafeAction(n, states[i], actions[i]) && KeyLeftAlone(n, actions[i]);
        LeftAloneIsSafeIff(n, states[i], actions[i].input);
      }
    } else {
      var i := FirstUnsafe(n, states, actions);
      assert KeyLeftAlone(n, actions[i]);
      LeftAloneIsSafeIff(n, states[i], actions[i].input);
    }
  }

  /** The first start that splits the keys begins in a state with one key. */
  lemma FirstUnsafe(n: Names, states: seq<State>, actions: seq<Action>) returns (i: nat)
    requires n.Valid() && n.Printable() && Run(n, states, actions) && OneKey(n, states[0])
    requires exists t :: 0 <= t < |states| && !OneKey(n, states[t])
    ensures i < |actions| && OneKey(n, states[i]) && actions[i].Start? && !SafeStart(n, states[i], actions[i].input)
  {
    i := 0;
    while i < |actions| && OneKey(n, states[i + 1])
      invariant i <= |actions|
      invariant forall t :: 0 <= t <= i ==> OneKey(n, states[t])
    {
      i := i + 1;
    }
    assert i < |actions|;
    StepKeepsOneKeyIff(n, states[i], actions[i], states[i + 1]);
  }

  lemma StepKeepsCredentialKey(n: Names, s: State, a: Action, s': State)
    requires n.Valid() && n.Printable() && OneCredentialKey(n, s) && Step(n, s, a, s') && KeyLeftAlone(n, a)
    ensures OneCredentialKey(n, s')
  {
    if a.Start? {
      StartKeepsAgreementIff(n, s, a.input, s', s.rows);
      LeftAloneIsSafeForCredentials(n, s, a.input);
    }
  }

  /**
   * Over every such run, whatever is stored elsewhere: the credentials of provider connections
   * are always under one key, and a server that runs while there are any runs with that key.
   */
  lemma StorageKeyNeverReplaced(n: Names, states: seq<State>, actions: seq<Action>)
    requires n.Valid() && n.Printable()
    requires Run(n, states, actions)
    requires states[0].rows == multiset{} && states[0].server.None?
    requires forall i :: 0 <= i < |actions| ==> KeyLeftAlone(n, actions[i])
    ensures forall t, a, b :: 0 <= t < |states| && a in states[t].rows && b in states[t].rows ==> a == b
    ensures forall t, r :: 0 <= t < |states| && r in states[t].rows && states[t].server.Some? ==>
              n.storageKey in states[t].server.value && states[t].server.value[n.storageKey] == r
  {
    var keep := s => OneCredentialKey(n, s);
    forall i | 0 <= i < |states| - 1 && keep(states[i]) ensures keep(states[i + 1]) {
      StepKeepsCredentialKey(n, states[i], actions[i], states[i + 1]);
    }
    forall t | 0 <= t < |states| ensures OneCredentialKey(n, states[t]) {
      HoldsOverRun(states, keep, t);
    }
  }

  /** Both for the names the shell uses. */
  lemma ShippedStorageKeyNeverReplaced(states: seq<State>, actions: seq<Action>, t: nat)
    requires Run(NAMES, states, actions) && t < |states| && NothingStored(states[0])
    requires forall i :: 0 <= i < |actions| ==> KeyLeftAlone(NAMES, actions[i])
    ensures forall a, b :: a in states[t].rows && b in states[t].rows ==> a == b
    ensures forall r :: r in states[t].rows && states[t].server.Some? ==>
              NAMES.storageKey in states[t].server.value && states[t].server.value[NAMES.storageKey] == r
    ensures (forall t :: 0 <= t < |states| ==> OneKey(NAMES, states[t]))
       <==> forall i :: 0 <= i < |actions| && actions[i].Start? ==> !OrphansOther(NAMES, states[i], actions[i].input)
  {
    NamesAreValid();
    NamesArePrintable();
    StorageKeyNeverReplaced(NAMES, states, actions);
    EveryValueKeepsOneKeyIff(NAMES, states, actions);
  }

  /**
   * The run that orphans a value: with no credential stored, a server stores another encrypted
   * value and dies, and the file is deleted. Whatever fresh key the next start draws, it
   * launches with that key, and the value stays under the old one.
   */
  lemma DeletedFileOrphansOtherValue(n: Names, s: State, input: StartInput, next: State)
    returns (stored: State, down: State, lost: State)
    requires n.Valid() && s.rows == multiset{} && s.server.Some? && !Missing(s.server.value, n.storageKey)
    requires input.Fresh() && input.LeavesAlone(n.storageKey) && input.inspectable
    requires var key := s.server.value[n.storageKey];
             && input.storageKey != key
             && StartStep(n, State(None, multiset{}, s.other + multiset{key}, None), input, next)
    ensures Step(n, s, StoreOther, stored) && Step(n, stored, ServerDies, down)
    ensures Step(n, down, DeleteFile, lost) && Step(n, lost, Start(input), next)
    ensures s.server.value[n.storageKey] in next.other && next.server.Some?
    ensures n.storageKey in next.server.value && next.server.value[n.storageKey] == input.storageKey
  {
    var key := s.server.value[n.storageKey];
    stored := s.(other := s.other + multiset{key});
    down := stored.(server := None);
    lost := down.(file := None);
    NoKeyLaunch(n, input);
  }

  /** Without a file or a credential that is inspected, a start launches with the fresh key. */
  lemma NoKeyLaunch(n: Names, input: StartInput)
    requires n.Valid() && input.Fresh() && input.LeavesAlone(n.storageKey) && input.inspectable
    ensures var outcome := Bootstrap(n, map[], false, input);
            && outcome.Launched? && n.storageKey in FinalEnv(n, outcome.draft)
            && FinalEnv(n, outcome.draft)[n.storageKey] == input.storageKey
  {
  }

  /** With an empty key given, no rows and a failed write, a launch runs with a key that is not kept. */
  lemma EmptyOverrideLaunch(n: Names, persisted: Env, input: StartInput)
    requires n.Valid() && input.inspectable && !input.LeavesAlone(n.storageKey)
    requires Given(persisted, input, n.storageKey) == Some("") && input.Fresh()
    ensures var outcome := Bootstrap(n, persisted, false, input);
            outcome.Launched? && FinalEnv(n, outcome.draft)[n.storageKey] == input.storageKey
  {
  }

  lemma StoredKeyLaunch(n: Names, persisted: Env, hasRows: bool, input: StartInput)
    requires n.Valid() && StoredKey(n, persisted).Some? && input.LeavesAlone(n.storageKey)
    ensures var outcome := Bootstrap(n, persisted, hasRows, input);
            outcome.Launched? && n.storageKey in FinalEnv(n, outcome.draft)
            && FinalEnv(n, outcome.draft)[n.storageKey] == persisted[n.storageKey]
  {
  }

  /**
   * An environment that gives an empty storage key breaks this when the write fails: the server
   * runs with a generated key over the stored one, and after a credential write and a restart
   * without that environment the next server runs with the stored key while the row is not
   * under it.
   */
  lemma EmptyOverrideAndFailedWriteSplitKeys(n: Names, before: State, input: StartInput, after: State)
    returns (stored: State, down: State, restart: StartInput, next: State)
    requires n.Valid() && before.rows == multiset{} && StoredKey(n, Parse(before.file)).Some?
    requires input.Fresh() && input.inspectable && !input.writeSucceeds
    requires !input.LeavesAlone(n.storageKey) && Given(Parse(before.file), input, n.storageKey) == Some("")
    requires input.storageKey != Parse(before.file)[n.storageKey]
    requires StartStep(n, before, input, after)
    ensures Step(n, after, StoreCredential, stored)
    ensures Step(n, stored, ServerDies, down)
    ensures restart.LeavesAlone(n.storageKey) && Step(n, down, Start(restart), next)
    ensures next.server.Some? && n.storageKey in next.server.value
    ensures input.storageKey in next.rows && next.server.value[n.storageKey] != input.storageKey
  {
    var persisted := Parse(before.file);
    EmptyOverrideLaunch(n, persisted, input);
    stored := after.(rows := after.rows + multiset{input.storageKey});
    down := stored.(server := None);
    restart := StartInput(map[], map[], input.jwt, input.storageKey, input.api, true, false);
    StoredKeyLaunch(n, persisted, true, restart);
    next := down.(server := Some(FinalEnv(n, Bootstrap(n, persisted, true, restart).draft)));
  }

  // ----- Secrets that stay.

  predicate LeavesSecretsAlone(n: Names, input: StartInput) {
    input.LeavesAlone(n.jwt) && input.LeavesAlone(n.storageKey) && input.LeavesAlone(n.api)
  }

  predicate SameSecrets(n: Names, a: Env, b: Env)
    requires AllSecrets(n, a) && AllSecrets(n, b)
  {
    a[n.jwt] == b[n.jwt] && a[n.storageKey] == b[n.storageKey] && a[n.api] == b[n.api]
  }

  lemma LaunchSecrets(n: Names, persisted: Env, hasRows: bool, input: StartInput)
    requires n.Valid() && input.Fresh() && LeavesSecretsAlone(n, input)
    requires Bootstrap(n, persisted, hasRows, input).Launched?
    ensures var d := Bootstrap(n, persisted, hasRows, input).draft;
            && AllSecrets(n, d.persisted) && AllSecrets(n, FinalEnv(n, d))
            && SameSecrets(n, d.persisted, FinalEnv(n, d))
            && (d.changed <==> !AllSecrets(n, persisted))
            && (!d.changed ==> d.persisted == persisted)
  {
    LaunchedKey(n, persisted, hasRows, input);
    LaunchedJwt(n, persisted, hasRows, input);
    LaunchedApi(n, persisted, hasRows, input);
    ChangedIff(n, persisted, hasRows, input);
  }

  /** A launch whose write succeeds leaves the launched secrets in the file. */
  lemma WrittenLaunchIsRemembered(n: Names, s: State, input: StartInput, s': State)
    requires n.Valid() && n.Printable()
    requires input.Fresh() && LeavesSecretsAlone(n, input) && input.writeSucceeds
    requires StartStep(n, s, input, s') && s'.server.Some?
    ensures AllSecrets(n, Parse(s'.file)) && AllSecrets(n, s'.server.value)
    ensures SameSecrets(n, Parse(s'.file), s'.server.value)
  {
    FileReadsAsKept(n, s, input, s');
    LaunchSecrets(n, Parse(s.file), s.rows != multiset{}, input);
  }

  /** With all secrets in the file, a start launches with them and writes nothing. */
  lemma RememberedStart(n: Names, s: State, input: StartInput, s': State)
    requires n.Valid() && input.Fresh() && LeavesSecretsAlone(n, input) && StartStep(n, s, input, s')
    requires AllSecrets(n, Parse(s.file))
    ensures s'.file == s.file && s'.server.Some?
    ensures AllSecrets(n, s'.server.value) && SameSecrets(n, s'.server.value, Parse(s.file))
  {
    LaunchSecrets(n, Parse(s.file), s.rows != multiset{}, input);
  }

  /**
   * After one launch whose write succeeded, over every later run in which the file is not
   * deleted and the secrets are given nowhere else: the file never changes, and every later
   * server runs with the secrets of that first launch.
   */
  lemma SecretsSurvive(n: Names, s: State, input: StartInput, states: seq<State>, actions: seq<Action>, t: nat)
    requires n.Valid() && n.Printable()
    requires input.Fresh() && LeavesSecretsAlone(n, input) && input.writeSucceeds
    requires Run(n, states, actions) && t < |states|
    requires StartStep(n, s, input, states[0]) && states[0].server.Some?
    requires forall i :: 0 <= i < |actions| ==> !actions[i].DeleteFile?
    requires forall i :: 0 <= i < |actions| && actions[i].Start? ==> LeavesSecretsAlone(n, actions[i].input)
    ensures states[t].file == states[0].file
    ensures AllSecrets(n, states[0].server.value)
    ensures states[t].server.Some? ==>
              AllSecrets(n, states[t].server.value) && SameSecrets(n, states[t].server.value, states[0].server.value)
  {
    WrittenLaunchIsRemembered(n, s, input, states[0]);
    SecretsSurviveFrom(n, states, actions, t, states[0].server.value);
  }

  /** The file is still the first one, and a running server has the first secrets. */
  ghost predicate Remembers(n: Names, s: State, file: Option<string>, first: Env) {
    && s.file == file && AllSecrets(n, first)
    && (s.server.Some? ==> AllSecrets(n, s.server.value) && SameSecrets(n, s.server.value, first))
  }

  /** The file holds these secrets. */
  ghost predicate FileHolds(n: Names, file: Option<string>, first: Env) {
    AllSecrets(n, Parse(file)) && AllSecrets(n, first) && SameSecrets(n, Parse(file), first)
  }

  lemma StepRemembers(n: Names, s: State, a: Action, s': State, file: Option<string>, first: Env)
    requires n.Valid() && Step(n, s, a, s') && !a.DeleteFile?
    requires a.Start? ==> LeavesSecretsAlone(n, a.input)
    requires FileHolds(n, file, first) && Remembers(n, s, file, first)
    ensures Remembers(n, s', file, first)
  {
    if a.Start? {
      RememberedStart(n, s, a.input, s');
    }
  }

  lemma SecretsSurviveFrom(n: Names, states: seq<State>, actions: seq<Action>, t: nat, first: Env)
    requires n.Valid()
    requires Run(n, states, actions) && t < |states|
    requires FileHolds(n, states[0].file, first) && Remembers(n, states[0], states[0].file, first)
    requires forall i :: 0 <= i < |actions| ==> !actions[i].DeleteFile?
    requires forall i :: 0 <= i < |actions| && actions[i].Start? ==> LeavesSecretsAlone(n, actions[i].input)
    ensures Remembers(n, states[t], states[0].file, first)
  {
    var file := states[0].file;
    var keep := s => Remembers(n, s, file, first);
    forall i | 0 <= i < |states| - 1 && keep(states[i]) ensures keep(states[i + 1]) {
      StepRemembers(n, states[i], actions[i], states[i + 1], file, first);
    }
    HoldsOverRun(states, keep, t);
  }

  // ----- A start, name by name.

  lemma LaunchesIff(n: Names, persisted: Env, hasRows: bool, input: StartInput)
    requires n.Valid()
    ensures Bootstrap(n, persisted, hasRows, input).Launched?
            <==> !Blank(Given(persisted, input, n.storageKey)) || (input.inspectable && !hasRows)
  {
  }

  lemma GivenInEffect(persisted: Env, input: StartInput, name: string)
    ensures Value(persisted + input.Overlay(), name) == Given(persisted, input, name)
    ensures Missing(persisted + input.Overlay(), name) <==> Blank(Given(persisted, input, name))
  {
  }

  /** What a launch does under the names that are no secrets. */
  lemma LaunchedOther(n: Names, persisted: Env, hasRows: bool, input: StartInput, name: string)
    requires n.Valid() && Bootstrap(n, persisted, hasRows, input).Launched?
    requires name !in {n.jwt, n.api, n.storageKey}
    ensures var d := Bootstrap(n, persisted, hasRows, input).draft;
            var effective := persisted + input.Overlay();
            var versioned := name == n.keyVersion && Missing(effective, n.storageKey);
            && Value(d.persisted, name) == (if versioned then Some("v1") else Value(persisted, name))
            && Value(FinalEnv(n, d), name) == (if versioned then Some("v1")
                                               else if name == n.bootstrapped && d.changed then Some("true")
                                               else Value(effective, name))
  {
  }

  lemma LaunchedValues(n: Names, persisted: Env, hasRows: bool, input: StartInput, name: string)
    requires n.Valid() && Bootstrap(n, persisted, hasRows, input).Launched?
    ensures var d := Bootstrap(n, persisted, hasRows, input).draft;
            && (d.changed <==> !SecretsGiven(n, persisted, input))
            && ServerValue(n, persisted, input, name, Value(FinalEnv(n, d), name))
            && FileValue(n, persisted, input, name, Value(d.persisted, name))
  {
    ChangedIff(n, persisted, hasRows, input);
    GivenInEffect(persisted, input, n.jwt);
    GivenInEffect(persisted, input, n.api);
    GivenInEffect(persisted, input, n.storageKey);
    GivenInEffect(persisted, input, name);
    if name == n.jwt {
      LaunchedJwt(n, persisted, hasRows, input);
    } else if name == n.api {
      LaunchedApi(n, persisted, hasRows, input);
    } else if name == n.storageKey {
      LaunchedKey(n, persisted, hasRows, input);
    } else {
      LaunchedOther(n, persisted, hasRows, input, name);
    }
  }

  /** What the server finds under a name: what is given, except for a secret that is given no value,
      the key version that goes with it, and the mark of a start that generated a secret. */
  predicate ServerValue(n: Names, persisted: Env, input: StartInput, name: string, v: Option<string>) {
    var given := Given(persisted, input, name);
    if name == n.jwt && Blank(given) then v == Some(input.jwt)
    else if name == n.api && Blank(given) then v == Some(input.api)
    else if name == n.storageKey && Blank(given) then v == Some(input.storageKey)
    else if name == n.keyVersion && Blank(Given(persisted, input, n.storageKey)) then v == Some("v1")
    else if name == n.bootstrapped && !SecretsGiven(n, persisted, input) then v == Some("true")
    else v == given
  }

  /** What a rewritten file holds under a name: what it held, except for the same secrets and version. */
  predicate FileValue(n: Names, persisted: Env, input: StartInput, name: string, v: Option<string>) {
    var given := Given(persisted, input, name);
    if name == n.jwt && Blank(given) then v == Some(input.jwt)
    else if name == n.api && Blank(given) then v == Some(input.api)
    else if name == n.storageKey && Blank(given) then v == Some(input.storageKey)
    else if name == n.keyVersion && Blank(Given(persisted, input, n.storageKey)) then v == Some("v1")
    else v == Value(persisted, name)
  }

  /**
   * A start in full. It launches exactly when a storage key is given, or none is and the database
   * is inspected and holds no credential; otherwise nothing changes. The server then finds under
   * every name what the process, else the preferred file, else `server.env` gives, up to what is
   * generated. The file is rewritten exactly when a secret is generated and the write succeeds.
   */
  lemma StartSpec(n: Names, s: State, input: StartInput, s': State, name: string)
    requires n.Valid() && n.Printable() && input.Fresh() && StartStep(n, s, input, s')
    ensures var persisted := Parse(s.file);
            s'.server.Some? <==>
            !Blank(Given(persisted, input, n.storageKey)) || (input.inspectable && s.rows == multiset{})
    ensures s'.rows == s.rows && s'.other == s.other
    ensures s'.server.None? ==> s' == s
    ensures s'.server.Some? ==> ServerValue(n, Parse(s.file), input, name, Value(s'.server.value, name))
    ensures s'.server.Some? ==>
              if SecretsGiven(n, Parse(s.file), input) || !input.writeSucceeds then s'.file == s.file
              else FileValue(n, Parse(s.file), input, name, Value(Parse(s'.file), name))
  {
    var persisted, hasRows := Parse(s.file), s.rows != multiset{};
    LaunchesIff(n, persisted, hasRows, input);
    if Bootstrap(n, persisted, hasRows, input).Launched? {
      LaunchedValues(n, persisted, hasRows, input, name);
      FileReadsAsKept(n, s, input, s');
    }
  }

  lemma StartKeepsPair(n: Names, s: State, input: StartInput, s': State, k: string)
    requires n.Valid() && n.Printable() && input.Fresh() && StartStep(n, s, input, s')
    requires k in Parse(s.file)
    ensures
      var before, after := Parse(s.file), Parse(s'.file);
      k in after &&
      (after[k] == before[k]
       || (k in {n.jwt, n.api, n.storageKey} && Blank(Given(before, input, k)))
       || (k == n.keyVersion && Blank(Given(before, input, n.storageKey))))
  {
    StartSpec(n, s, input, s', k);
    assert Value(Parse(s.file), k) == Some(Parse(s.file)[k]);
  }

  /** A start keeps every pair of the file except secrets that are given no value, and the version
      that goes with a generated storage key. */
  lemma RewriteLosesNoPair(n: Names, s: State, input: StartInput, s': State)
    requires n.Valid() && n.Printable() && input.Fresh() && StartStep(n, s, input, s')
    ensures
      var before, after := Parse(s.file), Parse(s'.file);
      forall k :: k in before ==>
        k in after &&
        (after[k] == before[k]
         || (k in {n.jwt, n.api, n.storageKey} && Blank(Given(before, input, k)))
         || (k == n.keyVersion && Blank(Given(before, input, n.storageKey))))
  {
    forall k | k in Parse(s.file) { StartKeepsPair(n, s, input, s', k); }
  }

  // ----- The shell, updating its records step by step.

  class Shell {
    const n: Names
    var file: Option<string>
    var rows: multiset<string>
    var other: multiset<string>
    var server: Option<Env>

    ghost function Snapshot(): State
      reads this
    {
      State(file, rows, other, server)
    }

    /** The credentials of provider connections, the running server and the file agree on one storage key. */
    ghost predicate Valid()
      reads this
    {
      n.Valid() && n.Printable() && OneCredentialKey(n, Snapshot())
    }

    /** So do all encrypted values. */
    ghost predicate AllAgree()
      reads this
    {
      OneKey(n, Snapshot())
    }

    constructor (n: Names, file: Option<string>)
      requires n.Valid() && n.Printable()
      ensures this.n == n
      ensures Snapshot() == State(file, multiset{}, multiset{}, None)
      ensures Valid() && AllAgree()
    {
      this.n := n;
      this.file, rows, other, server := file, multiset{}, multiset{}, None;
    }

    /** Each invariant is kept exactly when the start is key-safe for its values; a start that
        leaves the key alone always keeps the first. */
    method StartServer(input: StartInput)
      requires Valid() && server.None? && input.Fresh()
      modifies this
      ensures StartStep(n, old(Snapshot()), input, Snapshot())
      ensures Valid() <==> KeySafeStart(n, Parse(old(file)), old(rows) != multiset{}, old(rows), input)
      ensures input.LeavesAlone(n.storageKey) ==> Valid()
      ensures old(AllAgree()) ==> (AllAgree() <==> SafeStart(n, old(Snapshot()), input))
      ensures rows == old(rows) && other == old(other)
      ensures server.None? ==> file == old(file)
    {
      ghost var before := Snapshot();
      Launch(input);
      StartKeepsAgreementIff(n, before, input, Snapshot(), rows);
      if input.LeavesAlone(n.storageKey) {
        LeftAloneIsSafeForCredentials(n, before, input);
      }
      if OneKey(n, before) {
        StartKeepsAgreementIff(n, before, input, Snapshot(), before.AllValues());
      }
    }

    method Launch(input: StartInput)
      requires server.None?
      modifies this
      ensures StartStep(n, old(Snapshot()), input, Snapshot())
      ensures rows == old(rows) && other == old(other)
      ensures server.None? ==> file == old(file)
    {
      var persisted := ParseEnvFile(file);
      var serverEnv := persisted + input.preferred + input.process;
      assert serverEnv == Parse(file) + input.Overlay();
      var changed := false;
      if Missing(serverEnv, n.jwt) {
        persisted, serverEnv := persisted[n.jwt := input.jwt], serverEnv[n.jwt := input.jwt];
        changed := true;
      }
      if Missing(serverEnv, n.storageKey) {
        if !input.inspectable || rows != multiset{} {
          return;
        }
        persisted := persisted[n.storageKey := input.storageKey];
        serverEnv := serverEnv[n.storageKey := input.storageKey];
        persisted, serverEnv := persisted[n.keyVersion := "v1"], serverEnv[n.keyVersion := "v1"];
        changed := true;
      }
      if Missing(serverEnv, n.api) {
        persisted, serverEnv := persisted[n.api := input.api], serverEnv[n.api := input.api];
        changed := true;
      }
      assert Bootstrap(n, Parse(file), rows != multiset{}, input) == Launched(Draft(persisted, serverEnv, changed));
      if changed {
        serverEnv := serverEnv[n.bootstrapped := "true"];
        if input.writeSucceeds {
          var entries := Entries(persisted);
          file := Some(Print(entries));
        }
      }
      server := Some(serverEnv);
    }

    method StoreCredential()
      requires Valid() && server.Some?
      modifies this`rows
      ensures Step(n, old(Snapshot()), Action.StoreCredential, Snapshot())
      ensures Valid() && (old(AllAgree()) ==> AllAgree())
    {
      ghost var before := Snapshot();
      rows := rows + multiset{server.value[n.storageKey]};
      if OneKey(n, before) {
        StepKeepsOneKeyIff(n, before, Action.StoreCredential, Snapshot());
      }
    }

    method StoreOther()
      requires Valid() && server.Some?
      modifies this`other
      ensures Step(n, old(Snapshot()), Action.StoreOther, Snapshot())
      ensures Valid() && (old(AllAgree()) ==> AllAgree())
    {
      ghost var before := Snapshot();
      other := other + multiset{server.value[n.storageKey]};
      if OneKey(n, before) {
        StepKeepsOneKeyIff(n, before, Action.StoreOther, Snapshot());
      }
    }

    method ServerExited()
      requires Valid()
      modifies this`server
      ensures Step(n, old(Snapshot()), ServerDies, Snapshot())
      ensures Valid() && (old(AllAgree()) ==> AllAgree())
    {
      server := None;
    }

    method FileLost()
      requires Valid()
      modifies this`file
      ensures Step(n, old(Snapshot()), DeleteFile, Snapshot())
      ensures Valid() && (old(AllAgree()) ==> AllAgree())
    {
      file := None;
    }
  }
}
