/** The fingerprint seed of a Codex connection, and the ids derived from it. */
module CodexSeed {
  import opened Options
  import opened Text
  import opened CodexUuid

  /** A stored value; only strings matter here. */
  datatype Value = Str(s: string) | Other

  type Record = map<string, Value>

  const SEED_KEY := "codexFingerprintSeed"
  const MODE_KEY := "codexFingerprintMode"
  const MODE_KEY_SNAKE := "codex_fingerprint_mode"
  const SESSION_PREFIX_V2 := "omniroute:codex-session-id:v2:"
  const THREAD_PREFIX_V2 := "omniroute:codex-thread-id:v2:"
  const SESSION_PREFIX := "omniroute:codex-session-id:v1:"
  const THREAD_PREFIX := "omniroute:codex-thread-id:v1:"

  datatype Mode = Off | Device | Session | Full

  /** The trimmed string under a key, or "" when it is absent, blank or not a string. */
  function TextUnder(r: Record, key: string): string {
    if key in r && r[key].Str? then Trim(r[key].s) else ""
  }

  function TextOf(v: Option<Value>): string {
    if v.Some? && v.value.Str? then Trim(v.value.s) else ""
  }

  predicate IsOAuth(accessToken: Option<Value>, refreshToken: Option<Value>) {
    TextOf(accessToken) != "" || TextOf(refreshToken) != ""
  }

  function ModeOf(r: Record): Mode {
    var named := if TextUnder(r, MODE_KEY) != "" then TextUnder(r, MODE_KEY) else TextUnder(r, MODE_KEY_SNAKE);
    var raw := Lower(named);
    if raw == "off" then Off else if raw == "device" then Device else if raw == "full" then Full else Session
  }

  predicate RequiresSeed(mode: Mode) {
    mode.Device? || mode.Session? || mode.Full?
  }

  function SeedOf(stored: Option<Record>): Option<string> {
    if stored.Some? && SEED_KEY in stored.value && stored.value[SEED_KEY].Str?
    then NormalizeUuid(stored.value[SEED_KEY].s) else None
  }

  function NonEmpty(r: Record): Option<Record> {
    if r == map[] then None else Some(r)
  }

  /** What is stored for the data a client sends, given what was stored before. */
  function EnsureSeed(sent: Option<Record>, oauth: bool, existing: Option<Record>, newSeed: string): Option<Record> {
    var psd := sent.GetOr(map[]) - {SEED_KEY};
    if !oauth then NonEmpty(psd)
    else if SeedOf(existing).Some? then Some(psd[SEED_KEY := Str(SeedOf(existing).value)])
    else if RequiresSeed(ModeOf(psd)) then Some(psd[SEED_KEY := Str(newSeed)])
    else NonEmpty(psd)
  }

  /** The same on the local copy of the sent data that the source edits. */
  method EnsureFingerprintSeed(u: Update, existing: Option<Record>) returns (stored: Option<Record>)
    ensures stored == EnsureSeed(u.sent, u.OAuth(), existing, u.newSeed)
  {
    var psd := u.sent.GetOr(map[]);
    psd := psd - {SEED_KEY};
    if !u.OAuth() {
      return if |psd| > 0 then Some(psd) else None;
    }
    var existingSeed := SeedOf(existing);
    if existingSeed.Some? {
      psd := psd[SEED_KEY := Str(existingSeed.value)];
      return Some(psd);
    }
    if RequiresSeed(ModeOf(psd)) {
      psd := psd[SEED_KEY := Str(u.newSeed)];
      return Some(psd);
    }
    stored := if |psd| > 0 then Some(psd) else None;
  }

  /** One update of a connection: the data sent, the tokens that come with it, and a newly drawn seed. */
  datatype Update = Update(
    sent: Option<Record>, accessToken: Option<Value>, refreshToken: Option<Value>, newSeed: string)
  {
    predicate OAuth() { IsOAuth(accessToken, refreshToken) }
  }

  function Stored(initial: Option<Record>, updates: seq<Update>): Option<Record> {
    if updates == [] then initial
    else
      var u := updates[|updates| - 1];
      EnsureSeed(u.sent, u.OAuth(), Stored(initial, updates[..|updates| - 1]), u.newSeed)
  }

  lemma SeedIsUuid(stored: Option<Record>)
    ensures SeedOf(stored).Some? ==>
              MatchesUuid(SeedOf(stored).value) && NormalizeUuid(SeedOf(stored).value) == SeedOf(stored)
  {
    if SeedOf(stored).Some? {
      UuidIsTrimmed(SeedOf(stored).value);
    }
  }

  /** A string that is not blank. */
  predicate IsText(v: Option<Value>) {
    v.Some? && v.value.Str? && Trim(v.value.s) != ""
  }

  function At(r: Record, key: string): Option<Value> {
    if key in r then Some(r[key]) else None
  }

  /** The record names this mode, in any letter case, under the first of the two keys that has a text. */
  predicate NamesMode(r: Record, name: string) {
    if IsText(At(r, "codexFingerprintMode")) then Lower(Trim(r["codexFingerprintMode"].s)) == name
    else IsText(At(r, "codex_fingerprint_mode")) && Lower(Trim(r["codex_fingerprint_mode"].s)) == name
  }

  /** A record is in the mode that it names, and in session mode when it names none of the other three. */
  lemma ModeOfIff(r: Record)
    ensures ModeOf(r).Off? <==> NamesMode(r, "off")
    ensures ModeOf(r).Device? <==> NamesMode(r, "device")
    ensures ModeOf(r).Full? <==> NamesMode(r, "full")
  {
    assert Lower("") == "" && |"off"| == 3 && |"device"| == 6 && |"full"| == 4;
  }

  lemma ModeIgnoresSeed(r: Record)
    ensures NamesMode(r - {SEED_KEY}, "off") <==> NamesMode(r, "off")
  {
    assert SEED_KEY[16] != "codexFingerprintMode"[16] && |SEED_KEY| != |"codex_fingerprint_mode"|;
  }

  /**
   * An update in full: everything sent but a seed is stored; nothing is stored for nothing. The
   * seed stored is the valid one stored before, else, unless the mode named is "off", the newly
   * drawn one; without a token there is none.
   */
  lemma UpdateSpec(u: Update, existing: Option<Record>)
    ensures var stored, sent := EnsureSeed(u.sent, u.OAuth(), existing, u.newSeed), u.sent.GetOr(map[]);
            && stored != Some(map[])
            && stored.GetOr(map[]) - {SEED_KEY} == sent - {SEED_KEY}
            && At(stored.GetOr(map[]), SEED_KEY) ==
               if !IsText(u.accessToken) && !IsText(u.refreshToken) then None
               else if SeedOf(existing).Some? then Some(Str(SeedOf(existing).value))
               else if NamesMode(sent, "off") then None else Some(Str(u.newSeed))
  {
    ModeOfIff(u.sent.GetOr(map[]) - {SEED_KEY});
    ModeIgnoresSeed(u.sent.GetOr(map[]));
  }

  /** An update keeps a valid stored seed exactly when it comes with a token. */
  lemma UpdateKeepsSeedIff(u: Update, existing: Option<Record>)
    requires SeedOf(existing).Some?
    ensures SeedOf(EnsureSeed(u.sent, u.OAuth(), existing, u.newSeed)) == SeedOf(existing)
            <==> IsText(u.accessToken) || IsText(u.refreshToken)
  {
    SeedIsUuid(existing);
  }

  /**
   * Once a connection has a valid seed, every later sequence of OAuth updates keeps that seed,
   * whatever mode, seed or newly drawn value comes with them.
   */
  lemma {:induction false} SeedNeverRotates(initial: Option<Record>, updates: seq<Update>)
    requires SeedOf(initial).Some?
    requires forall i :: 0 <= i < |updates| ==> IsText(updates[i].accessToken) || IsText(updates[i].refreshToken)
    ensures SeedOf(Stored(initial, updates)) == SeedOf(initial)
  {
    if updates != [] {
      SeedNeverRotates(initial, updates[..|updates| - 1]);
      UpdateKeepsSeedIff(updates[|updates| - 1], Stored(initial, updates[..|updates| - 1]));
    }
  }

  /** An update is a function of what the client sent apart from any seed. */
  lemma SentSeedIgnored(sent: Record, seed: Value, oauth: bool, existing: Option<Record>, newSeed: string)
    ensures EnsureSeed(Some(sent[SEED_KEY := seed]), oauth, existing, newSeed)
         == EnsureSeed(Some(sent - {SEED_KEY}), oauth, existing, newSeed)
         == EnsureSeed(Some(sent), oauth, existing, newSeed)
  {
    assert sent[SEED_KEY := seed] - {SEED_KEY} == sent - {SEED_KEY};
    assert (sent - {SEED_KEY}) - {SEED_KEY} == sent - {SEED_KEY};
  }

  /** With nothing valid stored, an OAuth update creates the new seed exactly when the mode
      derives account-scoped ids; nothing else the client sends is touched. */
  lemma FreshSeedIff(sent: Record, existing: Option<Record>, newSeed: string)
    requires SeedOf(existing).None? && MatchesUuid(newSeed)
    ensures var stored := EnsureSeed(Some(sent), true, existing, newSeed);
            && (SeedOf(stored) == Some(newSeed) <==> !NamesMode(sent, "off"))
            && (SeedOf(stored).Some? ==> SeedOf(stored) == Some(newSeed))
            && stored.GetOr(map[]) - {SEED_KEY} == sent - {SEED_KEY}
  {
    UuidIsTrimmed(newSeed);
    ModeOfIff(sent - {SEED_KEY});
    ModeIgnoresSeed(sent);
  }

  // ----- Derived ids; the hash is arbitrary.

  type Hash = string -> Digest

  function AccountSeed(r: Record, accountKey: Option<string>): string {
    var key := if accountKey.Some? then Trim(accountKey.value) else "";
    if key != "" then key
    else if TextUnder(r, "connectionId") != "" then TextUnder(r, "connectionId")
    else if TextUnder(r, "workspaceId") != "" then TextUnder(r, "workspaceId")
    else if TextUnder(r, "accountId") != "" then TextUnder(r, "accountId")
    else if TextUnder(r, "email") != "" then TextUnder(r, "email")
    else "default"
  }

  function SessionId(hash: Hash, stored: Option<Record>, accountKey: Option<string>): string {
    match SeedOf(stored)
    case Some(seed) => DeriveStableUuid(hash(SESSION_PREFIX_V2 + seed))
    case None => DeriveStableUuid(hash(SESSION_PREFIX + AccountSeed(stored.GetOr(map[]), accountKey)))
  }

  function ThreadId(hash: Hash, client: Option<string>, stored: Option<Record>, accountKey: Option<string>): string {
    if client.None? || Trim(client.value) == "" then ""
    else
      match SeedOf(stored)
      case Some(seed) => DeriveStableUuid(hash(THREAD_PREFIX_V2 + seed + ":" + client.value))
      case None =>
        DeriveStableUuid(hash(THREAD_PREFIX + AccountSeed(stored.GetOr(map[]), accountKey) + ":" + client.value))
  }

  /** The trimmed first text of a list of values. */
  ghost predicate IsFirstText(values: seq<Option<Value>>, text: string) {
    exists i :: 0 <= i < |values| && IsText(values[i]) && Trim(values[i].value.s) == text
             && forall j :: 0 <= j < i ==> !IsText(values[j])
  }

  predicate NoText(values: seq<Option<Value>>) {
    forall i :: 0 <= i < |values| ==> !IsText(values[i])
  }

  /** Where an account without a seed gets its name from, the first text first. */
  function AccountSources(r: Record, accountKey: Option<string>): seq<Option<Value>> {
    [if accountKey.Some? then Some(Str(accountKey.value)) else None,
     At(r, "connectionId"), At(r, "workspaceId"), At(r, "accountId"), At(r, "email")]
  }

  lemma AccountSeedSpec(r: Record, accountKey: Option<string>)
    ensures if NoText(AccountSources(r, accountKey)) then AccountSeed(r, accountKey) == "default"
            else IsFirstText(AccountSources(r, accountKey), AccountSeed(r, accountKey))
  {
    var values := AccountSources(r, accountKey);
    if !NoText(values) {
      var i := if IsText(values[0]) then 0 else if IsText(values[1]) then 1 else if IsText(values[2]) then 2
               else if IsText(values[3]) then 3 else 4;
      assert IsText(values[i]) && forall j :: 0 <= j < i ==> !IsText(values[j]);
      assert AccountSeed(r, accountKey) == Trim(values[i].value.s);
    } else {
      assert !IsText(values[0]) && !IsText(values[1]) && !IsText(values[2]) && !IsText(values[3]) && !IsText(values[4]);
    }
  }

  /** Some hash tells any two texts apart, in the ids derived from them. */
  lemma TellsApart(a: string, b: string) returns (hash: Hash)
    ensures DeriveStableUuid(hash(a)) == DeriveStableUuid(hash(b)) ==> a == b
  {
    var zeros: Digest := seq(32, i => 0);
    var ones: Digest := seq(32, i => 1);
    hash := text => if text == a then zeros else ones;
    DerivedUuidsEqualIff(zeros, ones);
    assert zeros[0] != ones[0];
  }

  lemma SameTail(prefix: string, a: string, b: string)
    ensures prefix + a == prefix + b <==> a == b
  {
    assert (prefix + a)[|prefix|..] == a && (prefix + b)[|prefix|..] == b;
  }

  function SessionText(stored: Option<Record>, accountKey: Option<string>): string {
    match SeedOf(stored)
    case Some(seed) => SESSION_PREFIX_V2 + seed
    case None => SESSION_PREFIX + AccountSeed(stored.GetOr(map[]), accountKey)
  }

  /** Two connections have one session id under every hash exactly when they have one seed, or no
      seed and one account name. */
  lemma SessionsAgreeIff(r: Option<Record>, key: Option<string>, r': Option<Record>, key': Option<string>)
    ensures (forall hash: Hash :: SessionId(hash, r, key) == SessionId(hash, r', key'))
            <==> && SeedOf(r) == SeedOf(r')
                 && (SeedOf(r).None? ==> AccountSeed(r.GetOr(map[]), key) == AccountSeed(r'.GetOr(map[]), key'))
  {
    var a, b := SessionText(r, key), SessionText(r', key');
    var apart := TellsApart(a, b);
    assert SessionId(apart, r, key) == DeriveStableUuid(apart(a));
    assert SessionId(apart, r', key') == DeriveStableUuid(apart(b));
    if SeedOf(r).Some? && SeedOf(r').Some? {
      SameTail(SESSION_PREFIX_V2, SeedOf(r).value, SeedOf(r').value);
    } else if SeedOf(r).None? && SeedOf(r').None? {
      SameTail(SESSION_PREFIX, AccountSeed(r.GetOr(map[]), key), AccountSeed(r'.GetOr(map[]), key'));
    } else {
      assert |SESSION_PREFIX| == |SESSION_PREFIX_V2| == 30;
      assert SESSION_PREFIX[28] != SESSION_PREFIX_V2[28] && a[28] != b[28];
    }
  }

  /** With seeds, two client sessions have one thread id under every hash exactly when they are one
      session of connections with one seed; so threads are neither merged nor shared. */
  lemma ThreadsAgreeIff(client: string, r: Option<Record>, key: Option<string>,
                        client': string, r': Option<Record>, key': Option<string>)
    requires SeedOf(r).Some? && SeedOf(r').Some? && Trim(client) != "" && Trim(client') != ""
    ensures (forall hash: Hash :: ThreadId(hash, Some(client), r, key) == ThreadId(hash, Some(client'), r', key'))
            <==> SeedOf(r) == SeedOf(r') && client == client'
  {
    var seed, seed' := SeedOf(r).value, SeedOf(r').value;
    var a, b := THREAD_PREFIX_V2 + seed + ":" + client, THREAD_PREFIX_V2 + seed' + ":" + client';
    var apart := TellsApart(a, b);
    assert ThreadId(apart, Some(client), r, key) == DeriveStableUuid(apart(a));
    assert ThreadId(apart, Some(client'), r', key') == DeriveStableUuid(apart(b));
    SeedIsUuid(r);
    SeedIsUuid(r');
    SameParts(THREAD_PREFIX_V2, seed, client, seed', client');
  }

  /** Texts with first parts of one length agree exactly when their parts do. */
  lemma SameParts(prefix: string, a: string, b: string, a': string, b': string)
    requires |a| == |a'|
    ensures prefix + a + ":" + b == prefix + a' + ":" + b' <==> a == a' && b == b'
  {
    var s, s' := prefix + a + ":" + b, prefix + a' + ":" + b';
    var n := |prefix| + |a|;
    assert s[|prefix|..n] == a && s'[|prefix|..n] == a';
    assert s[n + 1..] == b && s'[n + 1..] == b';
  }

  /** Without a seed, two client sessions of one account have one thread id under every hash exactly
      when they are one. */
  lemma LegacyThreadsAgreeIff(client: string, client': string, r: Option<Record>, key: Option<string>)
    requires SeedOf(r).None? && Trim(client) != "" && Trim(client') != ""
    ensures (forall hash: Hash :: ThreadId(hash, Some(client), r, key) == ThreadId(hash, Some(client'), r, key))
            <==> client == client'
  {
    var account := AccountSeed(r.GetOr(map[]), key);
    var a, b := THREAD_PREFIX + account + ":" + client, THREAD_PREFIX + account + ":" + client';
    var apart := TellsApart(a, b);
    assert ThreadId(apart, Some(client), r, key) == DeriveStableUuid(apart(a));
    assert ThreadId(apart, Some(client'), r, key) == DeriveStableUuid(apart(b));
    SameTail(THREAD_PREFIX + account + ":", client, client');
  }

  /**
   * The converged session id, and the thread id of each client session, are constant for the
   * whole run, under whatever account key they are asked for, and are UUIDs the validator accepts.
   */
  lemma ConvergedIdsConstant(hash: Hash, initial: Option<Record>, updates: seq<Update>, client: Option<string>,
                             before: Option<string>, after: Option<string>)
    requires SeedOf(initial).Some?
    requires forall i :: 0 <= i < |updates| ==> IsText(updates[i].accessToken) || IsText(updates[i].refreshToken)
    ensures SessionId(hash, Stored(initial, updates), after) == SessionId(hash, initial, before)
    ensures ThreadId(hash, client, Stored(initial, updates), after) == ThreadId(hash, client, initial, before)
    ensures NormalizeUuid(SessionId(hash, initial, before)) == Some(SessionId(hash, initial, before))
  {
    SeedNeverRotates(initial, updates);
    DerivedUuidSpec(hash(SESSION_PREFIX_V2 + SeedOf(initial).value));
  }
}

/**
 * One identity carried by request headers, by the body's metadata and by the metadata text nested
 * in both. Headers and objects are ordered records, so equal texts are equal in their key order.
 */
module CodexCarriers {
  import opened Options
  import opened Text
  import opened Records
  import opened Json

  datatype Mode = Device | Session | Full

  /** The integers a JavaScript number holds exactly; every time in milliseconds is one. */
  type SafeInt = n: int | -9007199254740991 <= n <= 9007199254740991

  datatype Identity = Identity(
    mode: Mode, installationId: string, sessionId: string, threadId: string,
    turnId: string, windowId: string, startedAt: SafeInt)
  {
    function Thread(): string { if threadId != "" then threadId else sessionId }
  }

  function Number(n: SafeInt): Json { Num(n as real) }

  type Headers = seq<Field<string>>
  type JsonObject = seq<Field<Json>>

  const INSTALLATION := "x-codex-installation-id"
  const WINDOW := "x-codex-window-id"
  const TURN_METADATA := "x-codex-turn-metadata"

  // ----- What is assigned, in order.

  function HeaderStamps(id: Identity): seq<Field<string>> {
    if id.mode.Device? then [Field(INSTALLATION, id.installationId)]
    else [
      Field(INSTALLATION, id.installationId), Field("session-id", id.sessionId), Field("session_id", id.sessionId),
      Field("thread-id", id.Thread()), Field("x-client-request-id", id.Thread()), Field(WINDOW, id.windowId)
    ]
  }

  function BodyStamps(id: Identity): seq<Field<Json>> {
    if id.mode.Device? then [Field(INSTALLATION, Str(id.installationId))]
    else [
      Field(INSTALLATION, Str(id.installationId)), Field("session_id", Str(id.sessionId)),
      Field("thread_id", Str(id.Thread())), Field("turn_id", Str(id.turnId)), Field(WINDOW, Str(id.windowId))
    ]
  }

  function MetadataStamps(id: Identity, sessionFields: bool): seq<Field<Json>> {
    if !sessionFields then [Field("installation_id", Str(id.installationId))]
    else [
      Field("installation_id", Str(id.installationId)), Field("session_id", Str(id.sessionId)),
      Field("thread_id", Str(id.Thread())), Field("turn_id", Str(id.turnId)),
      Field("window_id", Str(id.windowId)), Field("turn_started_at_unix_ms", Number(id.startedAt))
    ]
  }

  // ----- JSON text of objects.

  /** A key that enumeration puts before the others, in numerical order. */
  function IndexValue(key: string): int {
    if key == "" then 0
    else 10 * IndexValue(key[..|key| - 1]) + (key[|key| - 1] as int - '0' as int)
  }

  predicate IsIndex(key: string) {
    && key != "" && (forall i :: 0 <= i < |key| ==> '0' <= key[i] <= '9')
    && (key[0] != '0' || key == "0") && IndexValue(key) < 0xffff_ffff
  }

  predicate Enumerated(keys: seq<string>) {
    forall i, j :: 0 <= i < j < |keys| ==>
      && keys[i] != keys[j]
      && (IsIndex(keys[j]) ==> IsIndex(keys[i]) && IndexValue(keys[i]) < IndexValue(keys[j]))
  }

  /** `parse` yields `None` for text that is no object; `printable` tells the values JSON text can hold. */
  datatype Codec = Codec(parse: string -> Option<JsonObject>, show: JsonObject -> string, printable: Json -> bool)

  /** An object as it can be enumerated and printed. */
  ghost predicate Canonical(c: Codec, m: JsonObject) {
    Enumerated(Keys(m)) && forall i :: 0 <= i < |m| ==> c.printable(m[i].value)
  }

  /** Parsing undoes printing, key order included, and yields what can be printed; so are strings
      and exact integers. */
  ghost predicate Faithful(c: Codec) {
    && (forall m: JsonObject :: Canonical(c, m) ==> c.parse(c.show(m)) == Some(m) && Trim(c.show(m)) != "")
    && (forall text: string :: c.parse(text).Some? ==> Canonical(c, c.parse(text).value))
    && (forall s: string :: c.printable(Str(s)))
    && (forall n: SafeInt :: c.printable(Number(n)))
  }

  function Existing(c: Codec, raw: Option<string>): Option<JsonObject> {
    if raw.Some? && Trim(raw.value) != "" then c.parse(raw.value) else None
  }

  const DEFAULTS: JsonObject := [Field("thread_source", Str("user")), Field("sandbox", Str("none"))]

  /** The metadata a merge starts from. */
  function Start(c: Codec, raw: Option<string>, sessionFields: bool): JsonObject {
    match Existing(c, raw)
    case Some(m) => m
    case None => if sessionFields then DEFAULTS else []
  }

  function Merged(c: Codec, raw: Option<string>, id: Identity, sessionFields: bool): JsonObject {
    SetAll(Start(c, raw, sessionFields), MetadataStamps(id, sessionFields))
  }

  function MergeTurnMetadata(c: Codec, raw: Option<string>, id: Identity, sessionFields: bool): string {
    c.show(Merged(c, raw, id, sessionFields))
  }

  // ----- The carriers.

  function HeaderPairs(c: Codec, h: Headers, id: Identity): seq<Field<string>> {
    var raw := Get(h, TURN_METADATA);
    HeaderStamps(id) +
    (if !id.mode.Device? || raw.Some?
     then [Field(TURN_METADATA, MergeTurnMetadata(c, raw, id, !id.mode.Device?))] else [])
  }

  function ApplyHeaders(c: Codec, h: Headers, id: Identity): Headers {
    SetAll(h, HeaderPairs(c, h, id))
  }

  /** The nested metadata as text; anything else counts as no text. */
  function BodyText(body: JsonObject): Option<string> {
    var v := Get(body, TURN_METADATA);
    if v.Some? && v.value.Str? then Some(v.value.s) else None
  }

  function BodyPairs(c: Codec, body: JsonObject, id: Identity): seq<Field<Json>> {
    BodyStamps(id) +
    (if Get(body, TURN_METADATA).Some?
     then [Field(TURN_METADATA, Str(MergeTurnMetadata(c, BodyText(body), id, !id.mode.Device?)))] else [])
  }

  /** `existing` is the body's metadata object, or `None` when the body has none. */
  function ApplyBody(c: Codec, existing: Option<JsonObject>, id: Identity): JsonObject {
    SetAll(existing.GetOr([]), BodyPairs(c, existing.GetOr([]), id))
  }

  // ----- The names.

  lemma HeaderNames(id: Identity)
    ensures DistinctKeys(HeaderStamps(id)) && !HasKey(HeaderStamps(id), TURN_METADATA)
  {
    assert "session-id"[7] != "session_id"[7];
  }

  lemma BodyNames(id: Identity)
    ensures DistinctKeys(BodyStamps(id)) && !HasKey(BodyStamps(id), TURN_METADATA)
  {
  }

  lemma MetadataNames(id: Identity, sessionFields: bool)
    ensures DistinctKeys(MetadataStamps(id, sessionFields))
    ensures forall i :: 0 <= i < |MetadataStamps(id, sessionFields)| ==>
              !IsIndex(MetadataStamps(id, sessionFields)[i].key)
  {
    assert "thread_id"[0] != "window_id"[0];
  }

  lemma DistinctWithLast<V>(pairs: seq<Field<V>>, last: Field<V>)
    requires DistinctKeys(pairs) && !HasKey(pairs, last.key)
    ensures DistinctKeys(pairs + [last])
  {
  }

  // ----- Merging.

  lemma CanonicalAfterSet(c: Codec, m: JsonObject, key: string, value: Json)
    requires Canonical(c, m) && !IsIndex(key) && c.printable(value)
    ensures Canonical(c, Set(m, key, value))
  {
    var out := Set(m, key, value);
    KeysAfterSet(m, key, value);
    if !HasKey(m, key) {
      forall i | 0 <= i < |m| ensures Keys(m)[i] != key {
        assert m[i].key != key;
      }
    }
    forall i | 0 <= i < |out| ensures c.printable(out[i].value) {
      ValuesAfterSet(m, key, value, i);
    }
  }

  lemma {:induction false} CanonicalAfterSetAll(c: Codec, m: JsonObject, pairs: JsonObject)
    requires Canonical(c, m)
    requires forall i :: 0 <= i < |pairs| ==> !IsIndex(pairs[i].key) && c.printable(pairs[i].value)
    ensures Canonical(c, SetAll(m, pairs))
  {
    if pairs != [] {
      var init, last := pairs[..|pairs| - 1], pairs[|pairs| - 1];
      CanonicalAfterSetAll(c, m, init);
      CanonicalAfterSet(c, SetAll(m, init), last.key, last.value);
    }
  }

  lemma StartIsCanonical(c: Codec, raw: Option<string>, sessionFields: bool)
    requires Faithful(c)
    ensures Canonical(c, Start(c, raw, sessionFields))
  {
    if Existing(c, raw).None? && sessionFields {
      var m := Start(c, raw, sessionFields);
      assert m[0].key[0] == 't' && m[1].key[0] == 's';
    }
  }

  lemma MergedIsCanonical(c: Codec, raw: Option<string>, id: Identity, sessionFields: bool)
    requires Faithful(c)
    ensures Canonical(c, Merged(c, raw, id, sessionFields))
  {
    StartIsCanonical(c, raw, sessionFields);
    MetadataNames(id, sessionFields);
    CanonicalAfterSetAll(c, Start(c, raw, sessionFields), MetadataStamps(id, sessionFields));
  }

  /** Merging twice gives the same text as merging once, key order included, and it reads back as merged. */
  lemma MergeTwice(c: Codec, raw: Option<string>, id: Identity, sessionFields: bool)
    requires Faithful(c)
    ensures var once := MergeTurnMetadata(c, raw, id, sessionFields);
            && MergeTurnMetadata(c, Some(once), id, sessionFields) == once
            && c.parse(once) == Some(Merged(c, raw, id, sessionFields))
  {
    MergedIsCanonical(c, raw, id, sessionFields);
    MetadataNames(id, sessionFields);
    SetAllTwice(Start(c, raw, sessionFields), MetadataStamps(id, sessionFields));
  }

  // ----- Re-applying.

  /** One more pair at the end, when the key is not assigned before. */
  lemma ApplyLast<V>(fields: seq<Field<V>>, stamps: seq<Field<V>>, last: Option<Field<V>>, key: string)
    requires DistinctKeys(stamps) && !HasKey(stamps, key)
    requires last.Some? ==> last.value.key == key
    ensures var pairs := stamps + (if last.Some? then [last.value] else []);
            && DistinctKeys(pairs)
            && Get(SetAll(fields, pairs), key) == if last.Some? then Some(last.value.value) else Get(fields, key)
  {
    if last.Some? {
      var pairs := stamps + [last.value];
      DistinctWithLast(stamps, last.value);
      SetAllHolds(fields, pairs, |stamps|);
    } else {
      assert stamps + [] == stamps;
      SetAllKeeps(fields, stamps, key);
    }
  }

  lemma HeadersTwice(c: Codec, h: Headers, id: Identity)
    requires Faithful(c)
    ensures ApplyHeaders(c, ApplyHeaders(c, h, id), id) == ApplyHeaders(c, h, id)
  {
    var raw, sessionFields := Get(h, TURN_METADATA), !id.mode.Device?;
    var text := MergeTurnMetadata(c, raw, id, sessionFields);
    HeaderNames(id);
    MergeTwice(c, raw, id, sessionFields);
    ApplyLast(h, HeaderStamps(id), if sessionFields || raw.Some? then Some(Field(TURN_METADATA, text)) else None,
              TURN_METADATA);
    SetAllTwice(h, HeaderPairs(c, h, id));
  }

  lemma BodyTwice(c: Codec, existing: Option<JsonObject>, id: Identity)
    requires Faithful(c)
    ensures ApplyBody(c, Some(ApplyBody(c, existing, id)), id) == ApplyBody(c, existing, id)
  {
    var body, sessionFields := existing.GetOr([]), !id.mode.Device?;
    var text := MergeTurnMetadata(c, BodyText(body), id, sessionFields);
    BodyNames(id);
    MergeTwice(c, BodyText(body), id, sessionFields);
    ApplyLast(body, BodyStamps(id),
              if Get(body, TURN_METADATA).Some? then Some(Field(TURN_METADATA, Str(text))) else None, TURN_METADATA);
    SetAllTwice(body, BodyPairs(c, body, id));
  }

  /** Applying one identity again changes neither headers nor body, the order of fields and texts included. */
  lemma ReapplyingIsNoOp(c: Codec, h: Headers, existing: Option<JsonObject>, id: Identity)
    requires Faithful(c)
    ensures var once := ApplyHeaders(c, h, id); ApplyHeaders(c, once, id) == once
    ensures var once := ApplyBody(c, existing, id); ApplyBody(c, Some(once), id) == once
  {
    HeadersTwice(c, h, id);
    BodyTwice(c, existing, id);
  }

  // ----- What is stamped, and what is left alone.

  /** The names stamped on headers, on the body's metadata and on nested metadata. */
  const HEADER_NAMES: seq<string> :=
    [INSTALLATION, "session-id", "session_id", "thread-id", "x-client-request-id", WINDOW]
  const BODY_NAMES: seq<string> := [INSTALLATION, "session_id", "thread_id", "turn_id", WINDOW]
  const METADATA_NAMES: seq<string> :=
    ["installation_id", "session_id", "thread_id", "turn_id", "window_id", "turn_started_at_unix_ms"]

  /** Device mode stamps the first name only. */
  function Stamped(names: seq<string>, sessionFields: bool): seq<string>
    requires names != []
  {
    if sessionFields then names else names[..1]
  }

  lemma StampedNames(id: Identity)
    ensures Keys(HeaderStamps(id)) == Stamped(HEADER_NAMES, !id.mode.Device?)
    ensures Keys(BodyStamps(id)) == Stamped(BODY_NAMES, !id.mode.Device?)
    ensures forall sessionFields ::
              Keys(MetadataStamps(id, sessionFields)) == Stamped(METADATA_NAMES, sessionFields)
  {
  }

  /**
   * Every header and body field of another name keeps the client's value. All fields keep their
   * places, and the new ones follow in the order in which they are stamped; nested metadata is
   * added to headers only, and not in device mode.
   */
  lemma StampingKeepsOthers(c: Codec, h: Headers, existing: Option<JsonObject>, id: Identity, key: string)
    requires key != TURN_METADATA
    ensures key !in Stamped(HEADER_NAMES, !id.mode.Device?) ==> Get(ApplyHeaders(c, h, id), key) == Get(h, key)
    ensures key !in Stamped(BODY_NAMES, !id.mode.Device?) ==>
              Get(ApplyBody(c, existing, id), key) == Get(existing.GetOr([]), key)
    ensures Keys(ApplyHeaders(c, h, id)) == Keys(h) + NewNames(Keys(h),
              if id.mode.Device? then [INSTALLATION] else HEADER_NAMES + [TURN_METADATA])
    ensures Keys(ApplyBody(c, existing, id))
         == Keys(existing.GetOr([])) + NewNames(Keys(existing.GetOr([])), Stamped(BODY_NAMES, !id.mode.Device?))
  {
    var body := existing.GetOr([]);
    HeadersKeepOthers(c, h, id, key);
    BodyKeepsOthers(c, body, id, key);
  }

  lemma HeadersKeepOthers(c: Codec, h: Headers, id: Identity, key: string)
    requires key != TURN_METADATA
    ensures key !in Stamped(HEADER_NAMES, !id.mode.Device?) ==> Get(ApplyHeaders(c, h, id), key) == Get(h, key)
    ensures Keys(ApplyHeaders(c, h, id)) == Keys(h) + NewNames(Keys(h),
              if id.mode.Device? then [INSTALLATION] else HEADER_NAMES + [TURN_METADATA])
  {
    StampedNames(id);
    HeaderNames(id);
    var stamps, pairs := HeaderStamps(id), HeaderPairs(c, h, id);
    HasKeyIff(stamps, key);
    if !HasKey(stamps, key) {
      NotInLonger(stamps, pairs, key);
      SetAllKeeps(h, pairs, key);
    }
    KeysWithMetadata(h, stamps, pairs);
  }

  lemma BodyKeepsOthers(c: Codec, body: JsonObject, id: Identity, key: string)
    requires key != TURN_METADATA
    ensures key !in Stamped(BODY_NAMES, !id.mode.Device?) ==> Get(ApplyBody(c, Some(body), id), key) == Get(body, key)
    ensures Keys(ApplyBody(c, Some(body), id))
         == Keys(body) + NewNames(Keys(body), Stamped(BODY_NAMES, !id.mode.Device?))
  {
    StampedNames(id);
    BodyNames(id);
    var stamps, pairs := BodyStamps(id), BodyPairs(c, body, id);
    HasKeyIff(stamps, key);
    if !HasKey(stamps, key) {
      NotInLonger(stamps, pairs, key);
      SetAllKeeps(body, pairs, key);
    }
    KeysWithMetadata(body, stamps, pairs);
  }

  lemma {:induction false} GetIsHeld<V>(fields: seq<Field<V>>, key: string)
    ensures Get(fields, key).Some? <==> key in Keys(fields)
  {
    if fields != [] {
      GetIsHeld(fields[1..], key);
      assert Keys(fields) == [fields[0].key] + Keys(fields[1..]);
    }
  }

  /** The keys after stamping, with nested metadata as a last pair or without it. */
  lemma KeysWithMetadata<V>(fields: seq<Field<V>>, stamps: seq<Field<V>>, pairs: seq<Field<V>>)
    requires DistinctKeys(stamps) && !HasKey(stamps, TURN_METADATA) && stamps <= pairs
    requires |pairs| <= |stamps| + 1 && (|pairs| > |stamps| ==> pairs[|stamps|].key == TURN_METADATA)
    ensures var names := if |pairs| > |stamps| then Keys(stamps) + [TURN_METADATA] else Keys(stamps);
            Keys(SetAll(fields, pairs)) == Keys(fields) + NewNames(Keys(fields), names)
    ensures Get(fields, TURN_METADATA).Some? ==>
              NewNames(Keys(fields), Keys(stamps) + [TURN_METADATA]) == NewNames(Keys(fields), Keys(stamps))
  {
    GetIsHeld(fields, TURN_METADATA);
    assert (Keys(stamps) + [TURN_METADATA])[..|stamps|] == Keys(stamps);
    if |pairs| > |stamps| {
      DistinctWithLast(stamps, pairs[|stamps|]);
      assert pairs == stamps + [pairs[|stamps|]];
      assert Keys(pairs) == Keys(stamps) + [TURN_METADATA];
    } else {
      assert pairs == stamps;
    }
    KeysAfterSetAll(fields, pairs);
  }

  lemma NotInLonger<V>(stamps: seq<Field<V>>, pairs: seq<Field<V>>, key: string)
    requires key != TURN_METADATA && !HasKey(stamps, key) && stamps <= pairs
    requires forall i :: |stamps| <= i < |pairs| ==> pairs[i].key == TURN_METADATA
    ensures !HasKey(pairs, key)
  {
    forall i | 0 <= i < |pairs| ensures pairs[i].key != key {
      if i < |stamps| { assert pairs[i] == stamps[i]; }
    }
  }

  /** A field of merged metadata that is not stamped: the client's, when it sent an object as
      text, and otherwise one of the two defaults, which device mode does not add. */
  ghost predicate ReadsAsMerged(c: Codec, raw: Option<string>, sessionFields: bool, key: string, text: string) {
    && c.parse(text).Some?
    && var v, keys := Get(c.parse(text).value, key), Keys(c.parse(text).value);
       if raw.Some? && Trim(raw.value) != "" && c.parse(raw.value).Some? then
         var sent := c.parse(raw.value).value;
         v == Get(sent, key) && keys == Keys(sent) + NewNames(Keys(sent), Stamped(METADATA_NAMES, sessionFields))
       else if !sessionFields then
         v == None && keys == ["installation_id"]
       else
         && v == (if key == "thread_source" then Some(Str("user"))
                  else if key == "sandbox" then Some(Str("none")) else None)
         && keys == ["thread_source", "sandbox"] + METADATA_NAMES
  }

  lemma {:induction false} AllAreNew(keys: seq<string>, names: seq<string>)
    requires forall i :: 0 <= i < |names| ==> names[i] !in keys
    ensures NewNames(keys, names) == names
  {
    if names != [] {
      AllAreNew(keys, names[..|names| - 1]);
    }
  }

  /** Every field of nested metadata that is not stamped reads so, and all fields keep their places. */
  lemma MergeKeepsOthers(c: Codec, raw: Option<string>, id: Identity, sessionFields: bool, key: string)
    requires Faithful(c) && key !in Stamped(METADATA_NAMES, sessionFields)
    ensures ReadsAsMerged(c, raw, sessionFields, key, MergeTurnMetadata(c, raw, id, sessionFields))
  {
    MergeTwice(c, raw, id, sessionFields);
    MergedKeeps(Start(c, raw, sessionFields), id, sessionFields, key);
    if Existing(c, raw).None? {
      var keys := Keys(Start(c, raw, sessionFields));
      DefaultsRead(Start(c, raw, sessionFields), sessionFields, key);
      DefaultsAreNotStamped(keys, sessionFields);
      AllAreNew(keys, Stamped(METADATA_NAMES, sessionFields));
    }
  }

  lemma MergedKeeps(start: JsonObject, id: Identity, sessionFields: bool, key: string)
    requires key !in Stamped(METADATA_NAMES, sessionFields)
    ensures var merged := SetAll(start, MetadataStamps(id, sessionFields));
            && Get(merged, key) == Get(start, key)
            && Keys(merged) == Keys(start) + NewNames(Keys(start), Stamped(METADATA_NAMES, sessionFields))
  {
    var stamps := MetadataStamps(id, sessionFields);
    StampedNames(id);
    MetadataNames(id, sessionFields);
    HasKeyIff(stamps, key);
    SetAllKeeps(start, stamps, key);
    KeysAfterSetAll(start, stamps);
  }

  lemma DefaultsRead(start: JsonObject, sessionFields: bool, key: string)
    requires start == if sessionFields then DEFAULTS else []
    ensures Keys(start) == if sessionFields then ["thread_source", "sandbox"] else []
    ensures Get(start, key) ==
            if !sessionFields then None
            else if key == "thread_source" then Some(Str("user"))
            else if key == "sandbox" then Some(Str("none")) else None
  {
    if sessionFields {
      var second := start[1..];
      assert second == [Field("sandbox", Str("none"))] && second[1..] == [];
      assert Get(second, key) == if key == "sandbox" then Some(Str("none")) else None;
      assert start[0] == Field("thread_source", Str("user"));
    }
  }

  lemma DefaultsAreNotStamped(keys: seq<string>, sessionFields: bool)
    requires keys == if sessionFields then ["thread_source", "sandbox"] else []
    ensures var names := Stamped(METADATA_NAMES, sessionFields);
            forall i :: 0 <= i < |names| ==> names[i] !in keys
  {
    assert "thread_source"[7] != "thread_id"[7];
    assert "sandbox"[1] != "session_id"[1];
  }

  /**
   * So for the metadata nested in headers and body: every field that is not stamped is the
   * client's. A nested value that is no text counts as none, and the body gets nested metadata
   * exactly when it had a value for it.
   */
  lemma NestedMetadataKeepsOthers(c: Codec, h: Headers, body: JsonObject, id: Identity, key: string)
    requires Faithful(c) && key !in Stamped(METADATA_NAMES, !id.mode.Device?)
    ensures var out := Get(ApplyHeaders(c, h, id), TURN_METADATA);
            && (out.Some? <==> !id.mode.Device? || Get(h, TURN_METADATA).Some?)
            && (out.Some? ==> ReadsAsMerged(c, Get(h, TURN_METADATA), !id.mode.Device?, key, out.value))
    ensures var out := Get(ApplyBody(c, Some(body), id), TURN_METADATA);
            && (out.Some? <==> Get(body, TURN_METADATA).Some?)
            && (out.Some? ==> out.value.Str? && match Get(body, TURN_METADATA).value
                  case Str(text) => ReadsAsMerged(c, Some(text), !id.mode.Device?, key, out.value.s)
                  case _ => ReadsAsMerged(c, None, !id.mode.Device?, key, out.value.s))
  {
    HeadersHold(c, h, id);
    BodyHolds(c, body, id);
    MergeKeepsOthers(c, Get(h, TURN_METADATA), id, !id.mode.Device?, key);
    MergeKeepsOthers(c, BodyText(body), id, !id.mode.Device?, key);
  }

  // ----- All carriers agree.

  predicate Holds<V(==)>(fields: seq<Field<V>>, key: string, value: V) {
    Get(fields, key) == Some(value)
  }

  /** A metadata text that names the installation. */
  predicate TextNamesInstallation(c: Codec, text: string, id: Identity) {
    c.parse(text).Some? && Holds(c.parse(text).value, "installation_id", Str(id.installationId))
  }

  /** A metadata text that names every part of the identity. */
  predicate TextNames(c: Codec, text: string, id: Identity) {
    && TextNamesInstallation(c, text, id)
    && var m := c.parse(text).value;
    && Holds(m, "session_id", Str(id.sessionId))
    && Holds(m, "thread_id", Str(id.Thread()))
    && Holds(m, "turn_id", Str(id.turnId))
    && Holds(m, "window_id", Str(id.windowId))
    && Holds(m, "turn_started_at_unix_ms", Number(id.startedAt))
  }

  /** Headers that name every part of the identity, in the headers and in the nested metadata. */
  predicate HeadersName(c: Codec, h: Headers, id: Identity) {
    && Holds(h, INSTALLATION, id.installationId)
    && Holds(h, "session-id", id.sessionId)
    && Holds(h, "session_id", id.sessionId)
    && Holds(h, "thread-id", id.Thread())
    && Holds(h, "x-client-request-id", id.Thread())
    && Holds(h, WINDOW, id.windowId)
    && Get(h, TURN_METADATA).Some? && TextNames(c, Get(h, TURN_METADATA).value, id)
  }

  /** Body metadata that names every part of the identity, and again where it nests metadata. */
  predicate BodyNamesAll(c: Codec, body: JsonObject, id: Identity) {
    && Holds(body, INSTALLATION, Str(id.installationId))
    && Holds(body, "session_id", Str(id.sessionId))
    && Holds(body, "thread_id", Str(id.Thread()))
    && Holds(body, "turn_id", Str(id.turnId))
    && Holds(body, WINDOW, Str(id.windowId))
    && (Get(body, TURN_METADATA).Some? ==> BodyText(body).Some? && TextNames(c, BodyText(body).value, id))
  }

  /** Each stamp is held. */
  predicate HoldsAll<V(==)>(fields: seq<Field<V>>, stamps: seq<Field<V>>) {
    forall i :: 0 <= i < |stamps| ==> Holds(fields, stamps[i].key, stamps[i].value)
  }

  lemma PairsAreHeld<V>(fields: seq<Field<V>>, stamps: seq<Field<V>>, pairs: seq<Field<V>>)
    requires DistinctKeys(pairs) && stamps <= pairs
    ensures HoldsAll(SetAll(fields, pairs), stamps)
  {
    forall i | 0 <= i < |stamps| ensures Holds(SetAll(fields, pairs), stamps[i].key, stamps[i].value) {
      SetAllHolds(fields, pairs, i);
    }
  }

  /** The merged metadata holds every stamp. */
  lemma MergeHolds(c: Codec, raw: Option<string>, id: Identity, sessionFields: bool)
    requires Faithful(c)
    ensures var text := MergeTurnMetadata(c, raw, id, sessionFields);
            c.parse(text).Some? && HoldsAll(c.parse(text).value, MetadataStamps(id, sessionFields))
  {
    var stamps := MetadataStamps(id, sessionFields);
    MergeTwice(c, raw, id, sessionFields);
    MetadataNames(id, sessionFields);
    PairsAreHeld(Start(c, raw, sessionFields), stamps, stamps);
  }

  lemma MergeNames(c: Codec, raw: Option<string>, id: Identity, sessionFields: bool)
    requires Faithful(c)
    ensures var text := MergeTurnMetadata(c, raw, id, sessionFields);
            if sessionFields then TextNames(c, text, id) else TextNamesInstallation(c, text, id)
  {
    MergeHolds(c, raw, id, sessionFields);
    var m, stamps := Merged(c, raw, id, sessionFields), MetadataStamps(id, sessionFields);
    MergeTwice(c, raw, id, sessionFields);
    assert Holds(m, stamps[0].key, stamps[0].value);
    if sessionFields {
      assert Holds(m, stamps[1].key, stamps[1].value) && Holds(m, stamps[2].key, stamps[2].value);
      assert Holds(m, stamps[3].key, stamps[3].value) && Holds(m, stamps[4].key, stamps[4].value);
      assert Holds(m, stamps[5].key, stamps[5].value);
    }
  }

  /** What the headers hold after applying. */
  lemma HeadersHold(c: Codec, h: Headers, id: Identity)
    ensures HoldsAll(ApplyHeaders(c, h, id), HeaderStamps(id))
    ensures Get(ApplyHeaders(c, h, id), TURN_METADATA) ==
            if !id.mode.Device? || Get(h, TURN_METADATA).Some?
            then Some(MergeTurnMetadata(c, Get(h, TURN_METADATA), id, !id.mode.Device?)) else None
  {
    var raw, sessionFields := Get(h, TURN_METADATA), !id.mode.Device?;
    var text := MergeTurnMetadata(c, raw, id, sessionFields);
    HeaderNames(id);
    ApplyLast(h, HeaderStamps(id), if sessionFields || raw.Some? then Some(Field(TURN_METADATA, text)) else None,
              TURN_METADATA);
    PairsAreHeld(h, HeaderStamps(id), HeaderPairs(c, h, id));
  }

  /** What the body's metadata holds after applying. */
  lemma BodyHolds(c: Codec, body: JsonObject, id: Identity)
    ensures HoldsAll(ApplyBody(c, Some(body), id), BodyStamps(id))
    ensures Get(ApplyBody(c, Some(body), id), TURN_METADATA) ==
            if Get(body, TURN_METADATA).Some?
            then Some(Str(MergeTurnMetadata(c, BodyText(body), id, !id.mode.Device?))) else None
  {
    var text := MergeTurnMetadata(c, BodyText(body), id, !id.mode.Device?);
    BodyNames(id);
    ApplyLast(body, BodyStamps(id),
              if Get(body, TURN_METADATA).Some? then Some(Field(TURN_METADATA, Str(text))) else None, TURN_METADATA);
    PairsAreHeld(body, BodyStamps(id), BodyPairs(c, body, id));
  }

  lemma HeadersCarry(c: Codec, h: Headers, id: Identity)
    requires Faithful(c) && !id.mode.Device?
    ensures HeadersName(c, ApplyHeaders(c, h, id), id)
  {
    HeadersHold(c, h, id);
    MergeNames(c, Get(h, TURN_METADATA), id, true);
    var out, stamps := ApplyHeaders(c, h, id), HeaderStamps(id);
    assert Holds(out, stamps[0].key, stamps[0].value) && Holds(out, stamps[1].key, stamps[1].value);
    assert Holds(out, stamps[2].key, stamps[2].value) && Holds(out, stamps[3].key, stamps[3].value);
    assert Holds(out, stamps[4].key, stamps[4].value) && Holds(out, stamps[5].key, stamps[5].value);
  }

  lemma BodyCarries(c: Codec, body: JsonObject, id: Identity)
    requires Faithful(c) && !id.mode.Device?
    ensures BodyNamesAll(c, ApplyBody(c, Some(body), id), id)
  {
    BodyHolds(c, body, id);
    MergeNames(c, BodyText(body), id, true);
    var out, stamps := ApplyBody(c, Some(body), id), BodyStamps(id);
    assert Holds(out, stamps[0].key, stamps[0].value) && Holds(out, stamps[1].key, stamps[1].value);
    assert Holds(out, stamps[2].key, stamps[2].value) && Holds(out, stamps[3].key, stamps[3].value);
    assert Holds(out, stamps[4].key, stamps[4].value);
  }

  /**
   * All carriers agree: headers, body and the metadata nested in each name one installation,
   * session, thread, turn and window, whatever the client had put there.
   */
  lemma CarriersAgree(c: Codec, h: Headers, existing: Option<JsonObject>, id: Identity)
    requires Faithful(c) && !id.mode.Device?
    ensures HeadersName(c, ApplyHeaders(c, h, id), id)
    ensures BodyNamesAll(c, ApplyBody(c, existing, id), id)
  {
    HeadersCarry(c, h, id);
    BodyCarries(c, existing.GetOr([]), id);
  }

  /** In device mode the carriers agree on the installation, in the nested metadata as well, which is
      not added where there was none. */
  lemma DeviceCarriersAgree(c: Codec, h: Headers, existing: Option<JsonObject>, id: Identity)
    requires Faithful(c) && id.mode.Device?
    ensures var out := ApplyHeaders(c, h, id);
            && Holds(out, INSTALLATION, id.installationId)
            && (Get(out, TURN_METADATA).Some? <==> Get(h, TURN_METADATA).Some?)
            && (Get(out, TURN_METADATA).Some? ==> TextNamesInstallation(c, Get(out, TURN_METADATA).value, id))
    ensures var body, out := existing.GetOr([]), ApplyBody(c, existing, id);
            && Holds(out, INSTALLATION, Str(id.installationId))
            && (Get(out, TURN_METADATA).Some? <==> Get(body, TURN_METADATA).Some?)
            && (Get(out, TURN_METADATA).Some? ==>
                  BodyText(out).Some? && TextNamesInstallation(c, BodyText(out).value, id))
  {
    var body := existing.GetOr([]);
    HeadersHold(c, h, id);
    BodyHolds(c, body, id);
    MergeNames(c, Get(h, TURN_METADATA), id, false);
    MergeNames(c, BodyText(body), id, false);
    assert Holds(ApplyHeaders(c, h, id), HeaderStamps(id)[0].key, HeaderStamps(id)[0].value);
    assert Holds(ApplyBody(c, existing, id), BodyStamps(id)[0].key, BodyStamps(id)[0].value);
  }

  /** An outbound request whose headers and body metadata are updated in place. */
  class OutboundRequest {
    var headers: Headers
    var clientMetadata: Option<JsonObject>

    /** The assignment of stamp `i`, after those before it. */
    method SetHeader(name: string, value: string, ghost before: Headers, ghost stamps: Headers, ghost i: nat)
      requires i < |stamps| && stamps[i] == Field(name, value) && headers == SetAll(before, stamps[..i])
      modifies this`headers
      ensures headers == SetAll(before, stamps[..i + 1])
    {
      assert stamps[..i + 1] == stamps[..i] + [Field(name, value)];
      SetAllSnoc(before, stamps[..i], Field(name, value));
      headers := Set(headers, name, value);
    }

    method StampHeaders(id: Identity)
      modifies this`headers
      ensures headers == SetAll(old(headers), HeaderStamps(id))
    {
      ghost var before, stamps := headers, HeaderStamps(id);
      SetHeader(INSTALLATION, id.installationId, before, stamps, 0);
      if !id.mode.Device? {
        SetHeader("session-id", id.sessionId, before, stamps, 1);
        SetHeader("session_id", id.sessionId, before, stamps, 2);
        SetHeader("thread-id", id.Thread(), before, stamps, 3);
        SetHeader("x-client-request-id", id.Thread(), before, stamps, 4);
        SetHeader(WINDOW, id.windowId, before, stamps, 5);
      }
      assert stamps[..|stamps|] == stamps;
    }

    method ApplyClientIdentityHeaders(c: Codec, id: Identity)
      modifies this`headers
      ensures headers == ApplyHeaders(c, old(headers), id)
    {
      ghost var before, stamps := headers, HeaderStamps(id);
      StampHeaders(id);
      HeaderNames(id);
      SetAllKeeps(before, stamps, TURN_METADATA);
      var raw := Get(headers, TURN_METADATA);
      if !id.mode.Device? || raw.Some? {
        var text := MergeTurnMetadata(c, raw, id, !id.mode.Device?);
        SetAllSnoc(before, stamps, Field(TURN_METADATA, text));
        headers := Set(headers, TURN_METADATA, text);
      } else {
        assert stamps + [] == stamps;
      }
    }

    method ApplyClientMetadata(c: Codec, id: Identity)
      modifies this`clientMetadata
      ensures clientMetadata == Some(ApplyBody(c, old(clientMetadata), id))
    {
      var body := clientMetadata.GetOr([]);
      var existing := StampBody(body, id);
      BodyNames(id);
      SetAllKeeps(body, BodyStamps(id), TURN_METADATA);
      if Get(existing, TURN_METADATA).Some? {
        var text := MergeTurnMetadata(c, BodyText(existing), id, !id.mode.Device?);
        SetAllSnoc(body, BodyStamps(id), Field(TURN_METADATA, Str(text)));
        existing := Set(existing, TURN_METADATA, Str(text));
      } else {
        assert BodyStamps(id) + [] == BodyStamps(id);
      }
      clientMetadata := Some(existing);
    }
  }

  method StampBody(body: JsonObject, id: Identity) returns (existing: JsonObject)
    ensures existing == SetAll(body, BodyStamps(id))
  {
    ghost var stamps := BodyStamps(id);
    existing := SetField(body, INSTALLATION, Str(id.installationId), body, stamps, 0);
    if !id.mode.Device? {
      existing := SetField(existing, "session_id", Str(id.sessionId), body, stamps, 1);
      existing := SetField(existing, "thread_id", Str(id.Thread()), body, stamps, 2);
      existing := SetField(existing, "turn_id", Str(id.turnId), body, stamps, 3);
      existing := SetField(existing, WINDOW, Str(id.windowId), body, stamps, 4);
    }
    assert stamps[..|stamps|] == stamps;
  }

  /** The assignment of stamp `i`, after those before it. */
  method SetField(
    fields: JsonObject, name: string, value: Json, ghost before: JsonObject, ghost stamps: JsonObject, ghost i: nat)
    returns (out: JsonObject)
    requires i < |stamps| && stamps[i] == Field(name, value) && fields == SetAll(before, stamps[..i])
    ensures out == SetAll(before, stamps[..i + 1])
  {
    assert stamps[..i + 1] == stamps[..i] + [Field(name, value)];
    SetAllSnoc(before, stamps[..i], Field(name, value));
    out := Set(fields, name, value);
  }
}

/** The one identity that every carrier of an upstream turn gets. */
module CodexClientIdentity {
  import opened Options
  import opened Text
  import opened CodexUuid
  import Seed = CodexSeed
  import Carriers = CodexCarriers

  const SALT := "omniroute-codex-installation"
  const INSTALLATION_PREFIX_V2 := "omniroute:codex-installation:v2:"
  const INSTALLATION_KEY := "codexInstallationId"

  function Explicit(r: Seed.Record): Option<string> {
    if INSTALLATION_KEY in r && r[INSTALLATION_KEY].Str? then NormalizeUuid(r[INSTALLATION_KEY].s) else None
  }

  function LegacySource(r: Seed.Record): string {
    if Seed.TextUnder(r, "workspaceId") != "" then Seed.TextUnder(r, "workspaceId")
    else if Seed.TextUnder(r, "accountId") != "" then Seed.TextUnder(r, "accountId")
    else Seed.TextUnder(r, "email")
  }

  function InstallationId(hash: Seed.Hash, stored: Option<Seed.Record>, accountKey: Option<string>): string {
    var r := stored.GetOr(map[]);
    if Explicit(r).Some? then Explicit(r).value
    else if Seed.SeedOf(stored).Some? then
      DeriveStableUuid(hash(INSTALLATION_PREFIX_V2 + Seed.SeedOf(stored).value))
    else if LegacySource(r) != "" then LegacyUuid(hash(SALT + ":" + LegacySource(r)))
    else DeriveStableUuid(hash(SALT + ":" + Seed.AccountSeed(r, accountKey)))
  }

  datatype IdentityOptions = IdentityOptions(mode: Option<Seed.Mode>, accountKey: Option<string>, oauth: bool)

  function ModeFor(stored: Option<Seed.Record>, o: IdentityOptions): Seed.Mode {
    match o.mode
    case Some(mode) => mode
    case None => if o.oauth then Seed.ModeOf(stored.GetOr(map[])) else Seed.Off
  }

  function Converged(
    full: bool, installation: string, session: string, derived: string, turnId: string, now: Carriers.SafeInt)
    : Carriers.Identity
  {
    var thread := if full || derived == "" then session else derived;
    Carriers.Identity(
      if full then Carriers.Full else Carriers.Session, installation, session, thread, turnId, thread + ":0", now)
  }

  /** `turnId` is a newly drawn UUID, `now` the clock. */
  function Create(
    hash: Seed.Hash, client: Option<string>, stored: Option<Seed.Record>, o: IdentityOptions,
    turnId: string, now: Carriers.SafeInt): Option<Carriers.Identity>
  {
    var mode, installation := ModeFor(stored, o), InstallationId(hash, stored, o.accountKey);
    if mode.Off? then None
    else if mode.Device? then Some(Carriers.Identity(Carriers.Device, installation, "", "", "", "", now))
    else
      Some(Converged(mode.Full?, installation, Seed.SessionId(hash, stored, o.accountKey),
                     Seed.ThreadId(hash, client, stored, o.accountKey), turnId, now))
  }

  predicate IsUuid(s: string) {
    NormalizeUuid(s) == Some(s)
  }

  lemma InstallationIsUuid(hash: Seed.Hash, stored: Option<Seed.Record>, accountKey: Option<string>)
    ensures IsUuid(InstallationId(hash, stored, accountKey))
  {
    var r := stored.GetOr(map[]);
    if Explicit(r).Some? {
      UuidIsTrimmed(Explicit(r).value);
    } else if Seed.SeedOf(stored).Some? {
      DerivedUuidSpec(hash(INSTALLATION_PREFIX_V2 + Seed.SeedOf(stored).value));
    } else if LegacySource(r) != "" {
      LegacyUuidSpec(hash(SALT + ":" + LegacySource(r)));
    } else {
      DerivedUuidSpec(hash(SALT + ":" + Seed.AccountSeed(r, accountKey)));
    }
  }

  /**
   * The installation: a valid id stored explicitly is used as it is, else it is derived from the
   * seed. Without a seed it keeps the historical layout over the first of workspace, account and
   * email, and is derived from the account's name when there is none of them.
   */
  lemma InstallationSpec(hash: Seed.Hash, stored: Option<Seed.Record>, accountKey: Option<string>)
    ensures var r, id := stored.GetOr(map[]), InstallationId(hash, stored, accountKey);
            var values := [Seed.At(r, "workspaceId"), Seed.At(r, "accountId"), Seed.At(r, "email")];
            if HasExplicit(r) then id == Trim(r["codexInstallationId"].s)
            else if Seed.SeedOf(stored).Some? then
              id == DeriveStableUuid(hash("omniroute:codex-installation:v2:" + Seed.SeedOf(stored).value))
            else if Seed.NoText(values) then
              id == DeriveStableUuid(hash("omniroute-codex-installation:" + Seed.AccountSeed(r, accountKey)))
            else
              exists text ::
                Seed.IsFirstText(values, text) && id == LegacyUuid(hash("omniroute-codex-installation:" + text))
  {
    var r := stored.GetOr(map[]);
    var values := [Seed.At(r, "workspaceId"), Seed.At(r, "accountId"), Seed.At(r, "email")];
    FirstOfThree(r, values);
    assert SALT + ":" == "omniroute-codex-installation:";
  }

  /** A valid installation id is stored explicitly. */
  predicate HasExplicit(r: Seed.Record) {
    && Seed.IsText(Seed.At(r, "codexInstallationId"))
    && MatchesUuid(Trim(r["codexInstallationId"].s))
  }

  lemma FirstOfThree(r: Seed.Record, values: seq<Option<Seed.Value>>)
    requires values == [Seed.At(r, "workspaceId"), Seed.At(r, "accountId"), Seed.At(r, "email")]
    ensures Seed.NoText(values) <==> LegacySource(r) == ""
    ensures !Seed.NoText(values) ==> Seed.IsFirstText(values, LegacySource(r))
  {
    if !Seed.NoText(values) {
      var i := if Seed.IsText(values[0]) then 0 else if Seed.IsText(values[1]) then 1 else 2;
      assert Seed.IsText(values[i]) && forall j :: 0 <= j < i ==> !Seed.IsText(values[j]);
    } else {
      assert !Seed.IsText(values[0]) && !Seed.IsText(values[1]) && !Seed.IsText(values[2]);
    }
  }

  lemma SessionIsUuid(hash: Seed.Hash, stored: Option<Seed.Record>, accountKey: Option<string>)
    ensures IsUuid(Seed.SessionId(hash, stored, accountKey))
  {
    match Seed.SeedOf(stored)
    case Some(seed) => DerivedUuidSpec(hash(Seed.SESSION_PREFIX_V2 + seed));
    case None =>
      DerivedUuidSpec(hash(Seed.SESSION_PREFIX + Seed.AccountSeed(stored.GetOr(map[]), accountKey)));
  }

  lemma ThreadIsUuid(hash: Seed.Hash, client: Option<string>, stored: Option<Seed.Record>, accountKey: Option<string>)
    ensures var thread := Seed.ThreadId(hash, client, stored, accountKey);
            if client.None? || Trim(client.value) == "" then thread == "" else IsUuid(thread)
  {
    if client.Some? && Trim(client.value) != "" {
      match Seed.SeedOf(stored)
      case Some(seed) => DerivedUuidSpec(hash(Seed.THREAD_PREFIX_V2 + seed + ":" + client.value));
      case None =>
        DerivedUuidSpec(
          hash(Seed.THREAD_PREFIX + Seed.AccountSeed(stored.GetOr(map[]), accountKey) + ":" + client.value));
    }
  }

  /** The caller asks for this mode, or leaves it to an OAuth connection that names it. */
  predicate Asks(stored: Option<Seed.Record>, o: IdentityOptions, mode: Seed.Mode, name: string) {
    || o.mode == Some(mode)
    || (o.mode.None? && o.oauth && Seed.NamesMode(stored.GetOr(map[]), name))
  }

  lemma ModeForIff(stored: Option<Seed.Record>, o: IdentityOptions)
    ensures ModeFor(stored, o).Off? <==> Asks(stored, o, Seed.Off, "off") || (o.mode.None? && !o.oauth)
    ensures ModeFor(stored, o).Device? <==> Asks(stored, o, Seed.Device, "device")
    ensures ModeFor(stored, o).Full? <==> Asks(stored, o, Seed.Full, "full")
  {
    Seed.ModeOfIff(stored.GetOr(map[]));
  }

  predicate IsBlankText(client: Option<string>) {
    client.None? || Trim(client.value) == ""
  }

  lemma UuidIsText(s: string)
    requires IsUuid(s)
    ensures s != ""
  {
  }

  lemma DerivedIdsAreTexts(
    hash: Seed.Hash, client: Option<string>, stored: Option<Seed.Record>, accountKey: Option<string>)
    ensures Seed.SessionId(hash, stored, accountKey) != ""
    ensures Seed.ThreadId(hash, client, stored, accountKey) == "" <==> IsBlankText(client)
  {
    SessionIsUuid(hash, stored, accountKey);
    ThreadIsUuid(hash, client, stored, accountKey);
    UuidIsText(Seed.SessionId(hash, stored, accountKey));
    if !IsBlankText(client) {
      UuidIsText(Seed.ThreadId(hash, client, stored, accountKey));
    }
  }

  /**
   * There is an identity unless "off" is asked for, or nothing is and the connection is no OAuth
   * one. It has the connection's installation; in device mode it names nothing else. Otherwise it
   * has the connection's session and the drawn turn, its thread is the client session's, or the
   * session itself in full mode and without a client session, and its window is the thread's first.
   */
  lemma CreateSpec(
    hash: Seed.Hash, client: Option<string>, stored: Option<Seed.Record>, o: IdentityOptions,
    turnId: string, now: Carriers.SafeInt)
    ensures var id := Create(hash, client, stored, o, turnId, now);
            && (id.None? <==> Asks(stored, o, Seed.Off, "off") || (o.mode.None? && !o.oauth))
            && (id.Some? ==>
                  && (id.value.mode.Device? <==> Asks(stored, o, Seed.Device, "device"))
                  && (id.value.mode.Full? <==> Asks(stored, o, Seed.Full, "full"))
                  && id.value.installationId == InstallationId(hash, stored, o.accountKey)
                  && id.value.startedAt == now)
            && (id.Some? && id.value.mode.Device? ==>
                  id.value.sessionId == id.value.threadId == id.value.turnId == id.value.windowId == "")
            && (id.Some? && !id.value.mode.Device? ==>
                  && id.value.sessionId == Seed.SessionId(hash, stored, o.accountKey)
                  && id.value.threadId == id.value.Thread()
                  && id.value.threadId == (if id.value.mode.Full? || IsBlankText(client) then id.value.sessionId
                                           else Seed.ThreadId(hash, client, stored, o.accountKey))
                  && id.value.turnId == turnId && id.value.windowId == id.value.threadId + ":0")
  {
    ModeForIff(stored, o);
    DerivedIdsAreTexts(hash, client, stored, o.accountKey);
  }

  /** Whatever an identity names is a UUID that the validator accepts. */
  lemma CreatedAreUuids(
    hash: Seed.Hash, client: Option<string>, stored: Option<Seed.Record>, o: IdentityOptions,
    turnId: string, now: Carriers.SafeInt)
    ensures var id := Create(hash, client, stored, o, turnId, now);
            id.Some? ==>
              && IsUuid(id.value.installationId)
              && (!id.value.mode.Device? ==> IsUuid(id.value.sessionId) && IsUuid(id.value.threadId))
  {
    CreateSpec(hash, client, stored, o, turnId, now);
    InstallationIsUuid(hash, stored, o.accountKey);
    SessionIsUuid(hash, stored, o.accountKey);
    ThreadIsUuid(hash, client, stored, o.accountKey);
  }

  /** Over every sequence of OAuth updates of a connection with a valid seed, the identity of a
      client session names one session, thread and window as long as the mode is the same. */
  lemma IdentityConstant(
    hash: Seed.Hash, client: Option<string>, initial: Option<Seed.Record>, updates: seq<Seed.Update>,
    before: IdentityOptions, after: IdentityOptions,
    turnId: string, turnId': string, now: Carriers.SafeInt, now': Carriers.SafeInt)
    requires Seed.SeedOf(initial).Some?
    requires forall i :: 0 <= i < |updates| ==>
               Seed.IsText(updates[i].accessToken) || Seed.IsText(updates[i].refreshToken)
    requires ModeFor(Seed.Stored(initial, updates), after) == ModeFor(initial, before) != Seed.Off
    ensures var first := Create(hash, client, initial, before, turnId, now);
            var last := Create(hash, client, Seed.Stored(initial, updates), after, turnId', now');
            && first.Some? && last.Some?
            && last.value.sessionId == first.value.sessionId
            && last.value.threadId == first.value.threadId
            && last.value.windowId == first.value.windowId
  {
    Seed.ConvergedIdsConstant(hash, initial, updates, client, before.accountKey, after.accountKey);
  }
}
