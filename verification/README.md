# Verified model of the OmniRoute gateway and its desktop shell

OmniRoute routes requests of AI tools to many upstream providers and ships an Electron shell that
runs the gateway locally. This project models the self-contained stateful and textual cores of both
in Dafny and proves what they promise, for all inputs and all runs. `dafny verify dfyconfig.toml`
checks the whole project.

| file | component |
|---|---|
| `CodexTurnState.dfy` | provenance table of turn-state blobs, its sweep and lazy expiry, and the echo resolver in front of it |
| `CodexIdentity.dfy`, `CodexUuid.dfy` | persisted fingerprint seed, derived ids and UUID layout, the identity of a turn and its carriers |
| `ServerEnvFile.dfy`, `SecretBootstrap.dfy` | parser and printer of `server.env`, and the state machine of starts, writes, crashes and rows |
| `LoginManager.dfy`, `LoginManagerObject.dfy` | web-login protocol as atomic steps, and the object that performs them |
| `ServerReadiness.dfy` | readiness poller with its deadline |
| `AnthropicHeaders.dfy`, `CliFingerprints.dfy` | merging, collapsing and reordering of headers and fields |
| `FreeModelCatalog.dfy` | token totals that count each shared pool once |
| `ScopedModelIds.dfy`, `RegistryUtils.dfy`, `ProviderModels.dfy` | printed and parsed model ids, the model index, the global model search |
| `ErrorRules.dfy` | status restatement, countdown phrases and error classification, and how they fit together |
| `Json.dfy`, `ToolCloaking.dfy`, `ContextEditing.dfy` | rewrites of JSON trees and request bodies |
| `GlmProvider.dfy` | stripping and joining of endpoint URLs |
| `Prelude.dfy` | optional values, text operations, subsequences, ordered records |

Code that updates fields is a class, code that loops is a method with a loop; each is proved equal to
a function, and the properties are lemmas about that function. Rule tables, registries, catalogues,
digests, drawn secrets and oracle answers are arbitrary unless a row says "shipped".

## What the sources do not keep

Some promises hold only under a condition. Each has a lemma that names it exactly and, where the
failure is not obvious, one that exhibits it.

- The turn-state guard: a clock that steps back can make it miss a foreign blob, exactly when a visit
  with a later clock has dropped the session's entry since its last note (`AnswerIff`;
  `ClockStepBackMissesForeign` is a run of two operations).
- The storage key: a start inspects only the credential columns of provider connections before it
  draws a fresh key. Other tables of the same database hold values encrypted under that key as well
  (cloud-agent credentials, the OIDC client secret, the Obsidian token and password, webhook
  metadata, service keys). With one of those stored, no connection credential, and `server.env`
  deleted, the next server runs with another key (`DeletedFileOrphansOtherValue`); over runs this is
  the only way to lose one when the key is given nowhere else (`EveryValueKeepsOneKeyIff`). For the
  inspected credentials the promise holds (`StorageKeyNeverReplaced`).
- The storage key, again: an environment that defines `STORAGE_ENCRYPTION_KEY` as an empty string, on a
  database without rows, whose `server.env` write fails, starts a server under a key that is not
  kept (`StartKeepsAgreementIff`, `EmptyOverrideAndFailedWriteSplitKeys`).
- The login manager: its events carry no session. A callback of an earlier login is harmless exactly
  when no login is in progress (`HarmlessIff`); otherwise it acts on that one, so a late `closed`
  event settles it (`StaleCloseEndsLoginInProgress`) and a late cookie reply completes it with the
  earlier login's cookies (`StaleCookiesCompleteNextLogin`). Captured headers are kept at any time
  (`LeftoverHeaderIsKept`, `LeftoverHeaderCompletesNextLogin`). A `ready-to-show` callback throws
  when no login is in progress (`ReadyToShowIff`). Presence of a storage name counts as
  found even when its value is null (`SuccessDeliversEveryName`, `AbsentStorageItemCompletesLogin`).
- The readiness loop may not end without a positive poll interval when a zero sleep takes no time
  (`EndsForEveryServerIff`). The default `setTimeout` sleep does take time, and no caller in
  `electron/main.js` sets an interval, so the shell itself is not affected.
- Operator error rules: declaring any rule for a provider also makes its built-in rules match the
  full error text instead of the structured error, so an unrelated rule can change the built-in
  answer (`OpencodeConservativeIff`, `CloudflareConservativeIff`, `UnrelatedRuleChangesBuiltInAnswer`;
  for every other shipped provider it cannot, by `FullTextProvidersAreConservative` and
  `BodyBlindProvidersAreConservative`).
- Joining the versioned messages paths is not idempotent for bases that end in `/V1` or `/v1/v1`, and
  switching from them to the chat or models path loses a `/v1` at the end of the base; switching from
  the versioned models path to those adds a `/v1` that the base did not end in
  (`MessagesJoinIsPathIndependentIff`, `MessagesThenChatOrModelsIff`, `VersionedModelsThenUnversionedIff`).
- Printed model ids do not parse back when a provider lists a model both as `x` and as `provider/x`,
  or when a model alias makes something else of them (`EmbeddingRoundTripIff`, `RerankRoundTripIff`).
- Context editing: the comments promise an added edit for every enabled body; a management value that
  is an array hides it from serialisation (`EditIsSentIff`).

## Hypotheses

- Letter case is ASCII case; whitespace is what `String.prototype.trim` removes.
- Record keys are not integer-like and not `__proto__` or inherited names, except in `server.env`,
  where `__proto__` is modelled, and in nested metadata, where integer-like keys may come first.
- JSON printing and parsing are faithful to each other where metadata is nested as text, key order
  included, on objects as JavaScript enumerates them (`Faithful`, `Canonical`).
- The old server has exited before the next start. A failed write leaves the file as it was.
- Values are stored encrypted under the storage key of the server that stores them.
- A login is accepted only after the timer, query and script of an earlier one are gone, except where
  a row says "in every interleaving" or "without draining".
- The clock is arbitrary unless a row says otherwise; readiness time passes only in fetches, which
  end with their abort timer, and in sleeps, which take what was asked.
- Token counts are not negative where a bound is stated.
- The extra fields of catalogue rows do not rename `id`, `name` or `provider`.

## Model

| member | source | states |
|---|---|---|
| `CodexTurnState.NoteKeepsRepresents` | `open-sse/config/codexTurnState.ts:93-112` | recording a response, with the sweep every 256 writes, keeps the table equal to the last notes of a log that forgets nothing, up to entries that had expired |
| `CodexTurnState.AskKeepsRepresents` | `open-sse/config/codexTurnState.ts:121-138` | asking, with its lazy delete, keeps that relation; a "cross" answer is right for any clock, and with a clock that has not gone back the answer is the log's |
| `CodexTurnState.FlaggedOnlyWhenForeign` | `open-sse/config/codexTurnState.ts:78-138` | over every run and for any clock, an echo is flagged only when it is foreign: the last response recorded for the session went to another account less than the TTL ago |
| `CodexTurnState.TableAnswersLikeLog` | `open-sse/config/codexTurnState.ts:78-138` | over every run whose clock has not passed the question, the swept and lazily pruned table flags exactly the foreign echoes |
| `CodexTurnState.AnswerIff` | `open-sse/config/codexTurnState.ts:78-138` | over every run and for any clock, an echo is flagged if and only if it is foreign and no visit to the entry since the last note (a question about the session, or a write that sweeps) read a clock at which that note had expired |
| `CodexTurnState.HeldIff` | `open-sse/config/codexTurnState.ts:93-138` | over every run and for any clock, a session has an entry if and only if it has a note and no such visit has dropped it |
| `CodexTurnState.ForeignIff` | `open-sse/config/codexTurnState.ts:93-138` | the log of notes flags an echo if and only if the operations, with blank ids and keys ignored and others trimmed, make it foreign |
| `CodexTurnState.TurnStateTable.SweepExpired` | `open-sse/config/codexTurnState.ts:78-84` | the sweep keeps exactly the entries that have not expired |
| `CodexTurnState.TurnStateTable.NoteProvenance` | `open-sse/config/codexTurnState.ts:93-112` | the method performs the recording step and keeps the table a representation of the log |
| `CodexTurnState.TurnStateTable.IsCrossAccount` | `open-sse/config/codexTurnState.ts:121-138` | the method performs the asking step; flagged implies foreign, and foreign implies flagged unless the clock went back |
| `CodexTurnStateEcho.ReadHeaderIff` | `open-sse/config/codexTurnState.ts:56-76` | a header reads as the trimmed value of the first entry of that name, in any letter case, that is a string and not blank, and as nothing if and only if there is none |
| `CodexTurnStateEcho.ClientSessionIdIff` | `open-sse/config/codexIdentity.ts:239-247` | the session is the trimmed session-id value when it has 1 to 200 safe characters, else the session_id value under the same test, else none |
| `CodexTurnStateEcho.ResolveEcho` | `open-sse/config/codexIdentity.ts:258-267` | with a clock that has not gone back nothing is echoed if and only if no non-blank blob was sent or it is known to be foreign for the session that the headers name; otherwise the first trimmed blob is; for any clock one is withheld only when known to be foreign |
| `CodexSeed.EnsureFingerprintSeed` | `open-sse/config/codexIdentity.ts:120-143` | the step-by-step edit of the local copy computes the function the seed lemmas are about |
| `CodexSeed.UpdateSpec` | `open-sse/config/codexIdentity.ts:120-143` | an update in full: everything sent but a seed is stored, nothing for nothing; the seed is the valid one stored before, else, unless the mode named is off, the drawn one, and without a token none |
| `CodexSeed.ModeOfIff` | `open-sse/config/codexIdentity.ts:171-184` | the mode is the one named, in any letter case, under the first of the two keys that has a text, and session when that is none of the other three |
| `CodexSeed.UpdateKeepsSeedIff` | `open-sse/config/codexIdentity.ts:120-143` | an update keeps a valid stored seed if and only if it comes with an access or a refresh token that is a non-blank string |
| `CodexSeed.SeedNeverRotates` | `open-sse/config/codexIdentity.ts:102-143` | once a connection has a valid seed, every later sequence of OAuth updates keeps it, whatever mode or seed is sent |
| `CodexSeed.SentSeedIgnored` | `open-sse/config/codexIdentity.ts:125-127` | a seed the client sends never influences what is stored |
| `CodexSeed.FreshSeedIff` | `open-sse/config/codexIdentity.ts:132-143` | with no valid seed stored, a new one is stored exactly when the mode named is not off, and nothing else that was sent is touched |
| `CodexSeed.ConvergedIdsConstant` | `open-sse/config/codexIdentity.ts:211-237` | the converged session id and every thread id stay the same over the whole run under any account key, and the session id passes the validator |
| `CodexSeed.SessionsAgreeIff` | `open-sse/config/codexIdentity.ts:211-221` | two connections have one session id under every hash if and only if they have one seed, or no seed and one account name |
| `CodexSeed.ThreadsAgreeIff` | `open-sse/config/codexIdentity.ts:223-237` | with seeds, two client sessions have one thread id under every hash if and only if they are one session of connections with one seed |
| `CodexSeed.LegacyThreadsAgreeIff` | `open-sse/config/codexIdentity.ts:223-237` | without a seed, two client sessions of one account have one thread id under every hash if and only if they are one |
| `CodexSeed.AccountSeedSpec` | `open-sse/config/codexIdentity.ts:76-88` | an account without a seed is named by the first non-blank of key, connection, workspace, account and email, and by a default when there is none |
| `CodexUuid.DeriveOnBuffer` | `open-sse/config/codexIdentity.ts:62-74` | masking the buffer in place and printing its five slices gives the derived id |
| `CodexUuid.LayoutDecodes` | `open-sse/config/codexIdentity.ts:67-73` | the 8-4-4-4-12 text loses nothing: every byte reads back |
| `CodexUuid.LayoutAcceptedIff` | `open-sse/config/codexIdentity.ts:17-17` | the validator accepts a layout if and only if the version nibble is 1 to 5 and the variant nibble 8 to b |
| `CodexUuid.DerivedUuidSpec` | `open-sse/config/codexIdentity.ts:61-74` | for every digest: 36 characters, accepted unchanged, version 4 and variant bits of RFC 4122, and the first 16 digest bytes with only those six bits changed |
| `CodexUuid.DerivedUuidsEqualIff` | `open-sse/config/codexIdentity.ts:62-74` | two digests give one id if and only if their first halves agree outside the six fixed bits |
| `CodexUuid.LegacyUuidSpec` | `open-sse/config/codexIdentity.ts:56-59` | the legacy slices are the same layout with version 4 and variant nibble a, so they are accepted unchanged too |
| `CodexCarriers.MergeTwice` | `open-sse/config/codexIdentity.ts:407-440` | merging an identity into turn metadata twice gives the same text as merging it once, key order included, and the text reads back as merged |
| `CodexCarriers.ReapplyingIsNoOp` | `open-sse/config/codexIdentity.ts:453-513` | applying one identity again changes neither headers nor body metadata, the order of fields and the nested texts included, for any faithful JSON codec |
| `CodexCarriers.CarriersAgree` | `open-sse/config/codexIdentity.ts:453-513` | headers, body metadata and the metadata nested in each name one installation, session, thread, turn and window, whatever the client had put there |
| `CodexCarriers.DeviceCarriersAgree` | `open-sse/config/codexIdentity.ts:459-469` | in device mode headers, body metadata and the metadata nested in each name one installation, and nested metadata is not added |
| `Records.SetAllTwice` | `open-sse/config/codexIdentity.ts:431-438` | assigning distinct fields twice is assigning them once: a present key keeps its place |
| `CodexCarriers.StampingKeepsOthers` | `open-sse/config/codexIdentity.ts:453-512` | every header and body field of a name that the mode does not stamp keeps the client's value; all fields keep their places, and the new ones follow in the order in which they are stamped |
| `CodexCarriers.MergeKeepsOthers` | `open-sse/config/codexIdentity.ts:407-440` | when the text sent is an object, every field of it that is not stamped reads the same in the merged text and all keep their places; when it is missing, blank or no object, the others are exactly the two defaults, or none in device mode |
| `CodexCarriers.NestedMetadataKeepsOthers` | `open-sse/config/codexIdentity.ts:459-512` | the same for the metadata that headers and body carry after stamping, which the body carries exactly when it did before |
| `CodexCarriers.OutboundRequest.ApplyClientIdentityHeaders` | `open-sse/config/codexIdentity.ts:453-481` | the assignments to the headers, in order, give the stamped headers |
| `CodexCarriers.OutboundRequest.ApplyClientMetadata` | `open-sse/config/codexIdentity.ts:483-513` | the assignments to the body metadata, in order, give the stamped metadata |
| `CodexClientIdentity.CreateSpec` | `open-sse/config/codexIdentity.ts:273-311` | there is an identity unless off is asked for, or nothing is and the connection is no OAuth one; it has the connection's installation and the clock, and outside device mode the connection's session, the drawn turn, the client session's thread (the session itself in full mode and without one) and that thread's first window |
| `CodexClientIdentity.CreatedAreUuids` | `open-sse/config/codexIdentity.ts:186-311` | whatever an identity names as installation, session and thread passes the validator |
| `CodexClientIdentity.InstallationSpec` | `open-sse/config/codexIdentity.ts:186-209` | a valid installation stored explicitly is used as it is, else it is derived from the seed; without one it keeps the historical layout over the first of workspace, account and email, or else is derived from the account name |
| `CodexClientIdentity.InstallationIsUuid` | `open-sse/config/codexIdentity.ts:186-209` | the installation id passes the validator whichever of its four sources it comes from |
| `CodexClientIdentity.IdentityConstant` | `open-sse/config/codexIdentity.ts:273-311` | over every sequence of OAuth updates the identity of a client session names one session, thread and window as long as the mode is the same |
| `ServerEnvFile.ParseEnvFile` | `electron/main.js:734-745` | the parser loop computes the record that the printer lemmas are about, and only well-formed pairs come out |
| `ServerEnvFile.ParseSpec` | `electron/main.js:734-745` | any file in full: a key is read if and only if some line between line feeds, trimmed, gives it a value and is no comment, and the last such line counts |
| `ServerEnvFile.ParseOfPrint` | `electron/main.js:734-793` | parsing the printed file gives back the same record, for every well-formed record in any order of its entries |
| `ServerEnvFile.ParseIsWellFormed` | `electron/main.js:734-745` | every record the parser can produce is one the printer can carry |
| `ServerEnvFile.PrintedPairs` | `electron/main.js:785-793` | the printed file has one line name=value for each pair, after a comment and an empty line |
| `ServerEnvFile.Entries` | `electron/main.js:787-792` | the list of entries holds every pair of the record once |
| `SecretBootstrap.StartSpec` | `electron/main.js:747-798` | a start in full: it launches if and only if a storage key is given or the database can be inspected and holds no credential; the server then finds under every name the value of the process, else of the preferred file, else of server.env, except generated secrets, their key version and the bootstrap mark; the file is rewritten if and only if a secret was generated and the write succeeds, and keeps all else |
| `SecretBootstrap.StartKeepsAgreementIff` | `electron/main.js:747-798` | a start keeps any of the encrypted values, the running server and the file under one storage key if and only if it is key-safe for them: without a key in effect it is refused or its fresh key is that of the values and the file will agree, otherwise the key in effect is that of values and file |
| `SecretBootstrap.LeftAloneIsSafeIff` | `electron/main.js:763-777` | when both environments leave the key alone, a start is safe for all encrypted values if and only if it does not find the key missing and no inspected credential while other tables hold a value under another key than its own |
| `SecretBootstrap.RunKeepsOneKeyIff` | `electron/main.js:747-798` | from a state with one key, all encrypted values stay under one key at every state of a run if and only if every start in it is key-safe |
| `SecretBootstrap.EveryValueKeepsOneKeyIff` | `electron/main.js:758-777` | over every run of starts, failed writes, writes of credentials and other encrypted values, crashes and deletions of the file, with the key given nowhere else: all encrypted values and every server are always under one key if and only if no start orphans values of the tables it does not inspect |
| `SecretBootstrap.DeletedFileOrphansOtherValue` | `electron/main.js:763-777` | the run in which it does: another encrypted value is stored, the server dies, the file is deleted, and the next server runs with a fresh key |
| `SecretBootstrap.StorageKeyNeverReplaced` | `electron/main.js:758-777` | over every such run, whatever is stored elsewhere, the credentials of provider connections, which the start inspects, are always under one key, and a server that runs while there are any runs with it |
| `SecretBootstrap.ShippedStorageKeyNeverReplaced` | `electron/main.js:763-777` | both for the record names of the shell |
| `SecretBootstrap.EmptyOverrideAndFailedWriteSplitKeys` | `electron/main.js:754-797` | with an empty key in an environment and a failed write, the next server runs with a key that stored rows are not under |
| `SecretBootstrap.SecretsSurvive` | `electron/main.js:749-798` | after one launch whose write succeeded, over every later run without a deletion and with the secrets given nowhere else, the file never changes and every server runs with the secrets of that launch |
| `SecretBootstrap.WrittenLaunchIsRemembered` | `electron/main.js:758-798` | a launch whose write succeeds leaves in the file exactly the secrets it runs with |
| `SecretBootstrap.RememberedStart` | `electron/main.js:749-798` | with all secrets in the file a start launches with them and writes nothing |
| `SecretBootstrap.RewriteLosesNoPair` | `electron/main.js:758-798` | a start keeps every pair of the file except secrets whose effective value was empty and the version that goes with a generated storage key |
| `SecretBootstrap.Shell.StartServer` | `electron/main.js:747-798` | the step-by-step start is a start step; it keeps the credentials, and all encrypted values, under one key if and only if it is key-safe for them |
| `SecretBootstrap.Shell.StoreCredential` | `src/lib/db/encryption.ts:259-268` | a stored connection credential is one more value, under the key of the running server, in the columns a start inspects |
| `SecretBootstrap.Shell.StoreOther` | `src/lib/cloudAgent/credentials.ts:66-80` | a credential of another table is one more value under the key of the running server, in no column a start inspects |
| `LoginManager.StepKeepsInv` | `electron/loginManager.js:56-425` | every step keeps the protocol invariant, when a login is accepted only after the poll callbacks of the one before |
| `LoginManager.LoginProtocol` | `electron/loginManager.js:56-425` | in every such interleaving each accepted login is settled once and in order, at most one poll continuation is outstanding, a login in progress has its timeout armed, and after settlement no timer is armed and the window is gone |
| `LoginManager.StartKeepsOneContinuationIff` | `electron/loginManager.js:82-108` | that condition is exact: a new login keeps to one poll continuation if and only if none of an earlier one is outstanding |
| `LoginManager.FreeProtocol` | `electron/loginManager.js:56-425` | in every interleaving whatsoever each accepted login is still settled at most once and in order, with its timeout armed until then; after settlement the window is gone and only poll timers can be left |
| `LoginManager.HarmlessIff` | `electron/loginManager.js:126-398` | in every interleaving, delivering a callback changes nothing else if and only if no login is in progress (for captured headers, if and only if they have no new name) |
| `LoginManager.CloseSettlesIff` | `electron/loginManager.js:184-196` | in every interleaving the close of any window, its own or an earlier one's, settles the login in progress as closed, and nothing without one |
| `LoginManager.ExtractedIff` | `electron/loginManager.js:249-260` | a cookie name is found if and only if some source of that name has a cookie of that name in the jar whose domain contains the one asked for without its leading dot; the value is that of the first such cookie of the last such source |
| `LoginManager.CapturedIff` | `electron/lib/loginHeaderCapture.js:3-16` | a header asked for is captured if and only if the last header of its name, in any letter case, is not blank, and trimmed |
| `LoginManager.SuccessDelivers` | `electron/loginManager.js:241-382` | in every interleaving a success delivers under each name the value that the page script handed in, else the cookie found with the reply that settles or that issued the script, else the header kept at that time |
| `LoginManager.SettlesIff` | `electron/loginManager.js:82-398` | in every interleaving a login is settled by a failed opening, cancel, close and timeout with that reason, by a reply that brings everything it asks for as a success, and by nothing else |
| `LoginManager.GoesOnWith` | `electron/loginManager.js:199-367` | in every interleaving a timer or reply that does not settle the login in progress goes on with exactly one poll, query or script for its own configuration and changes nothing else |
| `LoginManager.AcceptedOpens` | `electron/loginManager.js:56-218` | an accepted login that opens has its window, its minimum time and its timeout, and is the one in progress |
| `LoginManager.HeadersAfter` | `electron/loginManager.js:129-425` | kept headers change only when captured headers have new names, and are dropped when a login is settled |
| `LoginManager.SuccessDeliversIssuedNames` | `electron/loginManager.js:334-382` | in every interleaving a success delivers every name of the provider its query or script was issued for, and a value is null exactly when the page script handed in a null |
| `LoginManager.SuccessDeliversEveryName` | `electron/loginManager.js:334-382` | that is the provider of the login in progress whenever that login was accepted drained, whatever earlier logins did |
| `LoginManager.ReadyToShowIff` | `electron/loginManager.js:178-181` | in every interleaving the ready-to-show callback dereferences a null window if and only if no login is in progress, and shows another login's window if and only if one is in progress in another window |
| `LoginManager.AbsentStorageItemCompletesLogin` | `electron/loginManager.js:273-293` | a login that waits for cookies and asks for one storage item completes with a null when the item does not exist |
| `LoginManager.WaitingIsReached` | `electron/loginManager.js:114-243` | from any idle and drained state three events lead to a login that waits for its cookies, with the captured headers kept |
| `LoginManager.LeftoverHeaderIsKept` | `electron/loginManager.js:129-135` | a header handed in by the window of a cancelled login is kept after settlement |
| `LoginManager.LeftoverHeaderCompletesNextLogin` | `electron/loginManager.js:247-361` | a header so kept completes the next login although that login saw none |
| `LoginManager.StaleCloseEndsLoginInProgress` | `electron/loginManager.js:184-196` | the close of an earlier window settles the login in progress while its own window is open |
| `LoginManager.StaleCookiesCompleteNextLogin` | `electron/loginManager.js:241-325` | without draining, the reply to a cancelled login's cookie query completes the next login with the cancelled one's cookies |
| `LoginManagerObject.Manager.Start` | `electron/loginManager.js:56-109` | the method performs the start step on the fields and keeps the invariants |
| `LoginManagerObject.Manager.OpenLoginWindow` | `electron/loginManager.js:114-218` | the method opens the window and arms both timers, or settles when opening throws |
| `LoginManagerObject.Manager.CleanUp` | `electron/loginManager.js:403-425` | cleanup clears exactly the three timers named by the fields, and all session fields |
| `LoginManagerObject.Manager.CancelLogin` | `electron/loginManager.js:387-398` | the method performs the cancel step and keeps the invariants |
| `LoginManagerObject.Manager.OnClosed` | `electron/loginManager.js:184-196` | the method performs the window-closed step and keeps the invariants |
| `LoginManagerObject.Manager.OnTimerFired` | `electron/loginManager.js:199-217` | the method performs the step of each of the three timers and keeps the invariants |
| `LoginManagerObject.Manager.OnCookiesArrived` | `electron/loginManager.js:241-325` | the method performs the cookie-result step on a raw cookie jar and keeps the invariants |
| `LoginManagerObject.Manager.OnScriptReturned` | `electron/loginManager.js:281-306` | the method performs the script-result step and keeps the invariants |
| `LoginManagerObject.Manager.CheckCredentials` | `electron/loginManager.js:334-367` | the method completes the login or schedules the next poll, as the check step does |
| `LoginManagerObject.Manager.OnHeadersSeen` | `electron/lib/loginHeaderCapture.js:3-16` | the method adds the captured headers under names not captured before |
| `LoginManagerObject.CaptureHeaders` | `electron/lib/loginHeaderCapture.js:4-14` | the loops capture the trimmed, non-blank last header of each name asked for, whatever its letter case |
| `LoginManagerObject.ExtractCookies` | `electron/loginManager.js:249-260` | the loop takes the first matching cookie of each source |
| `ServerReadiness.WaitForServer` | `electron/lib/serverReadiness.js:14-56` | whenever the loop ends it ends within the timeout, returns true if and only if some attempt that was made succeeded, and warns exactly once if and only if it returns false; with a positive interval it ends with at most one attempt per interval of the timeout |
| `ServerReadiness.WithinDeadline` | `electron/lib/serverReadiness.js:25-51` | every attempt, with the sleep after it, ends within the timeout |
| `ServerReadiness.AttemptsBounded` | `electron/lib/serverReadiness.js:25-51` | with a positive interval there are at most ceil(timeout / interval) attempts |
| `ServerReadiness.AttemptSpec` | `electron/lib/serverReadiness.js:25-51` | an attempt succeeds if and only if the server answers well within the longest time that the per-attempt limit and the deadline allow, ends with the answer or rejection or at that limit, and is followed by the next one after an interval, at the deadline at the latest |
| `ServerReadiness.EndsForEveryServerIff` | `electron/lib/serverReadiness.js:25-52` | when a sleep takes exactly what was asked, the loop ends for every server behaviour if and only if the interval is positive or the timeout is not |
| `AnthropicHeaders.MergeClientBeta` | `open-sse/config/anthropicHeaders.ts:84-115` | the merge loop computes the merged list that the lemmas are about |
| `AnthropicHeaders.MergeSpec` | `open-sse/config/anthropicHeaders.ts:84-115` | the base tokens are an untouched prefix; what follows are client tokens in the order first sent, each on the list and taken by the model, new and in its first spelling, with none left out |
| `AnthropicHeaders.SupportsIff` | `open-sse/config/context1m.ts:30-38` | the trimmed model takes the long-context beta if and only if it is a supported one in any letter case, or that with a suffix behind a hyphen; dropping a date decides nothing |
| `AnthropicHeaders.MergeTwice` | `open-sse/config/anthropicHeaders.ts:84-115` | merging twice equals merging once |
| `AnthropicHeaders.TokensOfJoin` | `open-sse/config/anthropicHeaders.ts:90-94` | rejoining tokens and splitting again gives the same tokens |
| `AnthropicHeaders.TokensAtComma` | `open-sse/config/anthropicHeaders.ts:90-94` | the tokens of a text are those before a comma and those behind it |
| `AnthropicHeaders.TokensOfPlain` | `open-sse/config/anthropicHeaders.ts:90-94` | a text without commas is one trimmed token, or none when it is blank |
| `AnthropicHeaders.CollapseSpec` | `open-sse/config/anthropicHeaders.ts:122-156` | collapsing two spellings leaves one header with exactly the tokens of both (or the first token), absent when both were blank, changes no other header, leaves a lone spelling alone, and is idempotent |
| `AnthropicHeaders.NormalizeSpec` | `open-sse/config/anthropicHeaders.ts:141-166` | one pass leaves the version header with the first token of two spellings and the beta header with all of them, a lone spelling as it was, and every other header alone |
| `AnthropicHeaders.NormalizeVariantsTwice` | `open-sse/config/anthropicHeaders.ts:141-166` | one pass settles both header pairs and a second changes nothing |
| `AnthropicHeaders.OutboundHeaders.Normalize` | `open-sse/config/anthropicHeaders.ts:141-166` | the in-place deletions and assignments give the normalised headers |
| `CliFingerprints.OrderFields` | `open-sse/config/cliFingerprints.ts:206-226` | the two loops compute the reordering |
| `CliFingerprints.OrderedSpec` | `open-sse/config/cliFingerprints.ts:202-226` | reordering is a permutation of the entries: listed keys first in list order, the rest in their own order |
| `CliFingerprints.OrderedTwice` | `open-sse/config/cliFingerprints.ts:206-226` | a second pass changes nothing |
| `CliFingerprints.OrderHeaders` | `open-sse/config/cliFingerprints.ts:232-262` | the header loops compute the reordering of the case-insensitive lookup |
| `CliFingerprints.OrderedHeadersSpec` | `open-sse/config/cliFingerprints.ts:241-259` | the result holds, for each name up to letter case, exactly the last header of that name |
| `CliFingerprints.ListedHeadersFirst` | `open-sse/config/cliFingerprints.ts:247-259` | listed headers come first in list order up to letter case, the others in the order in which their names were first sent |
| `CliFingerprints.HeaderPlaces` | `open-sse/config/cliFingerprints.ts:232-262` | listed headers, up to letter case, come first by their first place in the list; the others follow by where a header of their name was first sent |
| `CliFingerprints.OrderedHeadersPermute` | `open-sse/config/cliFingerprints.ts:232-262` | without colliding names header reordering is a permutation, and unlisted headers keep their order |
| `CliFingerprints.OrderedHeadersTwice` | `open-sse/config/cliFingerprints.ts:232-262` | a second pass changes nothing, collisions or not, and without a list nothing is changed at all |
| `FreeModelCatalog.ComputeDedupedSum` | `open-sse/config/freeModelCatalog.ts:119-134` | the two loops compute the loose entries plus the sum over pools of their maximum |
| `FreeModelCatalog.PoolMaxSpec` | `open-sse/config/freeModelCatalog.ts:124-131` | the pools counted are those of the included models, each with the largest picked value (or zero) |
| `FreeModelCatalog.AddingModel` | `open-sse/config/freeModelCatalog.ts:119-134` | the sum of none is zero, and one more model adds its value, or what it raises the best value of its pool by, or nothing when it is not included |
| `FreeModelCatalog.DedupedSumPermutation` | `open-sse/config/freeModelCatalog.ts:119-134` | the sum does not depend on the order of the models |
| `FreeModelCatalog.DedupedAtMostPlain` | `open-sse/config/freeModelCatalog.ts:119-134` | the sum never exceeds the plain sum |
| `FreeModelCatalog.DedupedSumKeep` | `open-sse/config/freeModelCatalog.ts:119-137` | leaving any models out never raises the sum |
| `FreeModelCatalog.ComputeTotals` | `open-sse/config/freeModelCatalog.ts:136-156` | the three totals are computed from the three sums |
| `FreeModelCatalog.TotalsStep` | `open-sse/config/freeModelCatalog.ts:60-156` | one more model raises the totals from its regime on by its tokens or credits, or by what it raises its pool by; other regimes and excluded models change nothing |
| `FreeModelCatalog.TotalsOrdered` | `open-sse/config/freeModelCatalog.ts:136-156` | steady <= with credits <= first month, and leaving out the "avoid" models raises none of them |
| `ScopedModelIds.EmbeddingRoundTripIff` | `open-sse/config/embeddingRegistry.ts:433-518` | a printed embedding id parses back to its provider and model, including models whose own id starts with the provider, if and only if what the model aliases make of it names that model; when they leave it alone, if and only if the provider does not also list the bare id |
| `ScopedModelIds.ParseSpec` | `open-sse/config/embeddingRegistry.ts:433-528` | the embedding parser in full, for any registry and string: behind the provider that the first segment stands for, else the first provider id before a slash, else the first of the caller's, else the segment; a bare string is a model of the first provider that lists it |
| `ScopedModelIds.ParseRerankSpec` | `open-sse/config/rerankRegistry.ts:142-203` | the rerank parser in full, for any registry and string |
| `ScopedModelIds.AliasSpec` | `open-sse/config/embeddingRegistry.ts:433-443` | the first model alias that is the string, or without a slash its last part, is replaced in its place; without one the string is left alone |
| `ScopedModelIds.ParsesToIff` | `open-sse/config/embeddingRegistry.ts:477-528` | any string behind the aliases parses to a listed model if and only if it names it: behind the provider's id or alias with nothing nearer listed, or bare with no earlier provider listing it |
| `ScopedModelIds.RerankRoundTripIff` | `open-sse/config/rerankRegistry.ts:142-203` | the same for the rerank registry |
| `ScopedModelIds.GetAllModels` | `open-sse/config/embeddingRegistry.ts:590-608` | the nested loops list every model of every provider under its printed id |
| `ScopedModelIds.CatalogueLists` | `open-sse/config/embeddingRegistry.ts:462-608` | the catalogue has one row for every model of every provider, in order, printed behind the provider's id once |
| `ScopedModelIds.EmbeddingCatalogueParsesBackIff` | `open-sse/config/embeddingRegistry.ts:433-608` | an id the embedding catalogue prints parses back to exactly the provider and model it came from if and only if what the model aliases make of it names that model; always, when they leave it alone |
| `ScopedModelIds.RerankCatalogueParsesBack` | `open-sse/config/rerankRegistry.ts:142-220` | every id the rerank catalogue prints parses back to exactly the provider and model it came from |
| `ScopedModelIds.DetectDimensionConflict` | `open-sse/config/embeddingRegistry.ts:551-563` | the record holds the known dimensions, the list the distinct ones in order, and the flag is set if and only if two listed strings have known, different dimensions |
| `ScopedModelIds.DimensionIff` | `open-sse/config/embeddingRegistry.ts:536-542` | with nameable providers a string has a known dimension if and only if it names a model that has it |
| `ScopedModelIds.ConflictIff` | `open-sse/config/embeddingRegistry.ts:561-562` | more than one distinct known dimension means two entries that differ, and conversely |
| `ScopedModelIds.SameStringsSameDimensions` | `open-sse/config/embeddingRegistry.ts:551-563` | the distinct dimensions do not depend on order or repetition of the strings |
| `RegistryUtils.IndexAgreesWithScan` | `open-sse/config/registryUtils.ts:25-46` | the first-wins index answers as the linear scan, for every registry and model |
| `RegistryUtils.IndexSpec` | `open-sse/config/registryUtils.ts:32-46` | the index holds each listed model under the first provider that lists it, and no other |
| `RegistryUtils.ParseSpec` | `open-sse/config/registryUtils.ts:52-76` | the parser in full, for any registry and string: the rest behind the first provider whose id or alias stands before it, else the first provider that lists the string, else none |
| `RegistryUtils.IndexedRegistry.GetIndex` | `open-sse/config/registryUtils.ts:32-46` | the loops build the index once and reuse it |
| `RegistryUtils.IndexedRegistry.ParseModel` | `open-sse/config/registryUtils.ts:52-76` | the parser with the memoised index answers as the parser with the linear scan |
| `RegistryUtils.ParsePrefixSpec` | `open-sse/config/registryUtils.ts:58-66` | with slash-free prefixes a prefixed string parses to the first owner of the prefix, by id or alias, and the whole rest |
| `RegistryUtils.GetAllModels` | `open-sse/config/registryUtils.ts:82-107` | the nested loops list every model under the id and the alias of its provider, each row with the extra fields of the callback |
| `RegistryUtils.RowsStep` | `open-sse/config/registryUtils.ts:82-107` | each further model adds a row behind the id of its provider and one behind its alias, as far as they are not empty, and there are no others |
| `RegistryUtils.CatalogueParsesBack` | `open-sse/config/registryUtils.ts:52-107` | every id the catalogue prints, by id or by alias, parses back to its provider and model when prefixes are slash-free and distinct |
| `ProviderModels.GetGlobalModel` | `open-sse/config/providerModels.ts:107-146` | the search returns the richest exact match, else the richest match of the id without its prefix, else the longest listed prefix with ties broken by richness and then by order, else nothing |
| `ProviderModels.Richest` | `open-sse/config/providerModels.ts:114-116` | the entry that a stable sort by descending richness puts first |
| `ProviderModels.CandidatesStep` | `open-sse/config/providerModels.ts:109-128` | each further provider adds the first of its models with the id as a candidate, and there are no others |
| `ProviderModels.BasenameIff` | `open-sse/config/providerModels.ts:119-120` | the searched name is what stands behind the last slash, or the whole id when nothing does |
| `ProviderModels.ImproveWithin` | `open-sse/config/providerModels.ts:131-145` | after each provider the best match is the first of the best prefixes seen so far |
| `ProviderModels.EffortFlagsCount` | `open-sse/config/providerModels.ts:96-97` | the effort flags count ten and five in the score, whatever else an entry defines |
| `ProviderModels.SizeFlagsCount` | `open-sse/config/providerModels.ts:98-99` | the two sizes count three and two |
| `ProviderModels.OtherFlagsCount` | `open-sse/config/providerModels.ts:94-105` | the other flags count two, two, one and one, and an entry without flags nothing |
| `ProviderModels.GlobalModelUnique` | `open-sse/config/providerModels.ts:107-146` | that description determines the result |
| `StatusRestatement.RestateSpec` | `open-sse/config/upstreamStatusRestatement.ts:88-129` | for every rule table, the first rule that is for the status and has a marker in the lower-case text and no excluding one gives the status, with the positive delay of the upstream or else its own; without one everything passes through |
| `StatusRestatement.RestateTwiceIff` | `open-sse/config/upstreamStatusRestatement.ts:101-129` | for every rule table, restating twice equals once on status and retry delay if and only if the restated status meets no rule, or one that gives that status and delay again |
| `StatusRestatement.ShippedRestateTwice` | `open-sse/config/upstreamStatusRestatement.ts:75-129` | the shipped table is such a table, so this holds for every input |
| `StatusRestatement.RestatedIff` | `open-sse/config/upstreamStatusRestatement.ts:75-129` | exactly which errors are restated: agentrouter, 400 or 403, quota marker and no denial of access in message or body; they become 429 with the positive delay of the upstream or else a minute, all others pass through |
| `MarkerText.MarkerInQuoted` | `open-sse/config/providerErrorRules.ts:266-267` | an ideographic marker is in the lower-cased JSON text of a string if and only if it is in the string |
| `MarkerText.QuoteReadsBack` | `open-sse/config/providerErrorRules.ts:266-267` | the JSON text of a string reads back as that string by the escapes of RFC 8259, a control character that has a short escape never in its long form |
| `ProviderErrorRules.OperatorRules.SetRules` | `open-sse/config/providerErrorRules.ts:78-88` | the settings replace the whole operator table |
| `ProviderErrorRules.TableSpec` | `open-sse/config/providerErrorRules.ts:78-88` | a lower-case provider has rules if some usable entry names it, and they are those of the last such entry |
| `ProviderErrorRules.FirstOperatorSpec` | `open-sse/config/providerErrorRules.ts:435-443` | the operator rule that decides is the first one whose status and substring match |
| `ProviderErrorRules.OperatorRulesExtend` | `open-sse/config/providerErrorRules.ts:420-467` | on one body the first operator rule that hits decides, and without a hit the built-in result is unchanged |
| `ProviderErrorRules.FullTextReachesOperatorRules` | `open-sse/config/providerErrorRules.ts:387-467` | the first operator rule whose status matches and whose text is in the full error text answers with its reason, scope and cooldown, whatever the structured error is; without an error text the structured error is searched |
| `ProviderErrorRules.ErrorTextIsNotRead` | `open-sse/config/providerErrorRules.ts:387-412` | for a provider without declared rules that is no full-text provider, the answer does not depend on the error text |
| `ProviderErrorRules.FullTextProvidersAreConservative` | `open-sse/config/providerErrorRules.ts:379-412` | through the whole lookup, declaring rules that do not hit changes nothing for a provider that matches the full text anyway (agentrouter) |
| `ProviderErrorRules.OpencodeConservativeIff` | `open-sse/config/providerErrorRules.ts:105-159` | for the opencode providers it changes nothing if and only if the status is not 429, or text and structured error give the same monthly countdown and, without one, a zero header settles the matter or both or neither name a quota code |
| `ProviderErrorRules.CloudflareConservativeIff` | `open-sse/config/providerErrorRules.ts:194-211` | for cloudflare-ai that is: another status, or text and structured error agree on the phrase looked for |
| `ProviderErrorRules.BodyBlindProvidersAreConservative` | `open-sse/config/providerErrorRules.ts:165-233` | for minimax and openrouter it never changes anything |
| `ProviderErrorRules.UnrelatedRuleChangesBuiltInAnswer` | `open-sse/config/providerErrorRules.ts:387-412` | a rule for another status turns an unclassified cloudflare-ai error into an exhausted quota |
| `ProviderErrorRules.AgentrouterAnswers` | `open-sse/config/providerErrorRules.ts:260-291` | agentrouter, on any error text: the quota marker with 400, 403 or 429 is an exhausted quota of the connection without a cooldown; else a denied model with 403 is an access error of the model for six hours; else nothing |
| `ProviderErrorRules.RestatedAnswers` | `open-sse/config/providerErrorRules.ts:260-291` | the same on the raw error after restatement, except that a denial whose status was restated is not classified |
| `ProviderErrorRules.OpencodeAnswers` | `open-sse/config/providerErrorRules.ts:105-159` | opencode, on a structured error: only 429 is classified, as an exhausted quota of the connection, for the countdown of a monthly limit, and else when a remaining-count header is zero or a quota code is named |
| `ProviderErrorRules.MinimaxAnswers` | `open-sse/config/providerErrorRules.ts:165-187` | minimax: a 429 whose quota header lists an entry at zero is an exhausted quota of the model |
| `ProviderErrorRules.CloudflareAnswers` | `open-sse/config/providerErrorRules.ts:194-211` | cloudflare-ai: a 429 about the daily allocation is an exhausted quota of the connection |
| `ProviderErrorRules.OpenrouterAnswers` | `open-sse/config/providerErrorRules.ts:221-233` | openrouter: any 402 is an exhausted quota of the connection for two minutes |
| `ProviderErrorRules.RestatementAgreesIff` | `open-sse/config/providerErrorRules.ts:260-291` | restatement changes the agentrouter classification if and only if a 403 is restated although the matched body denies access to the model and does not mention the quota |
| `ProviderErrorRules.RestateThenClassifyIff` | `open-sse/config/upstreamStatusRestatement.ts:101-129` | a non-empty agentrouter error text gets the same reason, scope and cooldown before and after restatement if and only if it is not a restated 403 whose text denies access to the model without mentioning the quota |
| `ProviderErrorRules.RestateThenClassifyAgrees` | `open-sse/config/upstreamStatusRestatement.ts:101-129` | so every error text that the restatement has searched is classified alike |
| `ResetCountdown.CountdownIff` | `open-sse/config/providerErrorRules.ts:486-511` | a text has a countdown if and only if a phrase reset(s) in N unit stands in it, with any space and digits, with a count above zero; the leftmost one counts |
| `ResetCountdown.PrintedCountdown` | `open-sse/config/providerErrorRules.ts:486-511` | a printed count and unit is parsed to its length in milliseconds, and to nothing for a zero count |
| `ToolCloaking.LookupCommutes` | `open-sse/config/toolCloaking.ts:15-30` | for every tree and every path that avoids the key, lookup commutes with stripping |
| `ToolCloaking.StripRemovesAll` | `open-sse/config/toolCloaking.ts:15-30` | the stripped tree has the key nowhere |
| `ToolCloaking.UnchangedIff` | `open-sse/config/toolCloaking.ts:15-30` | a tree is unchanged if and only if it never had the key |
| `ToolCloaking.StripTwice` | `open-sse/config/toolCloaking.ts:15-30` | stripping is idempotent |
| `ToolCloaking.SanitizeIsRewrite` | `open-sse/config/toolCloaking.ts:39-85` | the sanitizer, with its early returns and changed flags, is the strip applied at every parameter schema of every declaration of every tool and nowhere else |
| `ToolCloaking.SanitizeSpec` | `open-sse/config/toolCloaking.ts:32-85` | apart from the removed key the payload is the same tree; off the parameter schemas every lookup is unchanged |
| `GlmProvider.StripKnownEndpoint` | `open-sse/config/glmProvider.ts:346-367` | the loop and the branches compute the stripped base and the kept suffix |
| `GlmProvider.SplitOfParts` | `open-sse/config/glmProvider.ts:232-236` | a URL splits at its first query or hash delimiter |
| `GlmProvider.StripSpec` | `open-sse/config/glmProvider.ts:346-367` | stripping takes off trailing slashes and then the longest known endpoint, in any letter case and with its version before a messages endpoint, and keeps query and hash |
| `GlmProvider.UrlParts` | `open-sse/config/glmProvider.ts:232-367` | every URL has such parts |
| `GlmProvider.JoinSpec` | `open-sse/config/glmProvider.ts:369-380` | joining in full: the path is appended to the stripped base before query and hash, and a version that the base ends with and the path starts with is written once, as in the base |
| `GlmProvider.StripUndoesJoin` | `open-sse/config/glmProvider.ts:346-380` | stripping after joining with the chat or the models path gives the stripped original, and query and hash are kept |
| `GlmProvider.JoinIsPathIndependent` | `open-sse/config/glmProvider.ts:369-380` | joining a path after another endpoint equals joining it at once, so joining is idempotent |
| `GlmProvider.MessagesJoinIsPathIndependentIff` | `open-sse/config/glmProvider.ts:353-380` | joining any versioned path after a versioned messages path equals joining it at once if and only if the stripped base does not end in an upper-case or doubled version segment |
| `GlmProvider.MessagesThenChatOrModelsIff` | `open-sse/config/glmProvider.ts:353-380` | switching from a messages path to the chat or the models path equals joining it at once if and only if the stripped base does not end in the version |
| `GlmProvider.VersionedModelsThenVersioned` | `open-sse/config/glmProvider.ts:369-380` | joining any versioned path after the versioned models path equals joining it at once, for every URL |
| `GlmProvider.VersionedModelsThenUnversionedIff` | `open-sse/config/glmProvider.ts:369-380` | joining a path without a version after it equals joining it at once if and only if the stripped base ends in the version already |
| `ContextEditing.SortEdits` | `open-sse/config/contextEditing.ts:73-77` | the stable sort puts the thinking edits first, each group in its own order |
| `ContextEditing.AddedEditSpec` | `open-sse/config/contextEditing.ts:66-70` | the added edit clears tool uses above 100000 input tokens and keeps the last three |
| `ContextEditing.HasToolUseIff` | `open-sse/config/contextEditing.ts:63-63` | a list clears tool uses already exactly when an object in it has that type |
| `ContextEditing.GroupsStep` | `open-sse/config/contextEditing.ts:73-77` | edits of the clear-thinking type form the front group, all others the second, each in the order of the list |
| `ContextEditing.NewEditsSpec` | `open-sse/config/contextEditing.ts:59-78` | the added edit comes last, after the thinking edits and the others in their orders, nothing lost; a list that already clears tool uses is kept |
| `ContextEditing.RequestBody.ApplyContextEditing` | `open-sse/config/contextEditing.ts:48-82` | the method updates the body in place to the specified one |
| `ContextEditing.ApplySpec` | `open-sse/config/contextEditing.ts:52-81` | the body reads back with the new list and every other field is untouched and in its place |
| `ContextEditing.ApplyLeaves` | `open-sse/config/contextEditing.ts:52-81` | the body stays as it is when this is not enabled, and when the management value is an array |
| `ContextEditing.ApplyTwice` | `open-sse/config/contextEditing.ts:41-82` | applying twice equals applying once on the whole body |
| `ContextEditing.EditIsSentIff` | `open-sse/config/contextEditing.ts:54-81` | the serialised body carries a clearing edit if and only if its management value is not an array |

## Left out

- ServerReadiness.WaitForServer: requires that the loop ends, because for some servers and an interval that is not positive it does not; `EndsForEveryServerIff` says when it always does.
- StatusRestatement.RestateTwice: states the usual case, a table in which no rule restates a status that another one produces; `RestateTwiceIff` is exact for every table.
- ProviderErrorRules.RestateThenClassifyAgrees: states the usual case, an error text that the restatement has searched; `RestateThenClassifyIff` is exact for every text.
- ProviderErrorRules.DeclaringRulesIsConservativeIff: for an arbitrary built-in catalogue its condition compares the two built-in answers; the lemmas for the shipped providers give conditions on the error itself.
- ResetCountdown.PrintedCountdown: does not model counts beyond the integers a JavaScript number holds exactly.
- Random and cryptographic functions: SHA-256 digests, drawn UUIDs and secrets are arbitrary values of the right shape.
- Torn or partial writes of `server.env`, and the inspection query on the SQLite file beyond its three outcomes.
- Directory resolution, the server's own environment handling, and the spawn options in `electron/main.js`.
- Process handle tracking, port changes and restarts in `electron/main.js`.
- Window titles, navigation and status events, and re-entrant status listeners of the login manager.
- Login time-outs as durations: which armed timer fires next is arbitrary.
- Original identity headers in off mode, compact endpoints and client detection of the Codex identity.
- Headers given as a `Headers` object to the error rules: header names are taken as lower-case already.
- The lock-scope and egress allowlists of the error rules.
- Deposit boosts, pool count, model list and headline text of the free-model totals.
- User agent, extra headers and the enabled-provider set of the CLI fingerprints.
- Paths given without a leading slash, region tables and quota requests of the GLM provider.
- Telemetry extraction of context editing.
- Image, audio and Bedrock registries: the same parser, first-wins and dedupe patterns as the registries modelled.
- Effort-suffix splitting and lazy caches of the provider model list.
- Constant tables: provider catalogues, instruction texts, header profiles.
