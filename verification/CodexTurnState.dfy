/**
 * The provenance table of `x-codex-turn-state` blobs. Entries expire after a fixed time, are
 * dropped when they are found expired, and are swept every 256 writes. The table is compared
 * with a log of notes that forgets nothing.
 */
module CodexTurnState {
  import opened Options
  import opened Text

  const TTL_MS := 2 * 60 * 60 * 1000
  const SWEEP_EVERY_WRITES := 256

  datatype Origin = Origin(accountKey: string, expiresAt: int)
  datatype Table = Table(origins: map<string, Origin>, writes: nat)

  /** A committed response: `account` minted the blob that `session` now holds. */
  datatype Note = Note(session: string, account: string, at: int)

  /** A session id or account key as the table uses it; blank and non-string keys become "". */
  function Key(raw: Option<string>): string {
    match raw
    case None => ""
    case Some(s) => Trim(s)
  }

  function Sweep(origins: map<string, Origin>, now: int): map<string, Origin> {
    map k | k in origins && origins[k].expiresAt > now :: origins[k]
  }

  function NoteStep(t: Table, session: Option<string>, account: Option<string>, now: int): Table {
    if Key(session) == "" || Key(account) == "" then t
    else
      var origins := t.origins[Key(session) := Origin(Key(account), now + TTL_MS)];
      var writes := t.writes + 1;
      Table(if writes % SWEEP_EVERY_WRITES == 0 then Sweep(origins, now) else origins, writes)
  }

  function AskStep(t: Table, session: Option<string>, account: Option<string>, now: int): (Table, bool) {
    var s, a := Key(session), Key(account);
    if s == "" || a == "" || s !in t.origins then (t, false)
    else if t.origins[s].expiresAt <= now then (t.(origins := t.origins - {s}), false)
    else (t, t.origins[s].accountKey != a)
  }

  // ----- The reference: a log that keeps every note.

  function LastNote(log: seq<Note>, session: string): Option<Note> {
    if log == [] then None
    else if log[|log| - 1].session == session then Some(log[|log| - 1])
    else LastNote(log[..|log| - 1], session)
  }

  function LogStep(log: seq<Note>, session: Option<string>, account: Option<string>, now: int): seq<Note> {
    if Key(session) == "" || Key(account) == "" then log
    else log + [Note(Key(session), Key(account), now)]
  }

  /** The last note of the session is younger than the TTL and names another account. */
  predicate CrossByLog(log: seq<Note>, session: Option<string>, account: Option<string>, now: int) {
    && Key(session) != ""
    && Key(account) != ""
    && var last := LastNote(log, Key(session));
       last.Some? && now < last.value.at + TTL_MS && last.value.account != Key(account)
  }

  /** The table holds last notes only, and lacks only notes that had expired by `horizon`. */
  ghost predicate Represents(t: Table, log: seq<Note>, horizon: int) {
    && (forall s :: s in t.origins ==>
          && LastNote(log, s).Some?
          && t.origins[s] == Origin(LastNote(log, s).value.account, LastNote(log, s).value.at + TTL_MS))
    && (forall s :: s !in t.origins && LastNote(log, s).Some? ==>
          LastNote(log, s).value.at + TTL_MS <= horizon)
  }

  function Max(a: int, b: int): int {
    if a < b then b else a
  }

  lemma LastNoteAppend(log: seq<Note>, n: Note, s: string)
    ensures LastNote(log + [n], s) == if n.session == s then Some(n) else LastNote(log, s)
  {
    assert (log + [n])[..|log|] == log;
  }

  lemma SetKeepsRepresents(origins: map<string, Origin>, log: seq<Note>, horizon: int, n: Note, writes: nat)
    requires Represents(Table(origins, writes), log, horizon)
    ensures Represents(
              Table(origins[n.session := Origin(n.account, n.at + TTL_MS)], writes), log + [n], Max(horizon, n.at))
  {
    forall s { LastNoteAppend(log, n, s); }
  }

  lemma SweepKeepsRepresents(origins: map<string, Origin>, log: seq<Note>, horizon: int, now: int, writes: nat)
    requires Represents(Table(origins, writes), log, horizon) && now <= horizon
    ensures Represents(Table(Sweep(origins, now), writes), log, horizon)
  {
  }

  lemma NoteKeepsRepresents(t: Table, log: seq<Note>, horizon: int,
                            session: Option<string>, account: Option<string>, now: int)
    requires Represents(t, log, horizon)
    ensures Represents(NoteStep(t, session, account, now), LogStep(log, session, account, now), Max(horizon, now))
  {
    if Key(session) != "" && Key(account) != "" {
      var n, writes := Note(Key(session), Key(account), now), t.writes + 1;
      SetKeepsRepresents(t.origins, log, horizon, n, writes);
      var origins := t.origins[Key(session) := Origin(Key(account), now + TTL_MS)];
      SweepKeepsRepresents(origins, log + [n], Max(horizon, now), now, writes);
    }
  }

  lemma AskKeepsRepresents(t: Table, log: seq<Note>, horizon: int,
                           session: Option<string>, account: Option<string>, now: int)
    requires Represents(t, log, horizon)
    ensures Represents(AskStep(t, session, account, now).0, log, Max(horizon, now))
    ensures AskStep(t, session, account, now).1 ==> CrossByLog(log, session, account, now)
    ensures horizon <= now ==>
              AskStep(t, session, account, now).1 == CrossByLog(log, session, account, now)
  {
  }

  // ----- Whole runs.

  datatype Op =
    | Noted(session: Option<string>, account: Option<string>, now: int)
    | Asked(session: Option<string>, account: Option<string>, now: int)

  function LogOp(log: seq<Note>, op: Op): seq<Note> {
    if op.Noted? then LogStep(log, op.session, op.account, op.now) else log
  }

  function TableOp(t: Table, op: Op): Table {
    if op.Noted? then NoteStep(t, op.session, op.account, op.now)
    else AskStep(t, op.session, op.account, op.now).0
  }

  function TableAfter(ops: seq<Op>): Table {
    if ops == [] then Table(map[], 0) else TableOp(TableAfter(ops[..|ops| - 1]), ops[|ops| - 1])
  }

  function LogAfter(ops: seq<Op>): seq<Note> {
    if ops == [] then [] else LogOp(LogAfter(ops[..|ops| - 1]), ops[|ops| - 1])
  }

  /** What the guard answers to `ask` after the operations `ops`. */
  function Answer(ops: seq<Op>, ask: Op): bool {
    AskStep(TableAfter(ops), ask.session, ask.account, ask.now).1
  }

  lemma {:induction false} RunRepresents(ops: seq<Op>, horizon: int)
    requires forall i :: 0 <= i < |ops| ==> ops[i].now <= horizon
    ensures Represents(TableAfter(ops), LogAfter(ops), horizon)
  {
    if ops != [] {
      var init, op := ops[..|ops| - 1], ops[|ops| - 1];
      RunRepresents(init, horizon);
      match op
      case Noted(s, a, now) => NoteKeepsRepresents(TableAfter(init), LogAfter(init), horizon, s, a, now);
      case Asked(s, a, now) => AskKeepsRepresents(TableAfter(init), LogAfter(init), horizon, s, a, now);
    }
  }

  function LatestTime(ops: seq<Op>, floor: int): (t: int)
    ensures floor <= t
    ensures forall i :: 0 <= i < |ops| ==> ops[i].now <= t
  {
    if ops == [] then floor else Max(ops[|ops| - 1].now, LatestTime(ops[..|ops| - 1], floor))
  }

  // ----- What the log knows, operation by operation.

  /** A session id or account key that is not blank. */
  predicate IsGiven(raw: Option<string>) {
    raw.Some? && Trim(raw.value) != ""
  }

  /** A response that is recorded; blank keys are not. */
  predicate Records(op: Op) {
    op.Noted? && IsGiven(op.session) && IsGiven(op.account)
  }

  predicate RecordsFor(op: Op, session: string) {
    Records(op) && Trim(op.session.value) == session
  }

  predicate NoneRecordsAfter(ops: seq<Op>, i: nat, session: string) {
    forall j :: i < j < |ops| ==> !RecordsFor(ops[j], session)
  }

  /** The last response recorded for the session. */
  predicate IsLastRecord(ops: seq<Op>, session: string, i: nat) {
    i < |ops| && RecordsFor(ops[i], session) && NoneRecordsAfter(ops, i, session)
  }

  /** The last response recorded for the session went to another account, less than the TTL ago. */
  predicate Foreign(ops: seq<Op>, ask: Op) {
    && IsGiven(ask.session) && IsGiven(ask.account)
    && exists i: nat :: i < |ops| && IsLastRecord(ops, Trim(ask.session.value), i)
         && ask.now < ops[i].now + TTL_MS && Trim(ops[i].account.value) != Trim(ask.account.value)
  }

  /** The log's last note of a session is that of the last response recorded for it. */
  lemma {:induction false} LastNoteIff(ops: seq<Op>, session: string)
    ensures LastNote(LogAfter(ops), session).None? ==> forall i: nat :: !IsLastRecord(ops, session, i)
    ensures var last := LastNote(LogAfter(ops), session);
            last.Some? ==>
              exists i: nat :: IsLastRecord(ops, session, i)
                && last.value == Note(session, Trim(ops[i].account.value), ops[i].now)
  {
    if ops != [] {
      var n := |ops| - 1;
      var init, op := ops[..n], ops[n];
      LastNoteIff(init, session);
      LastNoteAppend(LogAfter(init), Note(Key(op.session), Key(op.account), op.now), session);
      if RecordsFor(op, session) {
        assert IsLastRecord(ops, session, n);
      } else {
        forall i: nat ensures IsLastRecord(ops, session, i) <==> IsLastRecord(init, session, i) {
          LastRecordOfInit(ops, session, i);
        }
      }
    }
  }

  lemma LastRecordOfInit(ops: seq<Op>, session: string, i: nat)
    requires ops != [] && !RecordsFor(ops[|ops| - 1], session)
    ensures IsLastRecord(ops, session, i) <==> IsLastRecord(ops[..|ops| - 1], session, i)
  {
    var init := ops[..|ops| - 1];
    assert forall j :: 0 <= j < |init| ==> init[j] == ops[j];
  }

  lemma OneLastRecord(ops: seq<Op>, session: string, i: nat, j: nat)
    requires IsLastRecord(ops, session, i) && IsLastRecord(ops, session, j)
    ensures i == j
  {
  }

  /** The log flags an echo exactly when the operations make it foreign. */
  lemma ForeignIff(ops: seq<Op>, ask: Op)
    ensures CrossByLog(LogAfter(ops), ask.session, ask.account, ask.now) <==> Foreign(ops, ask)
  {
    if IsGiven(ask.session) {
      var session := Trim(ask.session.value);
      LastNoteIff(ops, session);
      forall i: nat, j: nat | IsLastRecord(ops, session, i) && IsLastRecord(ops, session, j) ensures i == j {
        OneLastRecord(ops, session, i, j);
      }
    }
  }

  /** Over every run, and for any clock, the guard flags an echo only when it is foreign. */
  lemma {:induction false} FlaggedOnlyWhenForeign(ops: seq<Op>, ask: Op)
    ensures Answer(ops, ask) ==> Foreign(ops, ask)
  {
    var horizon := LatestTime(ops, ask.now);
    RunRepresents(ops, horizon);
    AskKeepsRepresents(TableAfter(ops), LogAfter(ops), horizon, ask.session, ask.account, ask.now);
    ForeignIff(ops, ask);
  }

  /** Over every run whose clock has not passed the time of the question, the swept table flags
      exactly the foreign echoes. A non-decreasing clock is the usual case. */
  lemma {:induction false} TableAnswersLikeLog(ops: seq<Op>, ask: Op)
    requires forall i :: 0 <= i < |ops| ==> ops[i].now <= ask.now
    ensures Answer(ops, ask) <==> Foreign(ops, ask)
  {
    RunRepresents(ops, ask.now);
    AskKeepsRepresents(TableAfter(ops), LogAfter(ops), ask.now, ask.session, ask.account, ask.now);
    ForeignIff(ops, ask);
  }

  // ----- Any clock: exactly when the table has lost a note that the log still has.

  /** The operation looks at the session's entry: a question about it, or a write that sweeps.
      `log` is the log after the operation. */
  predicate Visits(op: Op, log: seq<Note>, session: string) {
    if op.Asked? then IsGiven(op.session) && IsGiven(op.account) && Trim(op.session.value) == session
    else Records(op) && |log| % SWEEP_EVERY_WRITES == 0
  }

  /** The operation visits the entry and reads a clock at which the session's last note had expired. */
  predicate Drops(op: Op, log: seq<Note>, session: string) {
    && Visits(op, log, session)
    && var last := LastNote(log, session);
       last.Some? && last.value.at + TTL_MS <= op.now
  }

  predicate DropsAt(ops: seq<Op>, i: nat, session: string)
    requires i < |ops|
  {
    Drops(ops[i], LogAfter(ops[..i + 1]), session)
  }

  /** Some operation dropped the session's entry, and none has recorded the session since. */
  predicate Dropped(ops: seq<Op>, session: string) {
    exists i: nat :: i < |ops| && DropsAt(ops, i, session) && NoneRecordsAfter(ops, i, session)
  }

  lemma {:induction false} WritesCountTheLog(ops: seq<Op>)
    ensures TableAfter(ops).writes == |LogAfter(ops)|
  {
    if ops != [] {
      WritesCountTheLog(ops[..|ops| - 1]);
    }
  }

  lemma DropsAtInit(ops: seq<Op>, n: nat, i: nat, session: string)
    requires i < n <= |ops|
    ensures DropsAt(ops[..n], i, session) <==> DropsAt(ops, i, session)
  {
    assert ops[..n][..i + 1] == ops[..i + 1];
  }

  lemma NoneRecordsAfterStep(init: seq<Op>, op: Op, i: nat, session: string)
    requires i < |init|
    ensures NoneRecordsAfter(init + [op], i, session) <==>
            NoneRecordsAfter(init, i, session) && !RecordsFor(op, session)
  {
    var ops := init + [op];
    assert ops[|init|] == op;
    assert forall j :: 0 <= j < |init| ==> ops[j] == init[j];
  }

  lemma DroppedStep(init: seq<Op>, op: Op, log: seq<Note>, session: string)
    requires log == LogAfter(init + [op])
    ensures Dropped(init + [op], session) <==>
            Drops(op, log, session) || (Dropped(init, session) && !RecordsFor(op, session))
  {
    var ops, n := init + [op], |init|;
    assert ops[..n] == init && ops[..n + 1] == ops;
    assert DropsAt(ops, n, session) <==> Drops(op, log, session);
    assert NoneRecordsAfter(ops, n, session);
    forall i: nat | i < n
      ensures DropsAt(ops, i, session) <==> DropsAt(init, i, session)
      ensures NoneRecordsAfter(ops, i, session) <==> NoneRecordsAfter(init, i, session) && !RecordsFor(op, session)
    {
      DropsAtInit(ops, n, i, session);
      NoneRecordsAfterStep(init, op, i, session);
    }
    if Dropped(ops, session) && !DropsAt(ops, n, session) {
      var i: nat :| i < |ops| && DropsAt(ops, i, session) && NoneRecordsAfter(ops, i, session);
      assert DropsAt(init, i, session);
    }
  }

  /** One operation on a table that represents its log: what becomes of a session's entry. */
  lemma HeldStep(t: Table, log: seq<Note>, horizon: int, op: Op, session: string)
    requires Represents(t, log, horizon) && t.writes == |log|
    ensures session in TableOp(t, op).origins <==>
              && (session in t.origins || RecordsFor(op, session))
              && !Drops(op, LogOp(log, op), session)
  {
    LastNoteAppend(log, Note(Key(op.session), Key(op.account), op.now), session);
  }

  /** The table has an entry exactly for the sessions with a note that has not been dropped. */
  lemma {:induction false} HeldIff(ops: seq<Op>, session: string)
    ensures session in TableAfter(ops).origins <==> LastNote(LogAfter(ops), session).Some? && !Dropped(ops, session)
  {
    if ops != [] {
      var init, op := ops[..|ops| - 1], ops[|ops| - 1];
      var t, log := TableAfter(init), LogAfter(init);
      HeldIff(init, session);
      RunRepresents(init, LatestTime(init, 0));
      WritesCountTheLog(init);
      HeldStep(t, log, LatestTime(init, 0), op, session);
      assert ops == init + [op];
      DroppedStep(init, op, LogAfter(ops), session);
      LastNoteAppend(log, Note(Key(op.session), Key(op.account), op.now), session);
    }
  }

  /**
   * Over every run and for any clock: the guard flags an echo exactly when it is foreign and the
   * session's entry has not been dropped by an earlier, later-dated visit.
   */
  lemma {:induction false} AnswerIff(ops: seq<Op>, ask: Op)
    ensures Answer(ops, ask) <==> Foreign(ops, ask) && !Dropped(ops, Trim(ask.session.value))
  {
    HeldIff(ops, Key(ask.session));
    RunRepresents(ops, LatestTime(ops, ask.now));
    ForeignIff(ops, ask);
  }

  /** With a clock that steps back, an entry already dropped is missed: a run of two operations shows it. */
  lemma ClockStepBackMissesForeign()
    ensures exists ops, ask :: !Answer(ops, ask) && Foreign(ops, ask)
  {
    var note := Noted(Some("s"), Some("a"), 0);
    var late, early := Asked(Some("s"), Some("b"), TTL_MS), Asked(Some("s"), Some("b"), 0);
    var ops := [note, late];
    assert ops[..1] == [note] && [note][..0] == [];
    assert TableAfter([note]) == NoteStep(Table(map[], 0), Some("s"), Some("a"), 0);
    assert "s" !in TableAfter(ops).origins;
    assert LogAfter([note]) == [Note("s", "a", 0)];
    assert LogAfter(ops) == [Note("s", "a", 0)];
    ForeignIff(ops, early);
    assert !Answer(ops, early) && Foreign(ops, early);
  }

  // ----- The module state and its operations.

  class TurnStateTable {
    var origins: map<string, Origin>
    var writes: nat
    ghost var log: seq<Note>
    ghost var horizon: int

    ghost predicate Valid()
      reads this
    {
      Represents(Table(origins, writes), log, horizon)
    }

    constructor ()
      ensures Valid() && log == [] && origins == map[] && writes == 0
    {
      origins, writes, log, horizon := map[], 0, [], 0;
    }

    method SweepExpired(now: int)
      modifies this`origins
      ensures origins == Sweep(old(origins), now)
    {
      var todo := origins.Keys;
      while todo != {}
        invariant todo <= origins.Keys <= old(origins).Keys
        invariant forall k :: k in origins ==> origins[k] == old(origins)[k]
        invariant forall k :: k in old(origins) && k !in origins ==> old(origins)[k].expiresAt <= now
        invariant forall k :: k in origins && k !in todo ==> origins[k].expiresAt > now
        decreases |todo|
      {
        var key :| key in todo;
        todo := todo - {key};
        if origins[key].expiresAt <= now {
          origins := origins - {key};
        }
      }
    }

    method NoteProvenance(session: Option<string>, account: Option<string>, now: int)
      requires Valid()
      modifies this
      ensures Valid()
      ensures log == LogStep(old(log), session, account, now)
      ensures Table(origins, writes) == NoteStep(old(Table(origins, writes)), session, account, now)
      ensures horizon == Max(old(horizon), now)
    {
      ghost var before := Table(origins, writes);
      NoteKeepsRepresents(before, log, horizon, session, account, now);
      log, horizon := LogStep(log, session, account, now), Max(horizon, now);
      var s, a := Key(session), Key(account);
      if s == "" || a == "" {
        return;
      }
      origins := origins[s := Origin(a, now + TTL_MS)];
      writes := writes + 1;
      if writes % SWEEP_EVERY_WRITES == 0 {
        SweepExpired(now);
      }
      assert Table(origins, writes) == NoteStep(before, session, account, now);
    }

    /** The guard. A flagged echo is foreign whatever the clock did; with a clock that has not
        gone back, every foreign echo is flagged. */
    method IsCrossAccount(session: Option<string>, account: Option<string>, now: int) returns (cross: bool)
      requires Valid()
      modifies this
      ensures Valid() && log == old(log) && horizon == Max(old(horizon), now)
      ensures (Table(origins, writes), cross) == AskStep(old(Table(origins, writes)), session, account, now)
      ensures cross ==> CrossByLog(log, session, account, now)
      ensures old(horizon) <= now ==> cross == CrossByLog(log, session, account, now)
    {
      AskKeepsRepresents(Table(origins, writes), log, horizon, session, account, now);
      horizon := Max(horizon, now);
      var s, a := Key(session), Key(account);
      if s == "" || a == "" || s !in origins {
        return false;
      }
      if origins[s].expiresAt <= now {
        origins := origins - {s};
        return false;
      }
      return origins[s].accountKey != a;
    }
  }
}

/** The echo resolver in front of the table. */
module CodexTurnStateEcho {
  import opened Options
  import opened Text
  import opened CodexTurnState

  /** A `Headers` object, keyed by lower-case name, or a plain record with `None` for non-strings. */
  datatype HeaderBag =
    | Absent
    | Fetch(values: map<string, string>)
    | Plain(entries: seq<(string, Option<string>)>)

  const TURN_STATE_HEADER := "x-codex-turn-state"

  /** The trimmed value of the first non-blank header of that name, or "". */
  function ReadHeader(bag: HeaderBag, name: string): string
    decreases if bag.Plain? then |bag.entries| else 0
  {
    match bag
    case Absent => ""
    case Fetch(values) => if name in values then Trim(values[name]) else ""
    case Plain(entries) =>
      if entries == [] then ""
      else if Lower(entries[0].0) == name && entries[0].1.Some? && Trim(entries[0].1.value) != "" then
        Trim(entries[0].1.value)
      else ReadHeader(Plain(entries[1..]), name)
  }

  predicate SafeSessionChar(c: char) {
    'a' <= c <= 'z' || 'A' <= c <= 'Z' || '0' <= c <= '9' || c in "._:-"
  }

  function NormalizeSessionId(value: string): Option<string> {
    var id := Trim(value);
    if 1 <= |id| <= 200 && (forall c :: c in id ==> SafeSessionChar(c)) then Some(id) else None
  }

  function ClientSessionId(bag: HeaderBag): Option<string> {
    var first := NormalizeSessionId(ReadHeader(bag, "session-id"));
    if first.Some? then first else NormalizeSessionId(ReadHeader(bag, "session_id"))
  }

  // ----- What the client sent, entry by entry.

  /** An entry of this name, in any letter case, whose value is a string that is not blank. */
  predicate IsSent(entry: (string, Option<string>), name: string) {
    Lower(entry.0) == name && entry.1.Some? && Trim(entry.1.value) != ""
  }

  /** The first such entry. */
  predicate IsFirstSent(entries: seq<(string, Option<string>)>, name: string, i: nat) {
    && i < |entries| && IsSent(entries[i], name)
    && forall j :: 0 <= j < i ==> !IsSent(entries[j], name)
  }

  predicate NoneSent(entries: seq<(string, Option<string>)>, name: string) {
    forall i :: 0 <= i < |entries| ==> !IsSent(entries[i], name)
  }

  /** `value` is the trimmed one of the first such entry, or "" when there is none. */
  ghost predicate Reads(bag: HeaderBag, name: string, value: string) {
    match bag
    case Absent => value == ""
    case Fetch(values) => value == if name in values then Trim(values[name]) else ""
    case Plain(entries) =>
      || (value == "" && NoneSent(entries, name))
      || exists i: nat :: IsFirstSent(entries, name, i) && value == Trim(entries[i].1.value)
  }

  predicate IsSessionId(id: string) {
    1 <= |id| <= 200 && forall c :: c in id ==> 'a' <= c <= 'z' || 'A' <= c <= 'Z' || '0' <= c <= '9' || c in "._:-"
  }

  function FirstSessionId(first: string, second: string): Option<string> {
    if IsSessionId(first) then Some(first) else if IsSessionId(second) then Some(second) else None
  }

  /** The session named by the first of two headers, or by the second when that names none. */
  ghost predicate NamesSession(bag: HeaderBag, session: Option<string>) {
    exists first, second ::
      && Reads(bag, "session-id", first) && Reads(bag, "session_id", second)
      && session == FirstSessionId(first, second)
  }

  /** A header reads as the first string of its name that is not blank, trimmed. */
  lemma {:induction false} ReadHeaderIff(bag: HeaderBag, name: string, value: string)
    ensures ReadHeader(bag, name) == value <==> Reads(bag, name, value)
    decreases if bag.Plain? then |bag.entries| else 0
  {
    if bag.Plain? && bag.entries != [] {
      var e := bag.entries;
      if IsSent(e[0], name) {
        assert IsFirstSent(e, name, 0);
        assert forall i: nat :: IsFirstSent(e, name, i) ==> i == 0;
      } else {
        ReadHeaderIff(Plain(e[1..]), name, value);
        ReadsOfTail(e, name, value);
      }
    }
  }

  lemma FirstOfTail(e: seq<(string, Option<string>)>, name: string, i: nat)
    requires e != [] && !IsSent(e[0], name)
    ensures IsFirstSent(e, name, i + 1) <==> IsFirstSent(e[1..], name, i)
  {
    if IsFirstSent(e, name, i + 1) {
      forall j | 0 <= j < i ensures !IsSent(e[1..][j], name) { assert e[1..][j] == e[j + 1]; }
    }
    if IsFirstSent(e[1..], name, i) {
      forall j | 0 <= j < i + 1 ensures !IsSent(e[j], name) { assert j > 0 ==> e[j] == e[1..][j - 1]; }
    }
  }

  lemma ReadsOfTail(e: seq<(string, Option<string>)>, name: string, value: string)
    requires e != [] && !IsSent(e[0], name)
    ensures Reads(Plain(e), name, value) <==> Reads(Plain(e[1..]), name, value)
  {
    assert NoneSent(e, name) <==> NoneSent(e[1..], name) by {
      assert forall i :: 0 < i < |e| ==> e[i] == e[1..][i - 1];
      assert forall i :: 0 <= i < |e[1..]| ==> e[1..][i] == e[i + 1];
    }
    if i: nat :| IsFirstSent(e, name, i) && value == Trim(e[i].1.value) {
      assert i > 0;
      FirstOfTail(e, name, i - 1);
    }
    if i: nat :| IsFirstSent(e[1..], name, i) && value == Trim(e[1..][i].1.value) {
      FirstOfTail(e, name, i);
    }
  }

  lemma {:induction false} ReadHeaderIsTrimmed(bag: HeaderBag, name: string)
    ensures Trimmed(ReadHeader(bag, name))
    decreases if bag.Plain? then |bag.entries| else 0
  {
    match bag
    case Absent =>
    case Fetch(values) => if name in values { TrimSpec(values[name]); }
    case Plain(e) =>
      if e != [] {
        if e[0].1.Some? { TrimSpec(e[0].1.value); }
        ReadHeaderIsTrimmed(Plain(e[1..]), name);
      }
  }

  lemma NormalizeIff(bag: HeaderBag, name: string)
    ensures var v := ReadHeader(bag, name);
            Reads(bag, name, v) && NormalizeSessionId(v) == if IsSessionId(v) then Some(v) else None
  {
    ReadHeaderIff(bag, name, ReadHeader(bag, name));
    ReadHeaderIsTrimmed(bag, name);
    TrimFixesTrimmed(ReadHeader(bag, name));
  }

  lemma ClientSessionIdIs(bag: HeaderBag)
    ensures ClientSessionId(bag) == FirstSessionId(ReadHeader(bag, "session-id"), ReadHeader(bag, "session_id"))
  {
    NormalizeIff(bag, "session-id");
    NormalizeIff(bag, "session_id");
  }

  /** The session of a client is the one its headers name. */
  lemma ClientSessionIdIff(bag: HeaderBag, session: Option<string>)
    ensures ClientSessionId(bag) == session <==> NamesSession(bag, session)
  {
    ClientSessionIdIs(bag);
    var a, b := ReadHeader(bag, "session-id"), ReadHeader(bag, "session_id");
    forall first, second | Reads(bag, "session-id", first) && Reads(bag, "session_id", second)
      ensures first == a && second == b
    {
      ReadHeaderIff(bag, "session-id", first);
      ReadHeaderIff(bag, "session_id", second);
    }
    ReadHeaderIff(bag, "session-id", a);
    ReadHeaderIff(bag, "session_id", b);
  }

  /** The log knows the blob of the session that the headers name to be foreign. */
  ghost predicate KnownForeign(log: seq<Note>, bag: HeaderBag, account: Option<string>, now: int) {
    exists session :: NamesSession(bag, session) && CrossByLog(log, session, account, now)
  }

  lemma KnownForeignIff(log: seq<Note>, bag: HeaderBag, account: Option<string>, now: int)
    ensures KnownForeign(log, bag, account, now) <==> CrossByLog(log, ClientSessionId(bag), account, now)
  {
    ClientSessionIdIff(bag, ClientSessionId(bag));
    if KnownForeign(log, bag, account, now) {
      var session :| NamesSession(bag, session) && CrossByLog(log, session, account, now);
      ClientSessionIdIff(bag, session);
    }
  }

  /**
   * What goes upstream as turn state. With a clock that has not gone back: nothing exactly when
   * the client sent no blob, or its blob is known to be foreign, and otherwise the client's own.
   * Whatever the clock did, a blob is withheld only when it is known to be foreign.
   */
  method ResolveEcho(table: TurnStateTable, bag: HeaderBag, account: Option<string>, now: int)
    returns (echo: Option<string>)
    requires table.Valid()
    modifies table
    ensures table.Valid() && table.log == old(table.log) && table.horizon >= old(table.horizon)
    ensures echo.Some? ==> echo.value != "" && Reads(bag, TURN_STATE_HEADER, echo.value)
    ensures echo.None? ==> Reads(bag, TURN_STATE_HEADER, "") || KnownForeign(table.log, bag, account, now)
    ensures old(table.horizon) <= now ==>
              (echo.None? <==> Reads(bag, TURN_STATE_HEADER, "") || KnownForeign(table.log, bag, account, now))
  {
    var value := ReadHeader(bag, TURN_STATE_HEADER);
    ReadHeaderIff(bag, TURN_STATE_HEADER, value);
    ReadHeaderIff(bag, TURN_STATE_HEADER, "");
    KnownForeignIff(table.log, bag, account, now);
    if value == "" {
      return None;
    }
    var session := ClientSessionId(bag);
    if session.Some? {
      var cross := table.IsCrossAccount(session, account, now);
      if cross {
        return None;
      }
    }
    return Some(value);
  }
}
