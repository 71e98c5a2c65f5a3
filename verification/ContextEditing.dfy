/** Asking the provider to clear stale tool uses: one edit is added to the request body. */
module ContextEditing {
  import opened Options
  import opened Records
  import opened Json

  const CLEAR_TOOL_USES := "clear_tool_uses_20250919"
  const CLEAR_THINKING := "clear_thinking_20251015"

  /** The names a request body is read under, and the edit that is added. */
  const MANAGEMENT := "context_management"
  const EDITS := "edits"

  function TypeOf(edit: Json): Option<Json> {
    if edit.Obj? then Get(edit.fields, "type") else None
  }

  predicate IsToolUse(edit: Json) { TypeOf(edit) == Some(Str(CLEAR_TOOL_USES)) }
  predicate IsThinking(edit: Json) { TypeOf(edit) == Some(Str(CLEAR_THINKING)) }

  function NewEdit(): Json {
    Obj([Field("type", Str(CLEAR_TOOL_USES)),
         Field("trigger", Obj([Field("type", Str("input_tokens")), Field("value", Num(100000.0))])),
         Field("keep", Obj([Field("type", Str("tool_uses")), Field("value", Num(3.0))]))])
  }

  function Rank(edit: Json): nat { if IsThinking(edit) then 0 else 1 }

  // ----- Stable sort by rank.

  /** Inserts behind every element that ranks no higher. */
  function Insert(sorted: seq<Json>, e: Json): seq<Json> {
    if sorted != [] && Rank(e) < Rank(sorted[|sorted| - 1])
    then Insert(sorted[..|sorted| - 1], e) + [sorted[|sorted| - 1]]
    else sorted + [e]
  }

  function SortByRank(s: seq<Json>): seq<Json> {
    if s == [] then [] else Insert(SortByRank(s[..|s| - 1]), s[|s| - 1])
  }

  function Thinking(s: seq<Json>): seq<Json> {
    if s == [] then []
    else Thinking(s[..|s| - 1]) + (if IsThinking(s[|s| - 1]) then [s[|s| - 1]] else [])
  }

  function Others(s: seq<Json>): seq<Json> {
    if s == [] then []
    else Others(s[..|s| - 1]) + (if IsThinking(s[|s| - 1]) then [] else [s[|s| - 1]])
  }

  lemma {:induction false} GroupsAreUniform(s: seq<Json>)
    ensures forall i :: 0 <= i < |Thinking(s)| ==> IsThinking(Thinking(s)[i])
    ensures forall i :: 0 <= i < |Others(s)| ==> !IsThinking(Others(s)[i])
  {
    if s != [] {
      GroupsAreUniform(s[..|s| - 1]);
    }
  }

  lemma {:induction false} InsertIntoGroups(a: seq<Json>, b: seq<Json>, e: Json)
    requires forall i :: 0 <= i < |a| ==> IsThinking(a[i])
    requires forall i :: 0 <= i < |b| ==> !IsThinking(b[i])
    ensures Insert(a + b, e) == if IsThinking(e) then a + [e] + b else a + b + [e]
  {
    if b == [] {
      assert a + b == a;
    } else {
      var s := a + b;
      assert s[..|s| - 1] == a + b[..|b| - 1] && s[|s| - 1] == b[|b| - 1];
      InsertIntoGroups(a, b[..|b| - 1], e);
      assert b[..|b| - 1] + [b[|b| - 1]] == b;
    }
  }

  /** The stable sort puts the thinking edits first and keeps each group in its own order. */
  lemma {:induction false} SortIsPartition(s: seq<Json>)
    ensures SortByRank(s) == Thinking(s) + Others(s)
  {
    if s != [] {
      var init, last := s[..|s| - 1], s[|s| - 1];
      SortIsPartition(init);
      GroupsAreUniform(init);
      InsertIntoGroups(Thinking(init), Others(init), last);
      if IsThinking(last) {
        assert Others(s) == Others(init) + [] == Others(init);
      } else {
        assert Thinking(s) == Thinking(init) + [] == Thinking(init);
        assert Thinking(init) + Others(init) + [last] == Thinking(init) + (Others(init) + [last]);
      }
    }
  }

  lemma SortAppended(edits: seq<Json>, e: Json)
    requires !IsThinking(e)
    ensures SortByRank(edits + [e]) == Thinking(edits) + Others(edits) + [e]
  {
    assert (edits + [e])[..|edits|] == edits;
    SortIsPartition(edits);
    GroupsAreUniform(edits);
    InsertIntoGroups(Thinking(edits), Others(edits), e);
  }

  // ----- The edit list.

  predicate HasToolUse(edits: seq<Json>) {
    exists i :: 0 <= i < |edits| && IsToolUse(edits[i])
  }

  function NewEdits(edits: seq<Json>): seq<Json> {
    if HasToolUse(edits) then edits else SortByRank(edits + [NewEdit()])
  }

  lemma NewEditIsToolUse()
    ensures IsToolUse(NewEdit()) && !IsThinking(NewEdit())
  {
    assert TypeOf(NewEdit()) == Some(Str(CLEAR_TOOL_USES));
    assert CLEAR_TOOL_USES[6] != CLEAR_THINKING[6] || |CLEAR_TOOL_USES| != |CLEAR_THINKING|;
  }

  lemma {:induction false} PartitionPermutes(s: seq<Json>)
    ensures multiset(Thinking(s) + Others(s)) == multiset(s)
  {
    if s != [] {
      PartitionPermutes(s[..|s| - 1]);
      assert s == s[..|s| - 1] + [s[|s| - 1]];
    }
  }

  lemma LastIsToolUse(s: seq<Json>, e: Json)
    requires IsToolUse(e)
    ensures HasToolUse(s + [e])
  {
    assert (s + [e])[|s|] == e;
  }

  /** The edit is an object of this type. */
  predicate OfType(edit: Json, name: string) {
    edit.Obj? && Get(edit.fields, "type") == Some(Str(name))
  }

  /** What stands under two names, one inside the other. */
  function Inside(edit: Json, outer: string, inner: string): Option<Json> {
    if !edit.Obj? then None
    else
      var found := Get(edit.fields, outer);
      if found.Some? && found.value.Obj? then Get(found.value.fields, inner) else None
  }

  /** The edit that is added: it clears tool uses above 100000 input tokens and keeps the last three. */
  lemma AddedEditSpec()
    ensures OfType(NewEdit(), "clear_tool_uses_20250919")
    ensures Keys(NewEdit().fields) == ["type", "trigger", "keep"]
    ensures Inside(NewEdit(), "trigger", "type") == Some(Str("input_tokens"))
    ensures Inside(NewEdit(), "trigger", "value") == Some(Num(100000.0))
    ensures Inside(NewEdit(), "keep", "type") == Some(Str("tool_uses"))
    ensures Inside(NewEdit(), "keep", "value") == Some(Num(3.0))
  {
    var e := NewEdit().fields;
    assert Get(e, "trigger") == Get(e[1..], "trigger") && Get(e, "keep") == Get(e[1..], "keep");
    assert Get(e[1..], "keep") == Get(e[1..][1..], "keep");
  }

  /** A list already clears tool uses exactly when one of its edits is of that type. */
  lemma HasToolUseIff(edits: seq<Json>)
    ensures HasToolUse(edits) <==> exists i :: 0 <= i < |edits| && OfType(edits[i], "clear_tool_uses_20250919")
  {
    assert forall i :: 0 <= i < |edits| ==> (IsToolUse(edits[i]) <==> OfType(edits[i], "clear_tool_uses_20250919"));
  }

  /** Each further edit goes behind its own group; with both groups empty for no edit, this settles them. */
  lemma GroupsStep(edits: seq<Json>, e: Json)
    ensures Thinking([]) == [] && Others([]) == []
    ensures var thinking := OfType(e, "clear_thinking_20251015");
            && Thinking(edits + [e]) == Thinking(edits) + (if thinking then [e] else [])
            && Others(edits + [e]) == Others(edits) + (if thinking then [] else [e])
  {
    var all := edits + [e];
    assert all[..|all| - 1] == edits && all[|all| - 1] == e;
  }

  /**
   * When the edit is added, the list is the thinking edits, then the others, each group in its
   * original order, with the new edit last; nothing else is added or lost. A list that already
   * clears tool uses is kept as it is.
   */
  lemma NewEditsSpec(edits: seq<Json>)
    ensures HasToolUse(NewEdits(edits))
    ensures HasToolUse(edits) ==> NewEdits(edits) == edits
    ensures !HasToolUse(edits) ==>
              && NewEdits(edits) == Thinking(edits) + Others(edits) + [NewEdit()]
              && multiset(NewEdits(edits)) == multiset(edits) + multiset{NewEdit()}
  {
    if !HasToolUse(edits) {
      NewEditIsToolUse();
      SortAppended(edits, NewEdit());
      PartitionPermutes(edits);
      LastIsToolUse(Thinking(edits) + Others(edits), NewEdit());
    }
  }

  // ----- The body.

  /** The fields of the management object; a missing or non-object value starts an empty one. */
  function Existing(body: seq<Field<Json>>): seq<Field<Json>> {
    var v := Get(body, MANAGEMENT);
    if v.Some? && v.value.Obj? then v.value.fields else []
  }

  function EditsOf(management: seq<Field<Json>>): seq<Json> {
    var v := Get(management, EDITS);
    if v.Some? && v.value.Arr? then v.value.items else []
  }

  /** A management value that is an array takes the edits as a property that JSON does not show. */
  predicate HidesEdits(body: seq<Field<Json>>) {
    var v := Get(body, MANAGEMENT);
    v.Some? && v.value.Arr?
  }

  function Apply(body: seq<Field<Json>>, enabled: bool): seq<Field<Json>> {
    if !enabled || HidesEdits(body) then body
    else
      var existing := Existing(body);
      Set(body, MANAGEMENT, Obj(Set(existing, EDITS, Arr(NewEdits(EditsOf(existing))))))
  }

  /** When it is not enabled, or the management value is an array, the body stays as it is. */
  lemma ApplyLeaves(body: seq<Field<Json>>, management: Option<Json>)
    requires management == Get(body, "context_management")
    ensures Apply(body, false) == body
    ensures management.Some? && management.value.Arr? ==> Apply(body, true) == body
    ensures management.Some? && management.value.Arr? <==> HidesEdits(body)
  {
  }

  /** After applying, the body reads back with the new list, and every other field is untouched. */
  lemma ApplySpec(body: seq<Field<Json>>)
    requires !HidesEdits(body)
    ensures Keys(body) <= Keys(Apply(body, true))
    ensures EditsOf(Existing(Apply(body, true))) == NewEdits(EditsOf(Existing(body)))
    ensures forall k :: k != MANAGEMENT ==> Get(Apply(body, true), k) == Get(body, k)
    ensures forall k :: k != EDITS ==> Get(Existing(Apply(body, true)), k) == Get(Existing(body), k)
  {
    var existing := Existing(body);
    var edits := Arr(NewEdits(EditsOf(existing)));
    var management := Set(existing, EDITS, edits);
    KeysAfterSet(body, MANAGEMENT, Obj(management));
    GetAfterSet(body, MANAGEMENT, Obj(management), MANAGEMENT);
    GetAfterSet(existing, EDITS, edits, EDITS);
    forall k | k != MANAGEMENT ensures Get(Apply(body, true), k) == Get(body, k) {
      GetAfterSet(body, MANAGEMENT, Obj(management), k);
    }
    forall k | k != EDITS ensures Get(management, k) == Get(existing, k) {
      GetAfterSet(existing, EDITS, edits, k);
    }
  }

  /** Applying twice equals applying once, on the whole body. */
  lemma ApplyTwice(body: seq<Field<Json>>, enabled: bool)
    ensures Apply(Apply(body, enabled), enabled) == Apply(body, enabled)
  {
    if enabled && !HidesEdits(body) {
      var existing := Existing(body);
      var edits := NewEdits(EditsOf(existing));
      var management := Set(existing, EDITS, Arr(edits));
      NewEditsSpec(EditsOf(existing));
      GetAfterSet(body, MANAGEMENT, Obj(management), MANAGEMENT);
      GetAfterSet(existing, EDITS, Arr(edits), EDITS);
      SetTwice(existing, EDITS, Arr(edits));
      SetTwice(body, MANAGEMENT, Obj(management));
    }
  }

  /** The body that is sent carries a clearing edit exactly when its management value is not an array. */
  lemma EditIsSentIff(body: seq<Field<Json>>)
    ensures HasToolUse(EditsOf(Existing(Apply(body, true)))) <==> !HidesEdits(body)
  {
    if !HidesEdits(body) {
      ApplySpec(body);
      NewEditsSpec(EditsOf(Existing(body)));
    } else {
      assert EditsOf([]) == [];
    }
  }

  /** A request body that is edited in place. */
  class RequestBody {
    var fields: seq<Field<Json>>

    method ApplyContextEditing(enabled: bool)
      modifies this
      ensures fields == Apply(old(fields), enabled)
    {
      if !enabled {
        return;
      }
      var existing := Existing(fields);
      var edits := EditsOf(existing);
      if !HasToolUse(edits) {
        edits := edits + [NewEdit()];
        edits := SortEdits(edits);
      }
      if !HidesEdits(fields) {
        fields := Set(fields, MANAGEMENT, Obj(Set(existing, EDITS, Arr(edits))));
      }
    }
  }

  /** The stable sort, by insertion. */
  method SortEdits(s: seq<Json>) returns (sorted: seq<Json>)
    ensures sorted == SortByRank(s)
    ensures sorted == Thinking(s) + Others(s)
  {
    sorted := [];
    var i := 0;
    while i < |s|
      invariant 0 <= i <= |s|
      invariant sorted == SortByRank(s[..i])
    {
      assert s[..i + 1][..i] == s[..i];
      sorted := Insert(sorted, s[i]);
      i := i + 1;
    }
    assert s[..i] == s;
    SortIsPartition(s);
  }
}
