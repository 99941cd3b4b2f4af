/**
 The room log with deletions. Deleting an agent cascades to its conversations, to the rooms linked to
 them and to the messages of either; a message whose parent goes loses the reference. The deletion
 waits for transactions whose uncommitted rows refer to what it deletes.
 */
module RoomDeletion {
  import opened Wrappers
  import opened Rows
  import opened MessageTable
  import opened RoomLog
  import opened RoomLogTheorems

  datatype Event = Plain(step: Step) | Delete(conversations: set<Uuid>, rooms: set<Uuid>)

  /** The row belongs to one of these conversations or rooms. */
  predicate Doomed(row: DbMessage, conversations: set<Uuid>, rooms: set<Uuid>) {
    row.conversationId in conversations || (row.roomId.Some? && row.roomId.value in rooms)
  }

  function DoomedIds(ms: Table, conversations: set<Uuid>, rooms: set<Uuid>): set<Uuid> {
    set i | 0 <= i < |ms| && Doomed(ms[i], conversations, rooms) :: ms[i].id
  }

  /** `ON DELETE SET NULL` of the parent reference. */
  function Unparented(row: DbMessage, gone: set<Uuid>): DbMessage {
    if row.parentMessageId.Some? && row.parentMessageId.value in gone then row.(parentMessageId := None) else row
  }

  function Remaining(ms: Table, conversations: set<Uuid>, rooms: set<Uuid>, gone: set<Uuid>): Table {
    if ms == [] then []
    else
      var last := ms[|ms| - 1];
      Remaining(ms[..|ms| - 1], conversations, rooms, gone)
      + if Doomed(last, conversations, rooms) then [] else [Unparented(last, gone)]
  }

  predicate EventEnabled(s: State, event: Event) {
    match event
    case Plain(step) => Enabled(s, step)
    case Delete(conversations, rooms) =>
      forall c :: c in s.calls && Holds(s.calls[c]) ==>
        var row := RowOf(s.calls[c]);
        && !Doomed(row, conversations, rooms)
        && (row.parentMessageId.Some? ==> row.parentMessageId.value !in DoomedIds(s.messages, conversations, rooms))
  }

  function Happen(s: State, event: Event): State
    requires EventEnabled(s, event)
  {
    match event
    case Plain(step) => Apply(s, step)
    case Delete(conversations, rooms) =>
      s.(messages := Remaining(s.messages, conversations, rooms, DoomedIds(s.messages, conversations, rooms)),
         rooms := s.rooms - rooms,
         conversations := s.conversations - conversations)
  }

  ghost predicate Happens(states: seq<State>, events: seq<Event>, i: nat)
    requires i < |events| && i + 1 < |states|
  {
    EventEnabled(states[i], events[i]) && states[i + 1] == Happen(states[i], events[i])
  }

  /** A run with deletions anywhere. */
  ghost predicate IsHistory(states: seq<State>, events: seq<Event>) {
    && |states| == |events| + 1 && Init(states[0])
    && forall i :: 0 <= i < |events| ==> Happens(states, events, i)
  }

  /** The row, up to its parent reference. */
  predicate SameRow(row: DbMessage, row': DbMessage) {
    row' == row.(parentMessageId := row'.parentMessageId)
  }

  /** The event deletes the row's conversation or room. */
  predicate Dooms(event: Event, row: DbMessage) {
    && event.Delete?
    && (row.conversationId in event.conversations || (row.roomId.Some? && row.roomId.value in event.rooms))
  }

  ghost predicate Stored(ms: Table, row: DbMessage) {
    exists i :: 0 <= i < |ms| && SameRow(row, ms[i])
  }

  /** A deletion keeps exactly the rows of other conversations and rooms. */
  lemma {:induction false} RemainingIff(
      ms: Table, conversations: set<Uuid>, rooms: set<Uuid>, gone: set<Uuid>, row: DbMessage)
    ensures Stored(Remaining(ms, conversations, rooms, gone), row) <==>
            Stored(ms, row) && !Doomed(row, conversations, rooms)
  {
    if ms != [] {
      var init, last := ms[..|ms| - 1], ms[|ms| - 1];
      var rest := Remaining(init, conversations, rooms, gone);
      RemainingIff(init, conversations, rooms, gone, row);
      assert ms == init + [last];
      StoredOfAppend(init, last, row);
      if Doomed(last, conversations, rooms) {
        assert Remaining(ms, conversations, rooms, gone) == rest;
        assert SameRow(row, last) ==> Doomed(row, conversations, rooms);
      } else {
        StoredOfAppend(rest, Unparented(last, gone), row);
        assert SameRow(row, Unparented(last, gone)) <==> SameRow(row, last);
      }
    }
  }

  lemma StoredOfAppend(ms: Table, last: DbMessage, row: DbMessage)
    ensures Stored(ms + [last], row) <==> Stored(ms, row) || SameRow(row, last)
  {
    assert (ms + [last])[|ms|] == last;
    if Stored(ms, row) {
      var i :| 0 <= i < |ms| && SameRow(row, ms[i]);
      assert (ms + [last])[i] == ms[i];
    }
  }

  /** One event keeps a row with a room unless it dooms it; then it is gone. */
  lemma EventFate(s: State, event: Event, row: DbMessage)
    requires EventEnabled(s, event) && row.roomId.Some? && Stored(s.messages, row)
    ensures Stored(Happen(s, event).messages, row) <==> !Dooms(event, row)
  {
    match event
    case Plain(step) =>
      var i :| 0 <= i < |s.messages| && SameRow(row, s.messages[i]);
      StepKeepsRows(s, step, i);
    case Delete(conversations, rooms) =>
      RemainingIff(s.messages, conversations, rooms, DoomedIds(s.messages, conversations, rooms), row);
  }

  /** After a deletion no row refers to a row it removed, and other references stay. */
  lemma {:induction false} ParentsCleared(
      ms: Table, conversations: set<Uuid>, rooms: set<Uuid>, gone: set<Uuid>, i: nat)
    requires i < |Remaining(ms, conversations, rooms, gone)|
    ensures var row := Remaining(ms, conversations, rooms, gone)[i];
            && (row.parentMessageId.Some? ==> row.parentMessageId.value !in gone)
            && (row in ms ||
                exists former ::
                  && former in ms && former.parentMessageId.Some? && former.parentMessageId.value in gone
                  && row == former.(parentMessageId := None))
  {
    var init, last := ms[..|ms| - 1], ms[|ms| - 1];
    var rest := Remaining(init, conversations, rooms, gone);
    assert ms == init + [last];
    if i < |rest| {
      ParentsCleared(init, conversations, rooms, gone, i);
    } else {
      assert last in ms;
    }
  }

  /** Some event from m up to n dooms the row. */
  ghost predicate DoomedBetween(events: seq<Event>, m: nat, n: nat, row: DbMessage) {
    exists j :: m <= j < n && j < |events| && Dooms(events[j], row)
  }

  /**
   A stored row with a room stays, up to its parent reference, until its conversation or its room is
   deleted.
   */
  lemma {:induction false} RowStaysUnlessDeleted(
      states: seq<State>, events: seq<Event>, m: nat, n: nat, row: DbMessage)
    requires IsHistory(states, events) && m <= n < |states| && row.roomId.Some? && Stored(states[m].messages, row)
    ensures Stored(states[n].messages, row) || DoomedBetween(events, m, n, row)
  {
    if m < n {
      RowStaysUnlessDeleted(states, events, m, n - 1, row);
      if Stored(states[n - 1].messages, row) {
        assert Happens(states, events, n - 1);
        EventFate(states[n - 1], events[n - 1], row);
      }
    }
  }

  /** And a deletion of either takes it away. */
  lemma DeletedIsGone(states: seq<State>, events: seq<Event>, m: nat, row: DbMessage)
    requires IsHistory(states, events) && m < |events| && row.roomId.Some? && Stored(states[m].messages, row)
    requires Dooms(events[m], row)
    ensures !Stored(states[m + 1].messages, row)
  {
    assert Happens(states, events, m);
    EventFate(states[m], events[m], row);
  }

  /** The highest number of a room goes down only when the row that carries it is deleted. */
  lemma TopFallsOnlyByDeletion(states: seq<State>, events: seq<Event>, m: nat, n: nat, room: Uuid)
    requires IsHistory(states, events) && m <= n < |states|
    ensures Top(states[m].messages, room) <= Top(states[n].messages, room)
            || exists row :: row in states[m].messages && InRoom(row, room)
                 && row.seqNo == Top(states[m].messages, room) && DoomedBetween(events, m, n, row)
  {
    var ms := states[m].messages;
    if Top(ms, room) > 0 {
      TopIsStored(ms, room);
      var i :| 0 <= i < |ms| && InRoom(ms[i], room) && ms[i].seqNo == Top(ms, room);
      assert SameRow(ms[i], ms[i]) && Stored(ms, ms[i]);
      RowStaysUnlessDeleted(states, events, m, n, ms[i]);
      if Stored(states[n].messages, ms[i]) {
        var k :| 0 <= k < |states[n].messages| && SameRow(ms[i], states[n].messages[k]);
        TopBounds(states[n].messages, room, k);
      } else {
        assert ms[i] in ms;
      }
    }
  }

  /** A call that looks up has a client id to look up. */
  predicate LookupsOk(s: State) {
    forall c :: c in s.calls && s.calls[c].stage.Lookup? ==> s.calls[c].msg.clientMessageId.Some?
  }

  lemma LookupsStayOk(s: State, event: Event)
    requires EventEnabled(s, event) && LookupsOk(s)
    ensures LookupsOk(Happen(s, event))
  {
  }

  lemma {:induction false} HistoryLookupsOk(states: seq<State>, events: seq<Event>, n: nat)
    requires IsHistory(states, events) && n < |states|
    ensures LookupsOk(states[n])
  {
    if n > 0 {
      HistoryLookupsOk(states, events, n - 1);
      assert Happens(states, events, n - 1);
      LookupsStayOk(states[n - 1], events[n - 1]);
    }
  }

  /** A call succeeds with a row that is stored right then. */
  lemma SuccessStores(s: State, event: Event, c: CallId, x: Receipt) returns (row: DbMessage)
    requires EventEnabled(s, event) && LookupsOk(s)
    requires Succeeded(Happen(s, event), c, x) && !Succeeded(s, c, x)
    ensures row.roomId.Some? && Stored(Happen(s, event).messages, row)
    ensures Witnesses(row, Happen(s, event).calls[c].msg, x)
  {
    SuccessStep(s, event.step, c, x);
    var ms := Happen(s, event).messages;
    var i := if event.step.LookupHit? then event.step.row else |s.messages|;
    row := ms[i];
    assert SameRow(row, ms[i]);
  }

  /**
   A receipt names a row that was stored when the call succeeded, at some state k, and that is stored
   ever since unless its conversation or its room has been deleted after k.
   */
  lemma {:induction false} ReceiptIsStoredUnlessDeleted(
      states: seq<State>, events: seq<Event>, n: nat, c: CallId, x: Receipt) returns (k: nat, row: DbMessage)
    requires IsHistory(states, events) && n < |states| && Succeeded(states[n], c, x)
    ensures k <= n && row.roomId.Some? && Stored(states[k].messages, row)
    ensures Witnesses(row, states[n].calls[c].msg, x)
    ensures Stored(states[n].messages, row) || DoomedBetween(events, k, n, row)
  {
    assert n > 0;
    assert Happens(states, events, n - 1);
    if Succeeded(states[n - 1], c, x) {
      k, row := ReceiptIsStoredUnlessDeleted(states, events, n - 1, c, x);
      ReceiptKept(states[n - 1], events[n - 1], c, x);
    } else {
      HistoryLookupsOk(states, events, n - 1);
      row := SuccessStores(states[n - 1], events[n - 1], c, x);
      k := n;
    }
    RowStaysUnlessDeleted(states, events, k, n, row);
  }

  lemma ReceiptKept(s: State, event: Event, c: CallId, x: Receipt)
    requires EventEnabled(s, event) && Succeeded(s, c, x)
    ensures Succeeded(Happen(s, event), c, x) && Happen(s, event).calls[c].msg == s.calls[c].msg
  {
    if event.Plain? {
      CallMoves(s, event.step, c);
    }
  }

  // References.

  ghost predicate HasId(ms: Table, id: Uuid) {
    exists i :: 0 <= i < |ms| && ms[i].id == id
  }

  /** Every row, committed or not, refers to a stored conversation, room and parent. */
  ghost predicate ReferencesHold(s: State) {
    && (forall i :: 0 <= i < |s.messages| ==> References(s, s.messages[i]))
    && forall c :: c in s.calls && Holds(s.calls[c]) ==> References(s, RowOf(s.calls[c]))
  }

  /** References stay when nothing that is stored goes. */
  lemma ReferencesGrow(s: State, s': State, row: DbMessage)
    requires References(s, row) && s.conversations <= s'.conversations && s.rooms.Keys <= s'.rooms.Keys
    requires forall i :: 0 <= i < |s.messages| ==> HasId(s'.messages, s.messages[i].id)
    ensures References(s', row)
  {
  }

  lemma IdsStay(s: State, step: Step, i: nat)
    requires Enabled(s, step) && i < |s.messages|
    ensures HasId(Apply(s, step).messages, s.messages[i].id)
  {
    assert Apply(s, step).messages[i].id == s.messages[i].id;
  }

  lemma StepKeepsReferences(s: State, step: Step)
    requires ReferencesHold(s) && Enabled(s, step)
    ensures ReferencesHold(Apply(s, step))
  {
    var s' := Apply(s, step);
    forall i | 0 <= i < |s.messages|
      ensures HasId(s'.messages, s.messages[i].id)
    {
      IdsStay(s, step, i);
    }
    forall i | 0 <= i < |s'.messages|
      ensures References(s', s'.messages[i])
    {
      CommittedReferences(s, step, i);
    }
    forall c | c in s'.calls && Holds(s'.calls[c])
      ensures References(s', RowOf(s'.calls[c]))
    {
      PendingReferences(s, step, c);
    }
  }

  lemma CommittedReferences(s: State, step: Step, i: nat)
    requires ReferencesHold(s) && Enabled(s, step) && i < |Apply(s, step).messages|
    requires forall k :: 0 <= k < |s.messages| ==> HasId(Apply(s, step).messages, s.messages[k].id)
    ensures References(Apply(s, step), Apply(s, step).messages[i])
  {
    var s' := Apply(s, step);
    if i < |s.messages| {
      ReferencesGrow(s, s', s.messages[i]);
    } else {
      ReferencesGrow(s, s', s'.messages[i]);
    }
  }

  lemma PendingReferences(s: State, step: Step, c: CallId)
    requires ReferencesHold(s) && Enabled(s, step) && c in Apply(s, step).calls && Holds(Apply(s, step).calls[c])
    requires forall k :: 0 <= k < |s.messages| ==> HasId(Apply(s, step).messages, s.messages[k].id)
    ensures References(Apply(s, step), RowOf(Apply(s, step).calls[c]))
  {
    ReferencesGrow(s, Apply(s, step), RowOf(Apply(s, step).calls[c]));
  }

  /** A remaining row was a row that stays. */
  lemma {:induction false} RemainingFrom(ms: Table, conversations: set<Uuid>, rooms: set<Uuid>, gone: set<Uuid>, i: nat)
    returns (j: nat)
    requires i < |Remaining(ms, conversations, rooms, gone)|
    ensures j < |ms| && !Doomed(ms[j], conversations, rooms)
    ensures Remaining(ms, conversations, rooms, gone)[i] == Unparented(ms[j], gone)
  {
    var init, last := ms[..|ms| - 1], ms[|ms| - 1];
    if i < |Remaining(init, conversations, rooms, gone)| {
      j := RemainingFrom(init, conversations, rooms, gone, i);
    } else {
      j := |ms| - 1;
    }
  }

  lemma IdRemains(ms: Table, conversations: set<Uuid>, rooms: set<Uuid>, id: Uuid)
    requires HasId(ms, id) && id !in DoomedIds(ms, conversations, rooms)
    ensures HasId(Remaining(ms, conversations, rooms, DoomedIds(ms, conversations, rooms)), id)
  {
    var gone := DoomedIds(ms, conversations, rooms);
    var i :| 0 <= i < |ms| && ms[i].id == id;
    assert SameRow(ms[i], ms[i]);
    RemainingIff(ms, conversations, rooms, gone, ms[i]);
    var k :| 0 <= k < |Remaining(ms, conversations, rooms, gone)|
             && SameRow(ms[i], Remaining(ms, conversations, rooms, gone)[k]);
  }

  lemma DeletionKeepsReferences(s: State, conversations: set<Uuid>, rooms: set<Uuid>)
    requires ReferencesHold(s) && EventEnabled(s, Delete(conversations, rooms))
    ensures ReferencesHold(Happen(s, Delete(conversations, rooms)))
  {
    var s' := Happen(s, Delete(conversations, rooms));
    var gone := DoomedIds(s.messages, conversations, rooms);
    forall i | 0 <= i < |s'.messages|
      ensures References(s', s'.messages[i])
    {
      var j := RemainingFrom(s.messages, conversations, rooms, gone, i);
      StillRefers(s, conversations, rooms, s.messages[j]);
    }
    forall c | c in s'.calls && Holds(s'.calls[c])
      ensures References(s', RowOf(s'.calls[c]))
    {
      StillRefers(s, conversations, rooms, RowOf(s.calls[c]));
    }
  }

  /** A row of other conversations and rooms refers to stored ones after a deletion, its parent cleared if that goes. */
  lemma StillRefers(s: State, conversations: set<Uuid>, rooms: set<Uuid>, row: DbMessage)
    requires EventEnabled(s, Delete(conversations, rooms))
    requires References(s, row) && !Doomed(row, conversations, rooms)
    ensures References(Happen(s, Delete(conversations, rooms)),
                       Unparented(row, DoomedIds(s.messages, conversations, rooms)))
  {
    if row.parentMessageId.Some? && row.parentMessageId.value !in DoomedIds(s.messages, conversations, rooms) {
      IdRemains(s.messages, conversations, rooms, row.parentMessageId.value);
    }
  }

  /** Over every run, deletions included, no row refers to a conversation, a room or a parent that is gone. */
  lemma {:induction false} NoDanglingReference(states: seq<State>, events: seq<Event>, n: nat)
    requires IsHistory(states, events) && n < |states|
    ensures ReferencesHold(states[n])
  {
    if n > 0 {
      NoDanglingReference(states, events, n - 1);
      assert Happens(states, events, n - 1);
      match events[n - 1]
      case Plain(step) => StepKeepsReferences(states[n - 1], step);
      case Delete(conversations, rooms) => DeletionKeepsReferences(states[n - 1], conversations, rooms);
    }
  }

  /** A deletion waits for exactly the transactions whose uncommitted rows refer to what it takes away. */
  lemma DeletionWaitsIff(s: State, conversations: set<Uuid>, rooms: set<Uuid>)
    ensures !EventEnabled(s, Delete(conversations, rooms)) <==>
            exists c :: c in s.calls && Holds(s.calls[c]) &&
              var msg := s.calls[c].msg;
              || msg.conversationId in conversations
              || (msg.roomId.Some? && msg.roomId.value in rooms)
              || (msg.parentMessageId.Some? &&
                  exists i ::
                    && 0 <= i < |s.messages| && s.messages[i].id == msg.parentMessageId.value
                    && Doomed(s.messages[i], conversations, rooms))
  {
  }

  /** A deletion takes these conversations and rooms and no others; other rooms keep their times. */
  lemma OnlyTheseGo(s: State, conversations: set<Uuid>, rooms: set<Uuid>, id: Uuid)
    requires EventEnabled(s, Delete(conversations, rooms))
    ensures var s' := Happen(s, Delete(conversations, rooms));
            && (id in s'.conversations <==> id in s.conversations && id !in conversations)
            && (id in s'.rooms <==> id in s.rooms && id !in rooms)
            && (id in s'.rooms ==> s'.rooms[id] == s.rooms[id])
  {
  }
}
