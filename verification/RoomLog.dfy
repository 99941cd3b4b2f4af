/**
 `RoomRepo::append_message` as a program whose steps interleave with any number of other calls
 under PostgreSQL's Read Committed level (section 13.2.1 of its manual): a read sees what is
 committed plus the transaction's own writes, an insert waits for an uncommitted row with an equal
 key and fails on a committed one, and a failed statement rolls the transaction back.
 */
module RoomLog {
  import opened Wrappers
  import opened Rows
  import opened MessageTable

  type CallId = nat

  /** What a successful call tells its caller. */
  datatype Receipt = Receipt(id: Uuid, seqNo: int)

  /**
   Where a call stands. `next` is the number it read; `seen` records how many sequenced rows of
   the room were committed at that read (a history variable: no step tests it).
   */
  datatype Stage =
    | Lookup
    | ReadMax
    | Insert(next: int, seen: nat)
    | Touch(next: int, seen: nat)
    | Commit(next: int, seen: nat)
    | Returned(result: Result<Receipt, string>)

  datatype Call = Call(msg: DbMessage, stage: Stage)

  /**
   Committed rows, room activity times, conversations, and the calls made so far. `overlapped`
   collects the rooms in which some append committed after another append to the same room had
   committed between its own read and its commit (a history variable as well).
   */
  datatype State = State(
    messages: Table,
    rooms: map<Uuid, Time>,
    conversations: set<Uuid>,
    calls: map<CallId, Call>,
    overlapped: set<Uuid>)

  datatype Step =
    | Start(c: CallId, msg: DbMessage)
    | LookupHit(c: CallId, row: nat)
    | LookupMiss(c: CallId)
    | ReadNext(c: CallId)
    | InsertRow(c: CallId)
    | TouchRoom(c: CallId)
    | CommitAppend(c: CallId, acknowledged: bool)
    | Fail(c: CallId)
    | InsertLegacy(legacy: DbMessage)
    | AddConversation(conversation: Uuid)
    | AddRoom(room: Uuid, at: Time)
    | UpsertRoom(room: Uuid, at: Time)
    | UpsertAfter(c: CallId)
    | BackfillRooms

  predicate At(s: State, c: CallId) {
    c in s.calls && s.calls[c].msg.roomId.Some?
  }

  function Room(call: Call): Uuid
    requires call.msg.roomId.Some?
  {
    call.msg.roomId.value
  }

  /** The row a call writes once it knows its number. */
  function RowOf(call: Call): DbMessage
    requires call.stage.Insert? || call.stage.Touch? || call.stage.Commit?
  {
    call.msg.(seqNo := call.stage.next)
  }

  /** The call's transaction holds an inserted, uncommitted row. */
  predicate Holds(call: Call) {
    call.stage.Touch? || call.stage.Commit?
  }

  /** The idempotency SELECT matches this row. */
  predicate SameClient(row: DbMessage, msg: DbMessage) {
    row.roomId == msg.roomId && row.clientMessageId == msg.clientMessageId
  }

  /** The foreign keys of `messages`. */
  predicate References(s: State, row: DbMessage) {
    && row.conversationId in s.conversations
    && (row.roomId.Some? ==> row.roomId.value in s.rooms)
    && (row.parentMessageId.Some? ==>
          exists i :: 0 <= i < |s.messages| && s.messages[i].id == row.parentMessageId.value)
  }

  /** No committed row and no other transaction's uncommitted row has an equal key. */
  predicate Insertable(s: State, row: DbMessage) {
    && (forall i :: 0 <= i < |s.messages| ==> !Conflicts(s.messages[i], row))
    && (forall c :: c in s.calls && Holds(s.calls[c]) ==> !Conflicts(RowOf(s.calls[c]), row))
    && References(s, row)
  }

  /** No transaction has updated the room's row and not committed yet. */
  predicate Unlocked(s: State, room: Uuid) {
    forall d :: d in s.calls && s.calls[d].stage.Commit? ==> s.calls[d].msg.roomId != Some(room)
  }

  predicate Enabled(s: State, step: Step) {
    match step
    case Start(c, msg) => c !in s.calls
    case LookupHit(c, row) =>
      At(s, c) && s.calls[c].stage == Lookup && row < |s.messages| && SameClient(s.messages[row], s.calls[c].msg)
    case LookupMiss(c) =>
      At(s, c) && s.calls[c].stage == Lookup &&
      forall i :: 0 <= i < |s.messages| ==> !SameClient(s.messages[i], s.calls[c].msg)
    case ReadNext(c) =>
      At(s, c) && s.calls[c].stage == ReadMax && Top(s.messages, Room(s.calls[c])) < I64_MAX
    case InsertRow(c) =>
      At(s, c) && s.calls[c].stage.Insert? && Insertable(s, RowOf(s.calls[c]))
    case TouchRoom(c) => // the update takes the room's row lock
      At(s, c) && s.calls[c].stage.Touch? && Unlocked(s, Room(s.calls[c]))
    case CommitAppend(c, _) => At(s, c) && s.calls[c].stage.Commit?
    case Fail(c) => At(s, c) && !s.calls[c].stage.Returned?
    case InsertLegacy(row) => IsLegacy(row) && Insertable(s, row)
    case AddConversation(_) => true
    case AddRoom(room, _) => room !in s.rooms
    case UpsertRoom(room, _) => Unlocked(s, room)
    case UpsertAfter(c) => // the caller of a successful append writes the room's header with its message's time
      At(s, c) && s.calls[c].stage.Returned? && s.calls[c].stage.result.Success? && Unlocked(s, Room(s.calls[c]))
    case BackfillRooms => true
  }

  function SetStage(s: State, c: CallId, stage: Stage): State
    requires c in s.calls
  {
    s.(calls := s.calls[c := s.calls[c].(stage := stage)])
  }

  function Apply(s: State, step: Step): State
    requires Enabled(s, step)
  {
    match step
    case Start(c, msg) =>
      var stage :=
        if msg.roomId == None then Returned(Failure("append_message requires room_id"))
        else if msg.clientMessageId.Some? then Lookup
        else ReadMax;
      s.(calls := s.calls[c := Call(msg, stage)])
    case LookupHit(c, row) =>
      SetStage(s, c, Returned(Success(Receipt(s.messages[row].id, s.messages[row].seqNo))))
    case LookupMiss(c) => SetStage(s, c, ReadMax)
    case ReadNext(c) =>
      var room := Room(s.calls[c]);
      SetStage(s, c, Insert(Top(s.messages, room) + 1, |Sequenced(s.messages, room)|))
    case InsertRow(c) => SetStage(s, c, Touch(s.calls[c].stage.next, s.calls[c].stage.seen))
    case TouchRoom(c) => SetStage(s, c, Commit(s.calls[c].stage.next, s.calls[c].stage.seen))
    case CommitAppend(c, acknowledged) =>
      var call := s.calls[c];
      var room := Room(call);
      var result :=
        if acknowledged then Success(Receipt(call.msg.id, call.stage.next)) else Failure("connection lost");
      SetStage(s, c, Returned(result)).(
        messages := s.messages + [RowOf(call)],
        rooms := s.rooms[room := call.msg.createdAt],
        overlapped :=
          if call.stage.seen == |Sequenced(s.messages, room)| then s.overlapped else s.overlapped + {room})
    case Fail(c) => SetStage(s, c, Returned(Failure("database error")))
    case InsertLegacy(row) => s.(messages := s.messages + [row])
    case AddConversation(conversation) => s.(conversations := s.conversations + {conversation})
    case AddRoom(room, at) => s.(rooms := s.rooms[room := at])
    case UpsertRoom(room, at) => s.(rooms := s.rooms[room := at])
    case UpsertAfter(c) => s.(rooms := s.rooms[Room(s.calls[c]) := s.calls[c].msg.createdAt])
    case BackfillRooms => s.(messages := Backfilled(s.messages, s.rooms.Keys))
  }

  predicate Init(s: State) {
    s.messages == [] && s.calls == map[] && s.overlapped == {}
  }

  /** States reached from the first one by one enabled step at a time. */
  ghost predicate IsPath(states: seq<State>, steps: seq<Step>) {
    && |states| == |steps| + 1
    && forall i :: 0 <= i < |steps| ==> Follows(states, steps, i)
  }

  /** Step i is enabled in state i and leads to state i + 1. */
  ghost predicate Follows(states: seq<State>, steps: seq<Step>, i: nat)
    requires i < |steps| && i + 1 < |states|
  {
    Enabled(states[i], steps[i]) && states[i + 1] == Apply(states[i], steps[i])
  }

  /** A run: a path from an empty log. */
  ghost predicate IsRun(states: seq<State>, steps: seq<Step>) {
    IsPath(states, steps) && Init(states[0])
  }

  // The invariant.

  /** The stored row that justifies a receipt. */
  ghost predicate Witnesses(row: DbMessage, msg: DbMessage, receipt: Receipt) {
    && row.id == receipt.id && row.seqNo == receipt.seqNo && row.roomId == msg.roomId
    && (row == msg.(seqNo := receipt.seqNo) || (msg.clientMessageId.Some? && SameClient(row, msg)))
  }

  ghost predicate CallOk(s: State, call: Call) {
    match call.stage
    case Returned(Success(receipt)) =>
      call.msg.roomId.Some? && exists i :: 0 <= i < |s.messages| && Witnesses(s.messages[i], call.msg, receipt)
    case Returned(Failure(_)) => true
    case Lookup => call.msg.roomId.Some? && call.msg.clientMessageId.Some?
    case ReadMax => call.msg.roomId.Some?
    case _ =>
      && call.msg.roomId.Some?
      && var room := Room(call);
         && 1 <= call.stage.next <= Top(s.messages, room) + 1
         && call.stage.seen <= |Sequenced(s.messages, room)|
         && (room !in s.overlapped ==> call.stage.next == call.stage.seen + 1)
         && (Holds(call) ==> forall i :: 0 <= i < |s.messages| ==> !Conflicts(s.messages[i], RowOf(call)))
  }

  /** Uncommitted rows never share a key: the second insert waits. */
  ghost predicate PendingIndexed(s: State) {
    forall c, d :: c in s.calls && d in s.calls && c != d && Holds(s.calls[c]) && Holds(s.calls[d])
      ==> !Conflicts(RowOf(s.calls[c]), RowOf(s.calls[d]))
  }

  ghost predicate TableOk(s: State) {
    Numbered(s.messages) && Indexed(s.messages) && forall room :: Gapless(s.messages, room)
  }

  /** Outside the overlapped rooms numbering is append order; inside them some number repeats. */
  ghost predicate OrderOk(s: State) {
    forall room ::
      && (room !in s.overlapped ==> NumberedInOrder(s.messages, room))
      && (room in s.overlapped ==> HasDuplicate(s.messages, room))
  }

  ghost predicate Inv(s: State) {
    && TableOk(s)
    && OrderOk(s)
    && PendingIndexed(s)
    && forall c :: c in s.calls ==> CallOk(s, s.calls[c])
  }

  // Committing one row.

  lemma AppendKeepsTable(ms: Table, row: DbMessage)
    requires Numbered(ms) && Indexed(ms) && forall room :: Gapless(ms, room)
    requires forall i :: 0 <= i < |ms| ==> !Conflicts(ms[i], row)
    requires IsLegacy(row) || (row.roomId.Some? && 1 <= row.seqNo <= Top(ms, row.roomId.value) + 1)
    ensures Numbered(ms + [row]) && Indexed(ms + [row]) && forall room :: Gapless(ms + [row], room)
  {
    var after := ms + [row];
    forall room, k | 1 <= k <= Top(after, room)
      ensures HasSeq(after, room, k)
    {
      TopOfAppend(ms, row, room);
      if k <= Top(ms, room) {
        assert Gapless(ms, room) && HasSeq(ms, room, k);
        var i :| 0 <= i < |ms| && InRoom(ms[i], room) && ms[i].seqNo == k;
        assert after[i] == ms[i];
      } else {
        assert after[|ms|] == row;
      }
    }
  }

  /** The commit that finds the room as it read it keeps the order; any other commit repeats a number. */
  lemma CommitKeepsOrder(ms: Table, row: DbMessage, seen: nat, overlapped: bool)
    requires row.roomId.Some? && row.seqNo >= 1
    requires !overlapped ==> NumberedInOrder(ms, row.roomId.value) && row.seqNo == seen + 1
    requires overlapped ==> HasDuplicate(ms, row.roomId.value)
    requires seen <= |Sequenced(ms, row.roomId.value)|
    ensures !overlapped && seen == |Sequenced(ms, row.roomId.value)| ==> NumberedInOrder(ms + [row], row.roomId.value)
    ensures overlapped || seen < |Sequenced(ms, row.roomId.value)| ==> HasDuplicate(ms + [row], row.roomId.value)
  {
    var room := row.roomId.value;
    var before, rows := Sequenced(ms, room), Sequenced(ms + [row], room);
    SequencedOfAppend(ms, row, room);
    assert rows == before + [row];
    if overlapped {
      var i, j :| 0 <= i < j < |before| && before[i].seqNo == before[j].seqNo;
      assert rows[i].seqNo == rows[j].seqNo;
    } else if seen < |before| {
      assert rows[seen].seqNo == rows[|before|].seqNo;
    }
  }

  /** Appending a row leaves another room's numbering as it was. */
  lemma AppendElsewhere(ms: Table, row: DbMessage, room: Uuid)
    requires !InRoom(row, room) || row.seqNo == 0
    ensures Top(ms + [row], room) == Top(ms, room)
    ensures Sequenced(ms + [row], room) == Sequenced(ms, room)
  {
    TopOfAppend(ms, row, room);
    SequencedOfAppend(ms, row, room);
  }

  /** A receipt keeps its witness when the table only grows at the right. */
  lemma AppendKeepsCall(s: State, s': State, call: Call)
    requires CallOk(s, call)
    requires exists row :: s'.messages == s.messages + [row]
    requires s.overlapped <= s'.overlapped
    requires Holds(call) ==> forall i :: 0 <= i < |s'.messages| ==> !Conflicts(s'.messages[i], RowOf(call))
    ensures CallOk(s', call)
  {
    var row :| s'.messages == s.messages + [row];
    match call.stage
    case Returned(Success(receipt)) =>
      var i :| 0 <= i < |s.messages| && Witnesses(s.messages[i], call.msg, receipt);
      assert Witnesses(s'.messages[i], call.msg, receipt);
    case Returned(Failure(_)) =>
    case Lookup =>
    case ReadMax =>
    case _ =>
      TopOfAppend(s.messages, row, Room(call));
      SequencedOfAppend(s.messages, row, Room(call));
  }

  /** A commit leaves every room either numbered in order or marked with a repeated number. */
  lemma CommitOrder(ms: Table, row: DbMessage, seen: nat, overlapped: set<Uuid>, other: Uuid)
    requires row.roomId.Some? && row.seqNo >= 1 && seen <= |Sequenced(ms, row.roomId.value)|
    requires row.roomId.value !in overlapped ==> row.seqNo == seen + 1
    requires other !in overlapped ==> NumberedInOrder(ms, other)
    requires other in overlapped ==> HasDuplicate(ms, other)
    ensures var marked := if seen == |Sequenced(ms, row.roomId.value)| then overlapped else overlapped + {row.roomId.value};
            && (other !in marked ==> NumberedInOrder(ms + [row], other))
            && (other in marked ==> HasDuplicate(ms + [row], other))
  {
    if InRoom(row, other) {
      CommitKeepsOrder(ms, row, seen, other in overlapped);
    } else {
      AppendElsewhere(ms, row, other);
    }
  }

  /** A commit keeps every call in order; its own call returns with the row it wrote. */
  lemma CommitCalls(s: State, c: CallId, acknowledged: bool, d: CallId)
    requires Enabled(s, CommitAppend(c, acknowledged)) && PendingIndexed(s)
    requires d in s.calls && CallOk(s, s.calls[d])
    ensures var s' := Apply(s, CommitAppend(c, acknowledged));
            CallOk(s', s'.calls[d])
  {
    var s' := Apply(s, CommitAppend(c, acknowledged));
    var call := s.calls[c];
    if d == c {
      assert Witnesses(s'.messages[|s.messages|], call.msg, Receipt(call.msg.id, call.stage.next));
    } else {
      assert s'.messages == s.messages + [RowOf(call)];
      AppendKeepsCall(s, s', s.calls[d]);
    }
  }

  lemma CommitStep(s: State, c: CallId, acknowledged: bool)
    requires Inv(s) && Enabled(s, CommitAppend(c, acknowledged))
    ensures Inv(Apply(s, CommitAppend(c, acknowledged)))
  {
    var s' := Apply(s, CommitAppend(c, acknowledged));
    assert CallOk(s, s.calls[c]);
    AppendKeepsTable(s.messages, RowOf(s.calls[c]));
    forall other
      ensures other !in s'.overlapped ==> NumberedInOrder(s'.messages, other)
      ensures other in s'.overlapped ==> HasDuplicate(s'.messages, other)
    {
      CommitOrder(s.messages, RowOf(s.calls[c]), s.calls[c].stage.seen, s.overlapped, other);
    }
    forall d | d in s'.calls
      ensures CallOk(s', s'.calls[d])
    {
      CommitCalls(s, c, acknowledged, d);
    }
  }

  lemma LegacyStep(s: State, row: DbMessage)
    requires Inv(s) && Enabled(s, InsertLegacy(row))
    ensures Inv(Apply(s, InsertLegacy(row)))
  {
    var s' := Apply(s, InsertLegacy(row));
    AppendKeepsTable(s.messages, row);
    forall room
      ensures Sequenced(s'.messages, room) == Sequenced(s.messages, room)
    {
      AppendElsewhere(s.messages, row, room);
    }
    forall d | d in s'.calls
      ensures CallOk(s', s'.calls[d])
    {
      AppendKeepsCall(s, s', s.calls[d]);
    }
  }

  lemma BackfillStep(s: State)
    requires Inv(s)
    ensures Inv(Apply(s, BackfillRooms))
  {
    var s' := Apply(s, BackfillRooms);
    BackfillKeepsIndexes(s.messages, s.rooms.Keys);
    forall room
      ensures Sequenced(s'.messages, room) == Sequenced(s.messages, room)
      ensures Top(s'.messages, room) == Top(s.messages, room) && Gapless(s'.messages, room)
    {
      BackfillKeepsNumbering(s.messages, s.rooms.Keys, room);
      forall k | 1 <= k <= Top(s'.messages, room)
        ensures HasSeq(s'.messages, room, k)
      {
        assert Gapless(s.messages, room);
        BackfillKeepsSeq(s.messages, s.rooms.Keys, room, k);
      }
    }
    forall c | c in s'.calls
      ensures CallOk(s', s'.calls[c])
    {
      BackfillKeepsCall(s, s', s.calls[c]);
    }
  }

  lemma BackfillKeepsCall(s: State, s': State, call: Call)
    requires Numbered(s.messages) && CallOk(s, call)
    requires s'.messages == Backfilled(s.messages, s.rooms.Keys) && s'.overlapped == s.overlapped
    ensures CallOk(s', call)
  {
    match call.stage
    case Returned(Success(receipt)) =>
      var i :| 0 <= i < |s.messages| && Witnesses(s.messages[i], call.msg, receipt);
      assert Witnesses(s'.messages[i], call.msg, receipt);
    case Returned(Failure(_)) =>
    case Lookup =>
    case ReadMax =>
    case _ =>
      BackfillKeepsNumbering(s.messages, s.rooms.Keys, Room(call));
      if Holds(call) {
        BackfillKeepsRefusals(s.messages, s.rooms.Keys, RowOf(call));
      }
  }

  /** The backfill makes no row conflict that did not: rows it moves carry no client id. */
  lemma BackfillKeepsRefusals(ms: Table, rooms: set<Uuid>, row: DbMessage)
    requires Numbered(ms) && forall i :: 0 <= i < |ms| ==> !Conflicts(ms[i], row)
    ensures forall i :: 0 <= i < |ms| ==> !Conflicts(Backfilled(ms, rooms)[i], row)
  {
    forall i | 0 <= i < |ms|
      ensures !Conflicts(Backfilled(ms, rooms)[i], row)
    {
      assert !Conflicts(ms[i], row);
    }
  }

  /** Moving one call on, with the tables as they were, keeps the invariant if the call stays in order. */
  lemma MoveCall(s: State, s': State, c: CallId, call: Call)
    requires Inv(s) && CallOk(s, call)
    requires s'.messages == s.messages && s'.overlapped == s.overlapped && s'.calls == s.calls[c := call]
    requires Holds(call) ==>
      forall d :: d in s.calls && d != c && Holds(s.calls[d])
        ==> !Conflicts(RowOf(s.calls[d]), RowOf(call)) && !Conflicts(RowOf(call), RowOf(s.calls[d]))
    ensures Inv(s')
  {
    assert CallOk(s', call);
    forall d | d in s'.calls
      ensures CallOk(s', s'.calls[d])
    {
      if d != c {
        assert CallOk(s, s.calls[d]);
      }
    }
  }

  lemma LookupStep(s: State, c: CallId, row: nat)
    requires Inv(s) && Enabled(s, LookupHit(c, row))
    ensures Inv(Apply(s, LookupHit(c, row)))
  {
    var s' := Apply(s, LookupHit(c, row));
    assert Witnesses(s.messages[row], s'.calls[c].msg, s'.calls[c].stage.result.value);
    MoveCall(s, s', c, s'.calls[c]);
  }

  lemma ReadStep(s: State, c: CallId)
    requires Inv(s) && Enabled(s, ReadNext(c))
    ensures Inv(Apply(s, ReadNext(c)))
  {
    var s' := Apply(s, ReadNext(c));
    if Room(s.calls[c]) !in s.overlapped {
      TopOfOrdered(s.messages, Room(s.calls[c]));
    }
    MoveCall(s, s', c, s'.calls[c]);
  }

  lemma InsertStep(s: State, c: CallId)
    requires Inv(s) && Enabled(s, InsertRow(c))
    ensures Inv(Apply(s, InsertRow(c)))
  {
    var s' := Apply(s, InsertRow(c));
    assert CallOk(s, s.calls[c]) && RowOf(s'.calls[c]) == RowOf(s.calls[c]);
    MoveCall(s, s', c, s'.calls[c]);
  }

  lemma TouchStep(s: State, c: CallId)
    requires Inv(s) && Enabled(s, TouchRoom(c))
    ensures Inv(Apply(s, TouchRoom(c)))
  {
    var s' := Apply(s, TouchRoom(c));
    assert CallOk(s, s.calls[c]) && RowOf(s'.calls[c]) == RowOf(s.calls[c]);
    MoveCall(s, s', c, s'.calls[c]);
  }

  /** Starting, missing and failing leave the call without a number. */
  lemma PlainStep(s: State, step: Step)
    requires Inv(s) && Enabled(s, step) && (step.Start? || step.LookupMiss? || step.Fail?)
    ensures Inv(Apply(s, step))
  {
    var s' := Apply(s, step);
    assert CallOk(s, s'.calls[step.c]);
    MoveCall(s, s', step.c, s'.calls[step.c]);
  }

  /** Conversations and rooms appear and change without touching messages or calls. */
  lemma HeaderStep(s: State, step: Step)
    requires Inv(s) && Enabled(s, step) && (step.AddConversation? || step.AddRoom? || step.UpsertRoom? || step.UpsertAfter?)
    ensures Inv(Apply(s, step))
  {
    SameLog(s, Apply(s, step));
  }

  /** The invariant is about messages, calls and marks. */
  lemma SameLog(s: State, s': State)
    requires Inv(s) && s'.messages == s.messages && s'.calls == s.calls && s'.overlapped == s.overlapped
    ensures Inv(s')
  {
    forall c | c in s'.calls
      ensures CallOk(s', s'.calls[c])
    {
      assert CallOk(s, s.calls[c]);
    }
  }

  lemma StepKeepsInv(s: State, step: Step)
    requires Inv(s) && Enabled(s, step)
    ensures Inv(Apply(s, step))
  {
    match step
    case LookupHit(c, row) => LookupStep(s, c, row);
    case ReadNext(c) => ReadStep(s, c);
    case InsertRow(c) => InsertStep(s, c);
    case TouchRoom(c) => TouchStep(s, c);
    case CommitAppend(c, acknowledged) => CommitStep(s, c, acknowledged);
    case InsertLegacy(row) => LegacyStep(s, row);
    case BackfillRooms => BackfillStep(s);
    case AddConversation(_) => HeaderStep(s, step);
    case AddRoom(_, _) => HeaderStep(s, step);
    case UpsertRoom(_, _) => HeaderStep(s, step);
    case UpsertAfter(_) => HeaderStep(s, step);
    case _ => PlainStep(s, step);
  }

  lemma {:induction false} RunKeepsInv(states: seq<State>, steps: seq<Step>, n: nat)
    requires IsRun(states, steps) && n < |states|
    ensures Inv(states[n])
  {
    if n > 0 {
      RunKeepsInv(states, steps, n - 1);
      assert Follows(states, steps, n - 1);
      StepKeepsInv(states[n - 1], steps[n - 1]);
    }
  }
}
