/** The repository object: one `append_message` call from start to end, with nothing in between. */
module RoomStore {
  import opened Wrappers
  import opened Rows
  import opened MessageTable
  import opened RoomLog
  import Json

  /** The tables an append reads and writes. */
  datatype Tables = Tables(messages: Table, rooms: map<Uuid, Time>, conversations: set<Uuid>)

  /** Tables after a call, what it returned, and the caller's message as the call left it. */
  datatype Outcome = Outcome(tables: Tables, result: Result<int, string>, msg: DbMessage)

  /** The tables as a machine state with no call under way. */
  function Quiet(t: Tables): State {
    State(t.messages, t.rooms, t.conversations, map[], {})
  }

  /** Position of the row that already carries this message's client id in its room. */
  function FindClient(ms: Table, msg: DbMessage): (hit: Option<nat>)
    ensures hit.Some? ==> hit.value < |ms| && SameClient(ms[hit.value], msg)
    ensures hit.None? ==> forall i :: 0 <= i < |ms| ==> !SameClient(ms[i], msg)
  {
    if ms == [] then None
    else
      match FindClient(ms[..|ms| - 1], msg)
      case Some(i) => Some(i)
      case None => if SameClient(ms[|ms| - 1], msg) then Some(|ms| - 1) else None
  }

  /** The transaction of a call, on tables nobody else touches. */
  function InsertAlone(t: Tables, msg: DbMessage): Outcome
    requires msg.roomId.Some?
  {
    var room := msg.roomId.value;
    if Top(t.messages, room) >= I64_MAX then Outcome(t, Failure("database error"), msg)
    else
      var row := msg.(seqNo := Top(t.messages, room) + 1);
      if Insertable(Quiet(t), row) then
        var after := t.(messages := t.messages + [row], rooms := t.rooms[room := msg.createdAt]);
        Outcome(after, Success(row.seqNo), row)
      else Outcome(t, Failure("database error"), row)
  }

  /** The whole call on tables nobody else touches. */
  function AppendAlone(t: Tables, msg: DbMessage): Outcome {
    if msg.roomId == None then Outcome(t, Failure("append_message requires room_id"), msg)
    else
      var hit := if msg.clientMessageId.Some? then FindClient(t.messages, msg) else None;
      if hit.Some? then
        var row := t.messages[hit.value];
        Outcome(t, Success(row.seqNo), msg.(seqNo := row.seqNo, id := row.id))
      else InsertAlone(t, msg)
  }

  class RoomRepo {
    var messages: Table
    var rooms: map<Uuid, Time>
    var conversations: set<Uuid>

    function Contents(): Tables
      reads this
    {
      Tables(messages, rooms, conversations)
    }

    constructor ()
      ensures Contents() == Tables([], map[], {})
    {
      messages, rooms, conversations := [], map[], {};
    }

    /** `RoomRepo::append_message`; `out` is the caller's `&mut` message afterwards. */
    method AppendMessage(msg: DbMessage) returns (result: Result<int, string>, out: DbMessage)
      modifies this
      ensures Outcome(Contents(), result, out) == AppendAlone(old(Contents()), msg)
    {
      out := msg;
      if msg.roomId == None {
        return Failure("append_message requires room_id"), out;
      }
      var room := msg.roomId.value;
      if msg.clientMessageId.Some? {
        var existing := FindClient(messages, msg);
        if existing.Some? {
          out := out.(seqNo := messages[existing.value].seqNo);
          out := out.(id := messages[existing.value].id);
          return Success(out.seqNo), out;
        }
      }
      var next := Top(messages, room) + 1;
      if next > I64_MAX {
        return Failure("database error"), out;
      }
      out := out.(seqNo := next);
      if !Insertable(Quiet(Contents()), out) {
        return Failure("database error"), out;
      }
      messages := messages + [out];
      rooms := rooms[room := msg.createdAt];
      return Success(out.seqNo), out;
    }
  }

  /** Some path of the machine without a database failure leads from one state to the other. */
  ghost predicate Reaches(s: State, s': State) {
    exists states, steps :: IsPath(states, steps) && NoFail(steps) && states[0] == s && states[|steps|] == s'
  }

  ghost predicate NoFail(steps: seq<Step>) {
    forall i :: 0 <= i < |steps| ==> !steps[i].Fail?
  }

  /** Such a path, and then this call's failure. */
  ghost predicate FailsTo(s: State, s': State, c: CallId) {
    exists mid :: Reaches(s, mid) && Enabled(mid, Fail(c)) && s' == Apply(mid, Fail(c))
  }

  lemma ReachesItself(s: State)
    ensures Reaches(s, s)
  {
    var steps: seq<Step> := [];
    assert IsPath([s], steps) && NoFail(steps) && [s][0] == s && [s][|steps|] == s;
  }

  /** One more enabled step is still a path. */
  lemma ReachesNext(s: State, mid: State, step: Step)
    requires Reaches(s, mid) && Enabled(mid, step) && !step.Fail?
    ensures Reaches(s, Apply(mid, step))
  {
    var states, steps :| IsPath(states, steps) && NoFail(steps) && states[0] == s && states[|steps|] == mid;
    var more, all := Onward(states, steps, step);
    assert IsPath(more, all) && NoFail(all) && more[0] == s && more[|all|] == Apply(mid, step);
  }

  /** State s' shows the outcome of call c: its tables, and how the call ended. */
  ghost predicate Shows(s': State, c: CallId, outcome: Outcome) {
    && s'.messages == outcome.tables.messages && s'.rooms == outcome.tables.rooms
    && s'.conversations == outcome.tables.conversations
    && c in s'.calls && s'.calls[c].stage.Returned?
    && s'.calls[c].stage.result.Success? == outcome.result.Success?
    && (outcome.result.Success? ==>
          s'.calls[c].stage.result.value == Receipt(outcome.msg.id, outcome.result.value))
  }

  /** The transaction part of an uninterrupted call, when the row may be inserted. */
  lemma CommitAlone(start: State, s: State, c: CallId) returns (s': State)
    requires Reaches(start, s)
    requires At(s, c) && s.calls[c].stage.Insert? && Insertable(s, RowOf(s.calls[c]))
    requires forall d :: d in s.calls && d != c ==> !Holds(s.calls[d])
    ensures Reaches(start, s')
    ensures s'.calls.Keys == s.calls.Keys && forall d :: d in s.calls && d != c ==> s'.calls[d] == s.calls[d]
    ensures c in s'.calls && s'.calls[c].msg == s.calls[c].msg
    ensures var row := RowOf(s.calls[c]);
            && s'.messages == s.messages + [row] && s'.conversations == s.conversations
            && s'.rooms == s.rooms[Room(s.calls[c]) := row.createdAt]
            && c in s'.calls && s'.calls[c].stage == Returned(Success(Receipt(row.id, row.seqNo)))
  {
    var row := RowOf(s.calls[c]);
    ReachesNext(start, s, InsertRow(c));
    s' := Apply(s, InsertRow(c));
    ReachesNext(start, s', TouchRoom(c));
    s' := Apply(s', TouchRoom(c));
    assert RowOf(s'.calls[c]) == row;
    ReachesNext(start, s', CommitAppend(c, true));
    s' := Apply(s', CommitAppend(c, true));
  }

  /** How a path of an uninterrupted call ends: without a failure on it unless the call fails. */
  ghost predicate EndsAt(start: State, s': State, c: CallId, success: bool) {
    if success then Reaches(start, s') else Reaches(start, s') || FailsTo(start, s', c)
  }

  /** The database refuses the call. */
  lemma FailNow(start: State, s: State, c: CallId) returns (s': State)
    requires Reaches(start, s) && At(s, c) && !s.calls[c].stage.Returned?
    ensures FailsTo(start, s', c) && s' == SetStage(s, c, Returned(Failure("database error")))
  {
    s' := Apply(s, Fail(c));
  }

  /** The number is read. */
  lemma ReadAlone(start: State, s: State, c: CallId) returns (s': State)
    requires Reaches(start, s) && At(s, c) && s.calls[c].stage == ReadMax && Top(s.messages, Room(s.calls[c])) < I64_MAX
    ensures Reaches(start, s') && At(s', c) && s'.calls[c].stage.Insert?
    ensures s'.messages == s.messages && s'.rooms == s.rooms && s'.conversations == s.conversations
    ensures s'.calls == s.calls[c := s'.calls[c]]
    ensures s'.calls[c].msg == s.calls[c].msg
            && RowOf(s'.calls[c]) == s.calls[c].msg.(seqNo := Top(s.messages, Room(s.calls[c])) + 1)
  {
    ReachesNext(start, s, ReadNext(c));
    s' := Apply(s, ReadNext(c));
  }

  /** The transaction part of an uninterrupted call. */
  lemma FinishAlone(start: State, s: State, c: CallId) returns (s': State)
    requires Reaches(start, s)
    requires At(s, c) && s.calls[c].stage == ReadMax
    requires forall d :: d in s.calls && d != c ==> s.calls[d].stage.Returned?
    ensures var outcome := InsertAlone(Tables(s.messages, s.rooms, s.conversations), s.calls[c].msg);
            Shows(s', c, outcome) && EndsAt(start, s', c, outcome.result.Success?)
  {
    if Top(s.messages, Room(s.calls[c])) >= I64_MAX {
      s' := FailNow(start, s, c);
    } else {
      var mid := ReadAlone(start, s, c);
      assert Insertable(mid, RowOf(mid.calls[c])) <==>
             Insertable(Quiet(Tables(s.messages, s.rooms, s.conversations)), RowOf(mid.calls[c]));
      if Insertable(mid, RowOf(mid.calls[c])) {
        s' := CommitAlone(start, mid, c);
      } else {
        s' := FailNow(start, mid, c);
      }
    }
  }

  /** A call whose room is set starts; with no stored row for its client id it goes on to its transaction. */
  lemma StartAlone(s: State, c: CallId, msg: DbMessage) returns (s': State)
    requires c !in s.calls && msg.roomId.Some?
    requires msg.clientMessageId.Some? ==> FindClient(s.messages, msg).None?
    ensures Reaches(s, s') && s' == s.(calls := s.calls[c := Call(msg, ReadMax)])
  {
    ReachesItself(s);
    ReachesNext(s, s, Start(c, msg));
    s' := Apply(s, Start(c, msg));
    if msg.clientMessageId.Some? {
      var hit := FindClient(s.messages, msg);
      ReachesNext(s, s', LookupMiss(c));
      s' := Apply(s', LookupMiss(c));
    }
  }

  /** A call whose client id is stored returns the stored row's id and number. */
  lemma RepeatAlone(s: State, c: CallId, msg: DbMessage) returns (s': State)
    requires c !in s.calls && msg.roomId.Some? && msg.clientMessageId.Some? && FindClient(s.messages, msg).Some?
    ensures Reaches(s, s')
    ensures Shows(s', c, AppendAlone(Tables(s.messages, s.rooms, s.conversations), msg))
  {
    var hit := FindClient(s.messages, msg).value;
    ReachesItself(s);
    ReachesNext(s, s, Start(c, msg));
    s' := Apply(s, Start(c, msg));
    ReachesNext(s, s', LookupHit(c, hit));
    s' := Apply(s', LookupHit(c, hit));
  }

  /**
   The uninterrupted call is one path of the interleaved machine: whatever holds of every run
   holds of the method above. The path of a call that succeeds holds no failure.
   */
  lemma AloneIsAPath(s: State, c: CallId, msg: DbMessage) returns (s': State)
    requires c !in s.calls && forall d :: d in s.calls ==> s.calls[d].stage.Returned?
    ensures var outcome := AppendAlone(Tables(s.messages, s.rooms, s.conversations), msg);
            Shows(s', c, outcome) && EndsAt(s, s', c, outcome.result.Success?)
  {
    if msg.roomId == None {
      ReachesItself(s);
      ReachesNext(s, s, Start(c, msg));
      s' := Apply(s, Start(c, msg));
    } else if msg.clientMessageId.Some? && FindClient(s.messages, msg).Some? {
      s' := RepeatAlone(s, c, msg);
    } else {
      var mid := StartAlone(s, c, msg);
      s' := FinishAlone(s, mid, c);
    }
  }

  /** Retrying with the same client id returns the first answer and writes nothing. */
  lemma RetryIsIdempotent(t: Tables, msg: DbMessage, again: DbMessage)
    requires Indexed(t.messages)
    requires msg.clientMessageId.Some? && SameClient(again, msg)
    requires AppendAlone(t, msg).result.Success?
    ensures var first := AppendAlone(t, msg);
            var second := AppendAlone(first.tables, again);
            second.tables == first.tables && second.result == first.result && second.msg.id == first.msg.id
  {
    var first := AppendAlone(t, msg);
    var ms := first.tables.messages;
    var hit := FindClient(ms, again);
    var k := if FindClient(t.messages, msg).Some? then FindClient(t.messages, msg).value else |t.messages|;
    assert SameClient(ms[k], again) && ms[k].seqNo == first.result.value && ms[k].id == first.msg.id;
    assert Indexed(ms);
    assert Conflicts(ms[k], ms[hit.value]) && Conflicts(ms[hit.value], ms[k]);
  }

  // When the call succeeds, and what it does then.

  /** A stored row has the message's room and client id. */
  ghost predicate IsRepeated(t: Tables, msg: DbMessage) {
    msg.clientMessageId.Some? &&
    exists i :: 0 <= i < |t.messages| && t.messages[i].roomId == msg.roomId
                && t.messages[i].clientMessageId == msg.clientMessageId
  }

  /** The room's numbers leave one for the message, its id is new, and what it refers to is stored. */
  ghost predicate IsAcceptable(t: Tables, msg: DbMessage) {
    && msg.roomId.Some? && msg.roomId.value in t.rooms && msg.conversationId in t.conversations
    && (forall i :: 0 <= i < |t.messages| ==> t.messages[i].id != msg.id)
    && (forall i :: 0 <= i < |t.messages| && t.messages[i].roomId == msg.roomId ==>
          t.messages[i].seqNo < 0x7FFF_FFFF_FFFF_FFFF)
    && (msg.parentMessageId.Some? ==>
          exists i :: 0 <= i < |t.messages| && t.messages[i].id == msg.parentMessageId.value)
  }

  lemma TopBelowIff(ms: Table, room: Uuid, bound: nat)
    requires bound > 0
    ensures Top(ms, room) < bound <==> forall i :: 0 <= i < |ms| && InRoom(ms[i], room) ==> ms[i].seqNo < bound
  {
    if Top(ms, room) < bound {
      forall i | 0 <= i < |ms| && InRoom(ms[i], room)
        ensures ms[i].seqNo < bound
      {
        TopBounds(ms, room, i);
      }
    } else {
      TopIsStored(ms, room);
    }
  }

  lemma FindClientIff(ms: Table, msg: DbMessage)
    ensures FindClient(ms, msg).Some? <==>
            exists i :: 0 <= i < |ms| && ms[i].roomId == msg.roomId && ms[i].clientMessageId == msg.clientMessageId
  {
    var hit := FindClient(ms, msg);
    if hit.None? {
      forall i | 0 <= i < |ms|
        ensures !(ms[i].roomId == msg.roomId && ms[i].clientMessageId == msg.clientMessageId)
      {
        assert !SameClient(ms[i], msg);
      }
    }
  }

  /** A row may be inserted exactly when its id is new, no row has its client id, and its references are stored. */
  lemma InsertableIff(t: Tables, msg: DbMessage, row: DbMessage)
    requires msg.roomId.Some? && !IsRepeated(t, msg) && row == msg.(seqNo := row.seqNo)
    requires forall i :: 0 <= i < |t.messages| && t.messages[i].roomId == msg.roomId ==>
               t.messages[i].seqNo < 0x7FFF_FFFF_FFFF_FFFF
    ensures Insertable(Quiet(t), row) <==> IsAcceptable(t, msg)
  {
    forall i | 0 <= i < |t.messages|
      ensures Conflicts(t.messages[i], row) <==> t.messages[i].id == msg.id
    {
    }
  }

  /**
   An append succeeds if and only if a room is set and either a stored row has its room and client id,
   or the room has a number left, the id is new, and conversation, room and parent are stored.
   */
  lemma AppendSucceedsIff(t: Tables, msg: DbMessage)
    ensures AppendAlone(t, msg).result.Success? <==> msg.roomId.Some? && (IsRepeated(t, msg) || IsAcceptable(t, msg))
  {
    if msg.roomId.Some? {
      FindClientIff(t.messages, msg);
      TopBelowIff(t.messages, msg.roomId.value, I64_MAX);
      if !IsRepeated(t, msg) && Top(t.messages, msg.roomId.value) < I64_MAX {
        InsertableIff(t, msg, msg.(seqNo := Top(t.messages, msg.roomId.value) + 1));
      }
    }
  }

  /** The number is one more than the highest in the room, and 1 in a room without numbers. */
  ghost predicate IsNextNumber(ms: Table, room: Uuid, k: int) {
    && k >= 1 && (forall i :: 0 <= i < |ms| && InRoom(ms[i], room) ==> ms[i].seqNo < k)
    && (k > 1 ==> exists i :: 0 <= i < |ms| && InRoom(ms[i], room) && ms[i].seqNo == k - 1)
  }

  lemma NextNumberIs(ms: Table, room: Uuid)
    ensures IsNextNumber(ms, room, Top(ms, room) + 1)
  {
    TopBelowIff(ms, room, Top(ms, room) + 1);
    if Top(ms, room) > 0 {
      TopIsStored(ms, room);
    }
  }

  /** A new message is added with the next number, the room gets its time, and nothing else changes. */
  lemma NewMessageIsAppended(t: Tables, msg: DbMessage) returns (k: int)
    requires IsAcceptable(t, msg) && !IsRepeated(t, msg)
    ensures IsNextNumber(t.messages, msg.roomId.value, k)
    ensures AppendAlone(t, msg) ==
            Outcome(
              Tables(t.messages + [msg.(seqNo := k)], t.rooms[msg.roomId.value := msg.createdAt], t.conversations),
              Success(k), msg.(seqNo := k))
  {
    var room := msg.roomId.value;
    k := Top(t.messages, room) + 1;
    FindClientIff(t.messages, msg);
    TopBelowIff(t.messages, room, I64_MAX);
    NextNumberIs(t.messages, room);
    InsertableIff(t, msg, msg.(seqNo := k));
  }

  /** A repeated message is answered with a stored row of its client id, and nothing changes. */
  lemma RepeatIsAnswered(t: Tables, msg: DbMessage) returns (i: nat)
    requires msg.roomId.Some? && IsRepeated(t, msg)
    ensures i < |t.messages| && SameClient(t.messages[i], msg)
    ensures AppendAlone(t, msg) ==
            Outcome(t, Success(t.messages[i].seqNo), msg.(seqNo := t.messages[i].seqNo, id := t.messages[i].id))
  {
    FindClientIff(t.messages, msg);
    i := FindClient(t.messages, msg).value;
  }

  /** A failed append changes no table; a refused insert leaves the number it tried on the caller's message. */
  lemma FailureChangesNothing(t: Tables, msg: DbMessage)
    requires !AppendAlone(t, msg).result.Success?
    ensures AppendAlone(t, msg).tables == t
    ensures var out := AppendAlone(t, msg).msg;
            if msg.roomId.Some? && (forall i :: 0 <= i < |t.messages| && t.messages[i].roomId == msg.roomId ==>
                                      t.messages[i].seqNo < 0x7FFF_FFFF_FFFF_FFFF)
            then out == msg.(seqNo := out.seqNo) && IsNextNumber(t.messages, msg.roomId.value, out.seqNo)
            else out == msg
    ensures AppendAlone(t, msg).result == Failure("append_message requires room_id") <==> msg.roomId == None
  {
    assert "append_message requires room_id"[0] == 'a' && "database error"[0] == 'd';
    if msg.roomId.Some? {
      var room := msg.roomId.value;
      TopBelowIff(t.messages, room, I64_MAX);
      NextNumberIs(t.messages, room);
    }
  }

  // Why the numbers need not be unique.

  /** Two messages for one room, in two calls. */
  function Sample(id: nat): DbMessage {
    DbMessage(Uuid(id), Uuid(1), Some(Uuid(1)), 0, "user", Json.Null, Some("user"), None, "user_text", "room",
              None, Json.Arr([]), None, 0)
  }

  /** A call starts and reads its number. */
  lemma BeginOne(start: State, s: State, c: CallId, msg: DbMessage) returns (s': State)
    requires Reaches(start, s) && c !in s.calls
    requires msg.roomId.Some? && msg.clientMessageId.None? && Top(s.messages, msg.roomId.value) < I64_MAX
    ensures Reaches(start, s')
    ensures var stage := Insert(Top(s.messages, msg.roomId.value) + 1, |Sequenced(s.messages, msg.roomId.value)|);
            s' == s.(calls := s.calls[c := Call(msg, stage)])
  {
    ReachesNext(start, s, Start(c, msg));
    s' := Apply(s, Start(c, msg));
    ReachesNext(start, s', ReadNext(c));
    s' := Apply(s', ReadNext(c));
  }

  /** A log with one conversation and its room. */
  lemma EmptyRoom() returns (s: State)
    ensures Reaches(State([], map[], {}, map[], {}), s)
    ensures s == State([], map[Uuid(1) := 0], {Uuid(1)}, map[], {})
  {
    var empty := State([], map[], {}, map[], {});
    ReachesItself(empty);
    ReachesNext(empty, empty, AddConversation(Uuid(1)));
    s := Apply(empty, AddConversation(Uuid(1)));
    ReachesNext(empty, s, AddRoom(Uuid(1), 0));
    s := Apply(s, AddRoom(Uuid(1), 0));
  }

  /** Two rows of one room with one number are a duplicate. */
  lemma TwoRowsDuplicate(a: DbMessage, b: DbMessage, room: Uuid)
    requires InRoom(a, room) && InRoom(b, room) && a.seqNo == b.seqNo > 0
    ensures HasDuplicate([a, b], room)
  {
    SequencedOfAppend([], a, room);
    SequencedOfAppend([a], b, room);
    assert [] + [a] == [a] && [a] + [b] == [a, b];
    var rows := Sequenced([a, b], room);
    assert rows[0].seqNo == rows[1].seqNo;
  }

  /** Two overlapping appends do store the same number: the theorem on uniqueness is about real runs. */
  lemma OverlapCanDuplicate() returns (states: seq<State>, steps: seq<Step>)
    ensures IsRun(states, steps) && HasDuplicate(states[|steps|].messages, Uuid(1))
  {
    var empty := State([], map[], {}, map[], {});
    var s0 := EmptyRoom();
    var s1 := BeginOne(empty, s0, 0, Sample(2));
    var s2 := BeginOne(empty, s1, 1, Sample(3));
    var a, b := Sample(2).(seqNo := 1), Sample(3).(seqNo := 1);
    assert RowOf(s2.calls[0]) == a && RowOf(s2.calls[1]) == b;
    var s3 := CommitAlone(empty, s2, 0);
    var s4 := CommitAlone(empty, s3, 1);
    assert s4.messages == [a, b];
    TwoRowsDuplicate(a, b, Uuid(1));
    states, steps :| IsPath(states, steps) && NoFail(steps) && states[0] == empty && states[|steps|] == s4;
  }

  /** An uninterrupted append of a new message without a client id. */
  lemma AppendOne(start: State, s: State, c: CallId, msg: DbMessage) returns (s': State)
    requires Reaches(start, s) && c !in s.calls && forall d :: d in s.calls ==> !Holds(s.calls[d])
    requires msg.roomId.Some? && msg.clientMessageId.None? && Top(s.messages, msg.roomId.value) < I64_MAX
    requires Insertable(s, msg.(seqNo := Top(s.messages, msg.roomId.value) + 1))
    ensures Reaches(start, s') && s'.calls.Keys == s.calls.Keys + {c}
    ensures forall d :: d in s'.calls ==> !Holds(s'.calls[d])
    ensures s'.messages == s.messages + [msg.(seqNo := Top(s.messages, msg.roomId.value) + 1)]
    ensures s'.conversations == s.conversations && s'.rooms == s.rooms[msg.roomId.value := msg.createdAt]
    ensures HasAppended(s', c, msg) && forall d :: d in s.calls ==> s'.calls[d] == s.calls[d]
  {
    var mid := BeginOne(start, s, c, msg);
    var row := msg.(seqNo := Top(s.messages, msg.roomId.value) + 1);
    assert RowOf(mid.calls[c]) == row;
    assert Insertable(mid, row);
    s' := CommitAlone(start, mid, c);
  }

  /** A message appended by call 0 at time 2, ... */
  lemma AppendFirst() returns (s: State)
    ensures Reaches(State([], map[], {}, map[], {}), s)
    ensures s.messages == [Sample(2).(createdAt := 2, seqNo := 1)] && Top(s.messages, Uuid(1)) == 1
    ensures s.conversations == {Uuid(1)} && s.rooms == map[Uuid(1) := 2]
    ensures s.calls.Keys == {0} && !Holds(s.calls[0]) && HasAppended(s, 0, Sample(2).(createdAt := 2))
  {
    var s0 := EmptyRoom();
    s := AppendOne(State([], map[], {}, map[], {}), s0, 0, Sample(2).(createdAt := 2));
    var row := Sample(2).(createdAt := 2, seqNo := 1);
    TopOfAppend([], row, Uuid(1));
    assert [] + [row] == [row] == s.messages;
  }

  /** ... and another one by call 1 at time 3. */
  lemma AppendTwo() returns (s: State)
    ensures Reaches(State([], map[], {}, map[], {}), s)
    ensures s.messages == [Sample(2).(createdAt := 2, seqNo := 1), Sample(3).(createdAt := 3, seqNo := 2)]
    ensures forall d :: d in s.calls ==> !Holds(s.calls[d])
    ensures HasAppended(s, 0, Sample(2).(createdAt := 2)) && HasAppended(s, 1, Sample(3).(createdAt := 3))
  {
    var s1 := AppendFirst();
    var row := Sample(3).(createdAt := 3, seqNo := 2);
    assert !Conflicts(s1.messages[0], row);
    assert References(s1, row);
    s := AppendOne(State([], map[], {}, map[], {}), s1, 1, Sample(3).(createdAt := 3));
  }

  /**
   Each caller follows its append by an upsert of the room's header with its own message's time. When
   the two upserts come in the other order than the commits, the room shows the time of the older message.
   */
  lemma StaleUpsertWins() returns (states: seq<State>, steps: seq<Step>, first: nat, second: nat)
    ensures IsRun(states, steps) && first < |steps| && second < |steps|
    ensures steps[first] == UpsertAfter(1) && steps[second] == UpsertAfter(0)
    ensures var s := states[|steps|];
            && |s.messages| == 2 && s.messages[0].createdAt < s.messages[1].createdAt
            && s.messages[0].seqNo == 1 && s.messages[1].seqNo == 2
            && HasAppended(s, 0, s.messages[0].(seqNo := 0)) && HasAppended(s, 1, s.messages[1].(seqNo := 0))
            && Uuid(1) in s.rooms && s.rooms[Uuid(1)] == s.messages[0].createdAt
  {
    var empty := State([], map[], {}, map[], {});
    var s := AppendTwo();
    states, steps :| IsPath(states, steps) && NoFail(steps) && states[0] == empty && states[|steps|] == s;
    states, steps := Onward(states, steps, UpsertAfter(1));
    first := |steps| - 1;
    states, steps := Onward(states, steps, UpsertAfter(0));
    second := |steps| - 1;
  }

  /** The call has succeeded with this message. */
  predicate HasAppended(s: State, c: CallId, msg: DbMessage) {
    c in s.calls && s.calls[c].msg == msg && s.calls[c].stage.Returned? && s.calls[c].stage.result.Success?
  }

  lemma Onward(states: seq<State>, steps: seq<Step>, step: Step) returns (states': seq<State>, steps': seq<Step>)
    requires IsPath(states, steps) && Enabled(states[|steps|], step)
    ensures IsPath(states', steps') && steps' == steps + [step]
    ensures states' == states + [Apply(states[|steps|], step)]
  {
    states', steps' := states + [Apply(states[|steps|], step)], steps + [step];
    forall i | 0 <= i < |steps'|
      ensures Follows(states', steps', i)
    {
      if i < |steps| {
        assert Follows(states, steps, i);
      }
    }
  }
}
