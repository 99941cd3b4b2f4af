/**
 Queries and statements over table `messages`. A table value lists its rows in commit order, so
 "appended later" is "stands further right".
 */
module MessageTable {
  import opened Wrappers
  import opened Rows

  type Table = seq<DbMessage>

  predicate InRoom(row: DbMessage, room: Uuid) {
    row.roomId == Some(room)
  }

  /** `COALESCE(MAX(seq), 0)` over the rows of one room, given that no stored `seq` is negative. */
  function Top(ms: Table, room: Uuid): (top: int)
    ensures top >= 0
  {
    if ms == [] then 0
    else
      var rest := Top(ms[..|ms| - 1], room);
      var row := ms[|ms| - 1];
      if InRoom(row, room) && row.seqNo > rest then row.seqNo else rest
  }

  /** The rows of one room that carry a server-side sequence number, in commit order. */
  function Sequenced(ms: Table, room: Uuid): seq<DbMessage> {
    if ms == [] then []
    else
      var row := ms[|ms| - 1];
      Sequenced(ms[..|ms| - 1], room) + (if InRoom(row, room) && row.seqNo > 0 then [row] else [])
  }

  /** Some row of the room stores this sequence number. */
  ghost predicate HasSeq(ms: Table, room: Uuid, k: int) {
    exists i :: 0 <= i < |ms| && InRoom(ms[i], room) && ms[i].seqNo == k
  }

  /** The positive sequence numbers of the room are exactly 1 .. Top. */
  ghost predicate Gapless(ms: Table, room: Uuid) {
    forall k :: 1 <= k <= Top(ms, room) ==> HasSeq(ms, room, k)
  }

  /** The i-th row carries number i + 1. */
  ghost predicate CountsUp(rows: seq<DbMessage>) {
    forall i :: 0 <= i < |rows| ==> rows[i].seqNo == i + 1
  }

  /** Two rows carry the same number. */
  ghost predicate Repeats(rows: seq<DbMessage>) {
    exists i, j :: 0 <= i < j < |rows| && rows[i].seqNo == rows[j].seqNo
  }

  /** The i-th sequenced row of the room carries number i + 1: numbering is append order. */
  ghost predicate NumberedInOrder(ms: Table, room: Uuid) {
    CountsUp(Sequenced(ms, room))
  }

  /** Two sequenced rows of the room carry the same number. */
  ghost predicate HasDuplicate(ms: Table, room: Uuid) {
    Repeats(Sequenced(ms, room))
  }

  /**
   What the primary key and the partial unique index on (room, client id) refuse: an equal id,
   or an equal non-null client id in the same room (a null room equals nothing).
   */
  predicate Conflicts(a: DbMessage, b: DbMessage) {
    || a.id == b.id
    || (a.roomId.Some? && a.roomId == b.roomId && a.clientMessageId.Some? && a.clientMessageId == b.clientMessageId)
  }

  /** Both unique indexes hold. */
  predicate Indexed(ms: Table) {
    forall i, j :: 0 <= i < j < |ms| ==> !Conflicts(ms[i], ms[j])
  }

  /** A row as `MessageRepo::insert` callers write it: no room, `seq` 0, no client id. */
  predicate IsLegacy(row: DbMessage) {
    row.roomId == None && row.seqNo == 0 && row.clientMessageId == None
  }

  /** Numbers are never negative, and a row without a room is a legacy row. */
  ghost predicate Numbered(ms: Table) {
    forall i :: 0 <= i < |ms| ==> ms[i].seqNo >= 0 && (ms[i].roomId == None ==> IsLegacy(ms[i]))
  }

  /** One row under the third backfill statement. */
  function BackfilledRow(row: DbMessage, rooms: set<Uuid>): DbMessage {
    if row.roomId == None && row.conversationId in rooms then row.(roomId := Some(row.conversationId)) else row
  }

  /** `UPDATE messages SET room_id = conversation_id WHERE room_id IS NULL AND EXISTS (room)`. */
  function Backfilled(ms: Table, rooms: set<Uuid>): Table {
    seq(|ms|, i requires 0 <= i < |ms| => BackfilledRow(ms[i], rooms))
  }

  // Facts about appending one row.

  lemma TopOfAppend(ms: Table, row: DbMessage, room: Uuid)
    ensures Top(ms + [row], room) ==
            if InRoom(row, room) && row.seqNo > Top(ms, room) then row.seqNo else Top(ms, room)
  {
    assert (ms + [row])[..|ms|] == ms;
  }

  lemma SequencedOfAppend(ms: Table, row: DbMessage, room: Uuid)
    ensures Sequenced(ms + [row], room) ==
            Sequenced(ms, room) + if InRoom(row, room) && row.seqNo > 0 then [row] else []
  {
    assert (ms + [row])[..|ms|] == ms;
  }

  /** `Top` bounds every stored number of the room. */
  lemma {:induction false} TopBounds(ms: Table, room: Uuid, i: int)
    requires 0 <= i < |ms| && InRoom(ms[i], room)
    ensures ms[i].seqNo <= Top(ms, room)
  {
    if i < |ms| - 1 {
      TopBounds(ms[..|ms| - 1], room, i);
    }
  }

  /** A positive `Top` is itself a stored number. */
  lemma {:induction false} TopIsStored(ms: Table, room: Uuid)
    requires Top(ms, room) > 0
    ensures HasSeq(ms, room, Top(ms, room))
  {
    var init, last := ms[..|ms| - 1], ms[|ms| - 1];
    if !(InRoom(last, room) && last.seqNo > Top(init, room)) {
      TopIsStored(init, room);
      var i :| 0 <= i < |init| && InRoom(init[i], room) && init[i].seqNo == Top(init, room);
      assert ms[i] == init[i];
    }
  }

  /** `Sequenced` holds exactly the room's rows with a positive number. */
  lemma {:induction false} SequencedMembers(ms: Table, room: Uuid, row: DbMessage)
    ensures row in Sequenced(ms, room) <==> row in ms && InRoom(row, room) && row.seqNo > 0
  {
    if ms != [] {
      var init := ms[..|ms| - 1];
      SequencedMembers(init, room, row);
      assert ms == init + [ms[|ms| - 1]];
    }
  }

  /** In a room numbered in append order, the count of sequenced rows is the highest number. */
  lemma {:induction false} TopOfOrdered(ms: Table, room: Uuid)
    requires NumberedInOrder(ms, room)
    ensures Top(ms, room) == |Sequenced(ms, room)|
  {
    if ms != [] {
      var init, last := ms[..|ms| - 1], ms[|ms| - 1];
      var rows, before := Sequenced(ms, room), Sequenced(init, room);
      assert forall i :: 0 <= i < |before| ==> before[i] == rows[i];
      assert CountsUp(before);
      TopOfOrdered(init, room);
      if InRoom(last, room) && last.seqNo > 0 {
        assert rows[|before|] == last;
      }
    }
  }

  /** The backfill gives rooms only to rows numbered 0, so no room's numbering changes. */
  lemma {:induction false} BackfillKeepsNumbering(ms: Table, rooms: set<Uuid>, room: Uuid)
    requires Numbered(ms)
    ensures Top(Backfilled(ms, rooms), room) == Top(ms, room)
    ensures Sequenced(Backfilled(ms, rooms), room) == Sequenced(ms, room)
  {
    if ms != [] {
      var init := ms[..|ms| - 1];
      BackfillKeepsNumbering(init, rooms, room);
      assert Backfilled(ms, rooms)[..|ms| - 1] == Backfilled(init, rooms);
    }
  }

  /** The backfill keeps both indexes and the shape of rows: it moves only rows without a client id. */
  lemma BackfillKeepsIndexes(ms: Table, rooms: set<Uuid>)
    requires Numbered(ms) && Indexed(ms)
    ensures Numbered(Backfilled(ms, rooms)) && Indexed(Backfilled(ms, rooms))
  {
    var after := Backfilled(ms, rooms);
    forall i, j | 0 <= i < j < |after|
      ensures !Conflicts(after[i], after[j])
    {
      assert !Conflicts(ms[i], ms[j]);
    }
  }

  /** The backfill keeps every number that was stored in a room. */
  lemma BackfillKeepsSeq(ms: Table, rooms: set<Uuid>, room: Uuid, k: int)
    requires HasSeq(ms, room, k)
    ensures HasSeq(Backfilled(ms, rooms), room, k)
  {
    var i :| 0 <= i < |ms| && InRoom(ms[i], room) && ms[i].seqNo == k;
    assert Backfilled(ms, rooms)[i] == ms[i];
  }
}
