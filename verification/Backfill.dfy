/**
 The data statements of the schema migration: rooms for conversations, leaders for rooms, rooms for
 messages. Each statement commits by itself; `run_migrations` stops at the first that fails.
 */
module Backfill {
  import opened Wrappers
  import opened Json
  import opened Rows
  import opened MessageTable

  datatype Conversation = Conversation(agentId: Uuid, metadata: Json, startedAt: Time, lastMessageAt: Time)

  /** The unique key of `room_participants`. */
  datatype Seat = Seat(room: Uuid, kind: string, who: string)

  datatype Tables = Tables(
    conversations: map<Uuid, Conversation>,
    rooms: map<Uuid, DbRoom>,
    seats: map<Seat, string>,
    messages: Table)

  datatype Statement = LinkRooms | SeatLeaders | PlaceMessages

  const STATEMENTS: seq<Statement> := [LinkRooms, SeatLeaders, PlaceMessages]

  /** How the database writes a JSON value and a UUID as text. */
  datatype Text = Text(json: Json -> string, uuid: Uuid -> string)

  /** `metadata->>key`: null when absent or JSON null, a string unquoted, anything else as JSON text. */
  function TextAt(text: Text, metadata: Json, key: string): Option<string> {
    match Get(metadata, key)
    case None => None
    case Some(Null) => None
    case Some(Str(s)) => Some(s)
    case Some(v) => Some(text.json(v))
  }

  /** Some room is linked to this conversation. */
  predicate Linked(rooms: map<Uuid, DbRoom>, conversation: Uuid) {
    exists r :: r in rooms && rooms[r].conversationId == Some(conversation)
  }

  function Unlinked(t: Tables): set<Uuid> {
    set c | c in t.conversations && !Linked(t.rooms, c)
  }

  /** The room inserted for a conversation: same id, kind `direct`. */
  function RoomFor(text: Text, id: Uuid, c: Conversation): DbRoom {
    DbRoom(id, TextAt(text, c.metadata, "tenant_id").GetOr("default"), Some(id), TextAt(text, c.metadata, "title"),
           "direct", "single", None, None, "public", c.metadata, Some(c.agentId),
           c.startedAt, c.startedAt, c.lastMessageAt)
  }

  function LeaderSeat(text: Text, room: DbRoom): Option<Seat> {
    match room.primaryAgentId
    case None => None
    case Some(agent) => Some(Seat(room.id, "agent", text.uuid(agent)))
  }

  /** Leaders that are named by a room and not yet seated. */
  function MissingLeaders(text: Text, t: Tables): set<Seat> {
    set r | r in t.rooms && LeaderSeat(text, t.rooms[r]).Some? && LeaderSeat(text, t.rooms[r]).value !in t.seats
      :: LeaderSeat(text, t.rooms[r]).value
  }

  /** One statement: the tables after it, or nothing if a unique index refuses it. */
  function Execute(text: Text, t: Tables, statement: Statement): Option<Tables> {
    match statement
    case LinkRooms =>
      if Unlinked(t) * t.rooms.Keys != {} then None
      else Some(t.(rooms := t.rooms + map c | c in Unlinked(t) :: RoomFor(text, c, t.conversations[c])))
    case SeatLeaders => Some(t.(seats := t.seats + map s | s in MissingLeaders(text, t) :: "leader"))
    case PlaceMessages =>
      var placed := Backfilled(t.messages, t.rooms.Keys);
      if Indexed(placed) then Some(t.(messages := placed)) else None
  }

  /** Statements in order up to the first refusal; what ran before it stays. */
  function ExecuteAll(text: Text, t: Tables, statements: seq<Statement>): (Tables, bool)
    decreases |statements|
  {
    if statements == [] then (t, true)
    else
      match Execute(text, t, statements[0])
      case None => (t, false)
      case Some(next) => ExecuteAll(text, next, statements[1..])
  }

  class Database {
    var tables: Tables

    constructor (t: Tables)
      ensures tables == t
    {
      tables := t;
    }

    /** `run_migrations`, over the data statements. */
    method RunMigrations(text: Text) returns (ok: bool)
      modifies this
      ensures (tables, ok) == ExecuteAll(text, old(tables), STATEMENTS)
    {
      var i := 0;
      while i < |STATEMENTS|
        invariant 0 <= i <= |STATEMENTS|
        invariant ExecuteAll(text, tables, STATEMENTS[i..]) == ExecuteAll(text, old(tables), STATEMENTS)
      {
        assert STATEMENTS[i..][0] == STATEMENTS[i] && STATEMENTS[i..][1..] == STATEMENTS[i + 1..];
        match Execute(text, tables, STATEMENTS[i])
        case None => return false;
        case Some(next) => tables := next;
        i := i + 1;
      }
      return true;
    }
  }

  /** What the table constraints and the writers of `messages` guarantee before a migration. */
  ghost predicate Sound(t: Tables) {
    && Numbered(t.messages) && Indexed(t.messages)
    && (forall r :: r in t.rooms ==> t.rooms[r].id == r)
    && forall room :: Gapless(t.messages, room)
  }

  /** The three statements by name. */
  lemma Unfold(text: Text, t: Tables)
    ensures ExecuteAll(text, t, STATEMENTS) ==
            match Execute(text, t, LinkRooms)
            case None => (t, false)
            case Some(t1) =>
              match Execute(text, t1, SeatLeaders)
              case None => (t1, false)
              case Some(t2) =>
                match Execute(text, t2, PlaceMessages)
                case None => (t2, false)
                case Some(t3) => (t3, true)
  {
    assert STATEMENTS[1..] == [SeatLeaders, PlaceMessages];
    assert STATEMENTS[1..][1..] == [PlaceMessages];
    assert STATEMENTS[1..][1..][1..] == [];
  }

  /**
   The migration succeeds exactly when no conversation without a linked room has an id that some
   room already uses; when it fails it changes nothing.
   */
  lemma SucceedsIff(text: Text, t: Tables)
    requires Sound(t)
    ensures ExecuteAll(text, t, STATEMENTS).1 <==>
            forall c :: c in t.conversations && c in t.rooms ==> Linked(t.rooms, c)
    ensures !ExecuteAll(text, t, STATEMENTS).1 ==> ExecuteAll(text, t, STATEMENTS).0 == t
  {
    Unfold(text, t);
    if Unlinked(t) * t.rooms.Keys == {} {
      forall c | c in t.conversations && c in t.rooms
        ensures Linked(t.rooms, c)
      {
        assert c !in Unlinked(t) * t.rooms.Keys;
      }
      var t1 := Execute(text, t, LinkRooms).value;
      BackfillKeepsIndexes(t.messages, t1.rooms.Keys);
    } else {
      var c :| c in Unlinked(t) * t.rooms.Keys;
    }
  }

  /** A group room and a conversation of the same id, not linked to each other: the migration is refused. */
  lemma SharedIdIsRefused(text: Text) returns (t: Tables)
    ensures Sound(t) && ExecuteAll(text, t, STATEMENTS) == (t, false)
  {
    var id := Uuid(1);
    var room := DbRoom(id, "default", None, None, "group", "single", None, None, "public", Null, None, 0, 0, 0);
    t := Tables(map[id := Conversation(Uuid(2), Null, 0, 0)], map[id := room], map[], []);
    assert !Linked(t.rooms, id);
    SucceedsIff(text, t);
  }

  /** Nothing is left for the statements to do. */
  ghost predicate Settled(text: Text, t: Tables) {
    && (forall c :: c in t.conversations ==> Linked(t.rooms, c))
    && (forall r :: r in t.rooms && LeaderSeat(text, t.rooms[r]).Some? ==> LeaderSeat(text, t.rooms[r]).value in t.seats)
    && (forall i :: 0 <= i < |t.messages| && t.messages[i].roomId == None ==> t.messages[i].conversationId !in t.rooms)
  }

  /** What stood before is untouched, apart from messages given a room. */
  ghost predicate Extends(t: Tables, t': Tables) {
    && t'.conversations == t.conversations
    && (forall r :: r in t.rooms ==> r in t'.rooms && t'.rooms[r] == t.rooms[r])
    && (forall s :: s in t.seats ==> s in t'.seats && t'.seats[s] == t.seats[s])
    && |t'.messages| == |t.messages|
    && (forall i :: 0 <= i < |t.messages| && t.messages[i].roomId.Some? ==> t'.messages[i] == t.messages[i])
    && (forall i :: 0 <= i < |t.messages| && t.messages[i].roomId.None? && t.messages[i].conversationId in t'.rooms
          ==> t'.messages[i] == t.messages[i].(roomId := Some(t.messages[i].conversationId)))
    && (forall i :: 0 <= i < |t.messages| && t.messages[i].roomId.None? && t.messages[i].conversationId !in t'.rooms
          ==> t'.messages[i] == t.messages[i])
  }

  lemma LinkSettles(text: Text, t: Tables)
    requires Execute(text, t, LinkRooms).Some?
    ensures var t1 := Execute(text, t, LinkRooms).value;
            forall c :: c in t1.conversations ==> Linked(t1.rooms, c)
  {
    var t1 := Execute(text, t, LinkRooms).value;
    forall c | c in t1.conversations
      ensures Linked(t1.rooms, c)
    {
      if c in Unlinked(t) {
        assert t1.rooms[c].conversationId == Some(c);
      } else {
        var r :| r in t.rooms && t.rooms[r].conversationId == Some(c);
        assert r !in Unlinked(t) * t.rooms.Keys;
        assert t1.rooms[r] == t.rooms[r];
      }
    }
  }

  /** The tables after each of the three statements. */
  lemma Stages(text: Text, t: Tables) returns (t1: Tables, t2: Tables, t3: Tables)
    requires ExecuteAll(text, t, STATEMENTS).1
    ensures Execute(text, t, LinkRooms) == Some(t1)
    ensures Execute(text, t1, SeatLeaders) == Some(t2) && t2.rooms == t1.rooms
    ensures Execute(text, t2, PlaceMessages) == Some(t3) && t3 == ExecuteAll(text, t, STATEMENTS).0
    ensures t1.messages == t2.messages == t.messages && t3.messages == Backfilled(t.messages, t1.rooms.Keys)
    ensures t1.conversations == t2.conversations == t3.conversations == t.conversations
    ensures t3.rooms == t1.rooms && t3.seats == t2.seats && t1.seats == t.seats
  {
    Unfold(text, t);
    t1 := Execute(text, t, LinkRooms).value;
    t2 := Execute(text, t1, SeatLeaders).value;
    t3 := Execute(text, t2, PlaceMessages).value;
  }

  /**
   A successful migration links every conversation to a room, seats every named leader, gives a
   room to every message whose conversation has one, keeps everything else, and leaves the
   numbering of every room as it was.
   */
  lemma SuccessSettles(text: Text, t: Tables)
    requires Sound(t) && ExecuteAll(text, t, STATEMENTS).1
    ensures var t' := ExecuteAll(text, t, STATEMENTS).0;
            Settled(text, t') && Extends(t, t') && Sound(t')
    ensures forall room :: Sequenced(ExecuteAll(text, t, STATEMENTS).0.messages, room) == Sequenced(t.messages, room)
  {
    var t1, t2, t3 := Stages(text, t);
    assert Settled(text, t3) by {
      LinkSettles(text, t);
      LeadersSettle(text, t1);
      MessagesPlaced(t.messages, t1.rooms.Keys);
    }
    assert Extends(t, t3) by {
      LeadersSettle(text, t1);
      RoomsKept(text, t);
      MessagesPlaced(t.messages, t1.rooms.Keys);
    }
    RoomsKept(text, t);
    NumberingKept(t.messages, t1.rooms.Keys);
  }

  /** Each conversation that had no room has one now, led by its agent and with its activity time. */
  ghost predicate RoomsMade(t: Tables, t': Tables) {
    && t'.rooms.Keys == t.rooms.Keys + Unlinked(t)
    && forall c :: c in Unlinked(t) ==>
         && t'.rooms[c].conversationId == Some(c) && t'.rooms[c].roomType == "direct"
         && t'.rooms[c].primaryAgentId == Some(t.conversations[c].agentId)
         && t'.rooms[c].lastMessageAt == t.conversations[c].lastMessageAt
  }

  /** Each new seat is that of a leader some room names. */
  ghost predicate SeatsMade(text: Text, t: Tables, t': Tables) {
    forall s :: s in t'.seats && s !in t.seats ==>
      t'.seats[s] == "leader" && exists r :: r in t'.rooms && LeaderSeat(text, t'.rooms[r]) == Some(s)
  }

  /**
   The text column that a conversation's metadata give under a key: the string itself, or nothing when
   the key is absent or null, or the JSON text of any other value.
   */
  ghost predicate IsTextOf(text: Text, metadata: Json, key: string, column: Option<string>) {
    && (forall s :: Binds(metadata, key, Str(s)) ==> column == Some(s))
    && (Absent(metadata, key) || Binds(metadata, key, Null) ==> column == None)
    && (forall x :: Binds(metadata, key, x) && !x.Str? && !x.Null? ==> column == Some(text.json(x)))
  }

  lemma TextIsThat(text: Text, metadata: Json, key: string)
    ensures IsTextOf(text, metadata, key, TextAt(text, metadata, key))
  {
    forall s | Binds(metadata, key, Str(s))
      ensures TextAt(text, metadata, key) == Some(s)
    {
      GetIff(metadata, key, Str(s));
    }
    GetIff(metadata, key, Null);
    forall x | Binds(metadata, key, x) && !x.Str? && !x.Null?
      ensures TextAt(text, metadata, key) == Some(text.json(x))
    {
      GetIff(metadata, key, x);
    }
  }

  /** The room of a conversation that had none, column by column. */
  ghost predicate IsRoomOf(text: Text, id: Uuid, c: Conversation, room: DbRoom) {
    && room.id == id && room.conversationId == Some(id) && room.primaryAgentId == Some(c.agentId)
    && room.roomType == "direct" && room.orchestrationMode == "single" && room.visibility == "public"
    && room.metadata == c.metadata && room.swarmPattern == None && room.parentRoomId == None
    && room.createdAt == c.startedAt && room.updatedAt == c.startedAt && room.lastMessageAt == c.lastMessageAt
    && IsTextOf(text, c.metadata, "title", room.title)
    && exists tenant :: IsTextOf(text, c.metadata, "tenant_id", tenant)
         && room.tenantId == (if tenant.Some? then tenant.value else "default")
  }

  /**
   Every room a successful migration makes stands in its conversation's tenant, "default" if the
   metadata name none, under its title, with its agent, its metadata and its times.
   */
  lemma NewRoomsFollowConversations(text: Text, t: Tables, c: Uuid)
    requires ExecuteAll(text, t, STATEMENTS).1 && c in Unlinked(t)
    ensures var t' := ExecuteAll(text, t, STATEMENTS).0;
            c in t'.rooms && IsRoomOf(text, c, t.conversations[c], t'.rooms[c])
  {
    var t1, t2, t3 := Stages(text, t);
    var metadata := t.conversations[c].metadata;
    TextIsThat(text, metadata, "title");
    TextIsThat(text, metadata, "tenant_id");
    assert IsTextOf(text, metadata, "tenant_id", TextAt(text, metadata, "tenant_id"));
  }

  /** In particular a string at `tenant_id` is the tenant, and without one it is "default". */
  lemma TenantOfNewRoom(text: Text, t: Tables, c: Uuid, tenant: string)
    requires ExecuteAll(text, t, STATEMENTS).1 && c in Unlinked(t)
    ensures var t', metadata := ExecuteAll(text, t, STATEMENTS).0, t.conversations[c].metadata;
            && c in t'.rooms
            && (Binds(metadata, "tenant_id", Str(tenant)) ==> t'.rooms[c].tenantId == tenant)
            && (Absent(metadata, "tenant_id") || Binds(metadata, "tenant_id", Null) ==> t'.rooms[c].tenantId == "default")
  {
    NewRoomsFollowConversations(text, t, c);
  }

  /** A room's leading agent is seated as an agent, by the text form of its id. */
  lemma LeadersAreSeated(text: Text, t: Tables, r: Uuid)
    requires Sound(t) && ExecuteAll(text, t, STATEMENTS).1
    ensures var t' := ExecuteAll(text, t, STATEMENTS).0;
            r in t'.rooms && t'.rooms[r].primaryAgentId.Some? ==>
              Seat(r, "agent", text.uuid(t'.rooms[r].primaryAgentId.value)) in t'.seats
  {
    SuccessSettles(text, t);
    var t' := ExecuteAll(text, t, STATEMENTS).0;
    if r in t'.rooms && t'.rooms[r].primaryAgentId.Some? {
      assert LeaderSeat(text, t'.rooms[r]).value in t'.seats;
    }
  }

  lemma LinkMakesRooms(text: Text, t: Tables)
    requires Execute(text, t, LinkRooms).Some?
    ensures RoomsMade(t, Execute(text, t, LinkRooms).value)
  {
  }

  lemma SeatingMakesSeats(text: Text, t: Tables)
    ensures SeatsMade(text, t, Execute(text, t, SeatLeaders).value)
  {
    var t2 := Execute(text, t, SeatLeaders).value;
    forall s | s in t2.seats && s !in t.seats
      ensures t2.seats[s] == "leader" && exists r :: r in t2.rooms && LeaderSeat(text, t2.rooms[r]) == Some(s)
    {
      assert s in MissingLeaders(text, t);
      var r :| r in t.rooms && LeaderSeat(text, t.rooms[r]) == Some(s);
    }
  }

  /** A successful migration makes these rooms and seats, and no others. */
  lemma OnlyTheseAppear(text: Text, t: Tables)
    requires ExecuteAll(text, t, STATEMENTS).1
    ensures RoomsMade(t, ExecuteAll(text, t, STATEMENTS).0)
    ensures SeatsMade(text, t, ExecuteAll(text, t, STATEMENTS).0)
  {
    var t1, t2, t3 := Stages(text, t);
    LinkMakesRooms(text, t);
    SeatingMakesSeats(text, t1);
  }

  /** A message without a room gets its conversation's room if there is one; no other message changes. */
  lemma MessagesPlaced(ms: Table, rooms: set<Uuid>)
    ensures var after := Backfilled(ms, rooms);
            && |after| == |ms|
            && (forall i :: 0 <= i < |ms| && after[i].roomId == None ==> after[i].conversationId !in rooms)
            && (forall i :: 0 <= i < |ms| && ms[i].roomId.Some? ==> after[i] == ms[i])
            && (forall i :: 0 <= i < |ms| && ms[i].roomId.None? && ms[i].conversationId in rooms
                  ==> after[i] == ms[i].(roomId := Some(ms[i].conversationId)))
            && (forall i :: 0 <= i < |ms| && ms[i].roomId.None? && ms[i].conversationId !in rooms ==> after[i] == ms[i])
  {
  }

  lemma LeadersSettle(text: Text, t: Tables)
    ensures var t2 := Execute(text, t, SeatLeaders).value;
            && (forall r :: r in t.rooms && LeaderSeat(text, t.rooms[r]).Some? ==>
                  LeaderSeat(text, t.rooms[r]).value in t2.seats)
            && (forall s :: s in t.seats ==> s in t2.seats && t2.seats[s] == t.seats[s])
  {
    var t2 := Execute(text, t, SeatLeaders).value;
    forall r | r in t.rooms && LeaderSeat(text, t.rooms[r]).Some?
      ensures LeaderSeat(text, t.rooms[r]).value in t2.seats
    {
      var s := LeaderSeat(text, t.rooms[r]).value;
      assert s in t.seats || s in MissingLeaders(text, t);
    }
  }

  lemma RoomsKept(text: Text, t: Tables)
    requires Execute(text, t, LinkRooms).Some? && forall r :: r in t.rooms ==> t.rooms[r].id == r
    ensures var t1 := Execute(text, t, LinkRooms).value;
            && (forall r :: r in t.rooms ==> r in t1.rooms && t1.rooms[r] == t.rooms[r])
            && (forall r :: r in t1.rooms ==> t1.rooms[r].id == r)
  {
    forall r | r in t.rooms
      ensures r !in Unlinked(t)
    {
      assert r !in Unlinked(t) * t.rooms.Keys;
    }
  }

  lemma NumberingKept(ms: Table, rooms: set<Uuid>)
    requires Numbered(ms) && Indexed(ms) && forall room :: Gapless(ms, room)
    ensures var after := Backfilled(ms, rooms);
            && Numbered(after) && Indexed(after)
            && forall room :: Gapless(after, room) && Sequenced(after, room) == Sequenced(ms, room)
  {
    var after := Backfilled(ms, rooms);
    BackfillKeepsIndexes(ms, rooms);
    forall room
      ensures Gapless(after, room) && Sequenced(after, room) == Sequenced(ms, room)
    {
      BackfillKeepsNumbering(ms, rooms, room);
      forall k | 1 <= k <= Top(after, room)
        ensures HasSeq(after, room, k)
      {
        assert Gapless(ms, room);
        BackfillKeepsSeq(ms, rooms, room, k);
      }
    }
  }

  /** Running a successful migration again changes nothing. */
  lemma Idempotent(text: Text, t: Tables)
    requires Sound(t) && ExecuteAll(text, t, STATEMENTS).1
    ensures var t' := ExecuteAll(text, t, STATEMENTS).0;
            ExecuteAll(text, t', STATEMENTS) == (t', true)
  {
    SuccessSettles(text, t);
    SettledIsFixed(text, ExecuteAll(text, t, STATEMENTS).0);
  }

  /** A settled database is a fixed point of each statement, ... */
  lemma NothingToLink(text: Text, t: Tables)
    requires forall c :: c in t.conversations ==> Linked(t.rooms, c)
    ensures Execute(text, t, LinkRooms) == Some(t)
  {
    assert Unlinked(t) == {};
    assert Execute(text, t, LinkRooms).value.rooms == t.rooms;
  }

  lemma NothingToSeat(text: Text, t: Tables)
    requires forall r :: r in t.rooms && LeaderSeat(text, t.rooms[r]).Some? ==> LeaderSeat(text, t.rooms[r]).value in t.seats
    ensures Execute(text, t, SeatLeaders) == Some(t)
  {
    assert MissingLeaders(text, t) == {};
    assert Execute(text, t, SeatLeaders).value.seats == t.seats;
  }

  lemma NothingToPlace(text: Text, t: Tables)
    requires Indexed(t.messages)
    requires forall i :: 0 <= i < |t.messages| && t.messages[i].roomId == None ==> t.messages[i].conversationId !in t.rooms
    ensures Execute(text, t, PlaceMessages) == Some(t)
  {
    assert forall i :: 0 <= i < |t.messages| ==> BackfilledRow(t.messages[i], t.rooms.Keys) == t.messages[i];
    assert Backfilled(t.messages, t.rooms.Keys) == t.messages;
  }

  /** ... and of the migration. */
  lemma SettledIsFixed(text: Text, t: Tables)
    requires Settled(text, t) && Indexed(t.messages)
    ensures ExecuteAll(text, t, STATEMENTS) == (t, true)
  {
    Unfold(text, t);
    NothingToLink(text, t);
    NothingToSeat(text, t);
    NothingToPlace(text, t);
  }
}
