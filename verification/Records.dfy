/** Gateway records, the rows they become, and what survives the way there and back. */
module Records {
  import opened Wrappers
  import opened Json
  import opened Rows
  import opened MessageTable
  import opened RoomStore
  import Paging

  datatype RoomMessageRecord = RoomMessageRecord(
    id: string,
    roomId: string,
    seqNo: nat,
    senderType: string,
    senderId: string,
    clientMessageId: Option<string>,
    content: string,
    mentions: seq<string>,
    visibility: string,
    threadId: Option<string>,
    createdAt: Time)

  datatype Participant = Participant(participantId: string, participantType: string, role: string, joinedAt: Time)

  datatype SideThread = SideThread(
    id: string,
    roomId: string,
    title: Option<string>,
    participantIds: seq<string>,
    createdBy: string,
    createdAt: Time)

  datatype RoomRecord = RoomRecord(
    id: string,
    tenantId: string,
    roomType: string,
    orchestrationMode: Option<string>,
    orchestrationConfig: Option<Json>,
    participants: seq<Participant>,
    messages: seq<RoomMessageRecord>,
    sideThreads: seq<SideThread>,
    createdBy: string,
    createdAt: Time,
    updatedAt: Time)

  /** Text forms of UUIDs and times; their grammars are not part of this model. */
  datatype Codec = Codec(
    parse: string -> Option<Uuid>,
    show: Uuid -> string,
    showTime: Time -> string,
    readTime: string -> Option<Time>)

  /** What is printed reads back. */
  ghost predicate Faithful(codec: Codec) {
    && (forall u :: codec.parse(codec.show(u)) == Some(u))
    && (forall t :: codec.readTime(codec.showTime(t)) == Some(t))
  }

  /** The string is a UUID in the form the codec prints. */
  predicate Canonical(codec: Codec, s: string) {
    codec.parse(s).Some? && codec.show(codec.parse(s).value) == s
  }

  function OptionalStr(s: Option<string>): Json {
    match s
    case None => Null
    case Some(text) => Str(text)
  }

  // Messages.

  /** The fields of a stored message's content. */
  function ContentOf(msg: RoomMessageRecord): seq<(string, Json)> {
    [("text", Str(msg.content)), ("mentions", FromStrings(msg.mentions)), ("thread_id", OptionalStr(msg.threadId))]
  }

  /** `room_message_to_db`; `freshRoom` and `freshId` are the random UUIDs used for ids that do not parse. */
  function MessageToDb(codec: Codec, msg: RoomMessageRecord, freshRoom: Uuid, freshId: Uuid): DbMessage {
    var room := codec.parse(msg.roomId).GetOr(freshRoom);
    var agent := msg.senderType == "agent";
    DbMessage(
      codec.parse(msg.id).GetOr(freshId), room, Some(room), 0,
      if agent then "assistant" else "user",
      Obj(ContentOf(msg)),
      Some(msg.senderType), Some(msg.senderId),
      if agent then "agent_text" else "user_text",
      msg.visibility,
      if msg.threadId.Some? then codec.parse(msg.threadId.value) else None,
      FromStrings(msg.mentions),
      if msg.clientMessageId.Some? then codec.parse(msg.clientMessageId.value) else None,
      msg.createdAt)
  }

  /** The mention list of a row: from its content, else from its target agents, else empty. */
  function MentionsOf(row: DbMessage): seq<string> {
    var inContent := match Get(row.content, "mentions") case Some(v) => ToStrings(v) case None => None;
    if inContent.Some? then inContent.value else ToStrings(row.targetAgentIds).GetOr([])
  }

  /** `room_message_from_db`. */
  function MessageFromDb(codec: Codec, row: DbMessage): RoomMessageRecord {
    RoomMessageRecord(
      codec.show(row.id),
      match row.roomId case Some(room) => codec.show(room) case None => "",
      if row.seqNo >= 0 then row.seqNo else 0,
      row.senderType.GetOr("user"),
      row.senderId.GetOr(""),
      match row.clientMessageId case Some(id) => Some(codec.show(id)) case None => None,
      AsStr(Get(row.content, "text")).GetOr(""),
      MentionsOf(row),
      row.visibility,
      AsStr(Get(row.content, "thread_id")),
      row.createdAt)
  }

  /**
   The columns that no record reads back. An agent's message is the assistant's, any other is the
   user's; the parent is the thread if that is a UUID; and the target agents are the mentions.
   */
  lemma StoredColumns(codec: Codec, msg: RoomMessageRecord, freshRoom: Uuid, freshId: Uuid)
    ensures var row := MessageToDb(codec, msg, freshRoom, freshId);
            && (row.role == "assistant" <==> msg.senderType == "agent") && (row.role != "assistant" ==> row.role == "user")
            && (row.messageKind == "agent_text" <==> msg.senderType == "agent")
            && (row.messageKind != "agent_text" ==> row.messageKind == "user_text")
            && row.roomId == Some(row.conversationId) && row.seqNo == 0
            && (forall thread :: row.parentMessageId == Some(thread) <==>
                  msg.threadId.Some? && codec.parse(msg.threadId.value) == Some(thread))
            && (forall client :: row.clientMessageId == Some(client) <==>
                  msg.clientMessageId.Some? && codec.parse(msg.clientMessageId.value) == Some(client))
            && (forall u :: codec.parse(msg.roomId) == Some(u) ==> row.conversationId == u)
            && (forall u :: codec.parse(msg.id) == Some(u) ==> row.id == u)
            && ToStrings(row.targetAgentIds) == Some(msg.mentions)
  {
    StringsRoundTrip(msg.mentions);
    assert "assistant"[0] == 'a' && "user"[0] == 'u' && "agent_text"[0] == 'a' && "user_text"[0] == 'u';
  }

  /** The names under which a message's content is stored. */
  lemma StoredContent(codec: Codec, msg: RoomMessageRecord, freshRoom: Uuid, freshId: Uuid)
    ensures var content := MessageToDb(codec, msg, freshRoom, freshId).content;
            && Binds(content, "text", Str(msg.content)) && Binds(content, "mentions", FromStrings(msg.mentions))
            && Binds(content, "thread_id", OptionalStr(msg.threadId))
  {
    var content := Obj(ContentOf(msg));
    ContentFields(msg);
    GetIff(content, "text", Str(msg.content));
    GetIff(content, "mentions", FromStrings(msg.mentions));
    GetIff(content, "thread_id", OptionalStr(msg.threadId));
  }

  /** Mentions come from the content if it lists them, else from the target agents, else there are none. */
  lemma MentionsRead(codec: Codec, row: DbMessage, names: seq<string>)
    ensures Binds(row.content, "mentions", FromStrings(names)) ==> MessageFromDb(codec, row).mentions == names
    ensures Absent(row.content, "mentions") && row.targetAgentIds == FromStrings(names) ==>
              MessageFromDb(codec, row).mentions == names
    ensures Absent(row.content, "mentions") && !row.targetAgentIds.Arr? ==> MessageFromDb(codec, row).mentions == []
  {
    GetIff(row.content, "mentions", FromStrings(names));
    StringsRoundTrip(names);
  }

  /** A row written without a sender, a room or text reads as a user's message with empty fields. */
  lemma BareRowReads(codec: Codec, row: DbMessage)
    requires row.senderType == None && row.senderId == None && row.roomId == None && Absent(row.content, "text")
    ensures var msg := MessageFromDb(codec, row);
            msg.senderType == "user" && msg.senderId == "" && msg.roomId == "" && msg.content == ""
    ensures MessageFromDb(codec, row).seqNo == if row.seqNo < 0 then 0 else row.seqNo
  {
    GetIff(row.content, "text", Null);
  }

  /** The ids of a message are canonical; an absent client id is. */
  predicate CanonicalMessage(codec: Codec, msg: RoomMessageRecord) {
    && Canonical(codec, msg.id) && Canonical(codec, msg.roomId)
    && (msg.clientMessageId.Some? ==> Canonical(codec, msg.clientMessageId.value))
  }

  /** A message with canonical ids, and no other, comes back from its row unchanged up to its number. */
  lemma MessageRoundTripIff(codec: Codec, msg: RoomMessageRecord, freshRoom: Uuid, freshId: Uuid)
    requires Faithful(codec)
    ensures MessageFromDb(codec, MessageToDb(codec, msg, freshRoom, freshId)) == msg.(seqNo := 0) <==>
            CanonicalMessage(codec, msg)
  {
    var row := MessageToDb(codec, msg, freshRoom, freshId);
    var back := MessageFromDb(codec, row);
    StringsRoundTrip(msg.mentions);
    ContentFields(msg);
    assert back.mentions == msg.mentions && back.content == msg.content && back.threadId == msg.threadId;
    assert codec.parse(codec.show(freshId)) == Some(freshId);
    assert codec.parse(codec.show(freshRoom)) == Some(freshRoom);
  }

  /** The three fields of a row's content read back. */
  lemma ContentFields(msg: RoomMessageRecord)
    ensures var fields := ContentOf(msg);
            && Lookup(fields, "text") == Some(Str(msg.content))
            && Lookup(fields, "mentions") == Some(FromStrings(msg.mentions))
            && Lookup(fields, "thread_id") == Some(OptionalStr(msg.threadId))
  {
    var fields := ContentOf(msg);
    LookupFirst(fields, 0);
    LookupFirst(fields, 1);
    LookupFirst(fields, 2);
  }

  /** `append_room_message_db` on tables nobody else touches: the tables after it, and the record returned. */
  function AppendRecord(t: Tables, codec: Codec, msg: RoomMessageRecord, freshRoom: Uuid, freshId: Uuid)
    : (Tables, Result<RoomMessageRecord, string>)
  {
    var outcome := AppendAlone(t, MessageToDb(codec, msg, freshRoom, freshId));
    match outcome.result
    case Success(_) => (outcome.tables, Success(MessageFromDb(codec, outcome.msg)))
    case Failure(e) => (outcome.tables, Failure(e))
  }

  /** `append_room_message_db`. */
  method AppendRoomMessage(repo: RoomRepo, codec: Codec, msg: RoomMessageRecord, freshRoom: Uuid, freshId: Uuid)
    returns (result: Result<RoomMessageRecord, string>)
    modifies repo
    ensures (repo.Contents(), result) == AppendRecord(old(repo.Contents()), codec, msg, freshRoom, freshId)
  {
    var row := MessageToDb(codec, msg, freshRoom, freshId);
    var appended, out := repo.AppendMessage(row);
    match appended
    case Success(_) => return Success(MessageFromDb(codec, out));
    case Failure(e) => return Failure(e);
  }

  /** Changing a row's number changes the record's number only. */
  lemma NumberedRecord(codec: Codec, row: DbMessage, k: nat)
    ensures MessageFromDb(codec, row.(seqNo := k)) == MessageFromDb(codec, row).(seqNo := k)
  {
  }

  /**
   A successful append of a new message with canonical ids returns the caller's record with its
   number filled in, and the row it stored, last in the table, loads as that same record.
   */
  lemma AppendedRecordLoads(t: Tables, codec: Codec, msg: RoomMessageRecord, freshRoom: Uuid, freshId: Uuid)
    requires Faithful(codec) && CanonicalMessage(codec, msg)
    requires var row := MessageToDb(codec, msg, freshRoom, freshId);
             row.clientMessageId.Some? ==> FindClient(t.messages, row).None?
    requires AppendRecord(t, codec, msg, freshRoom, freshId).1.Success?
    ensures var (after, result) := AppendRecord(t, codec, msg, freshRoom, freshId);
            var room := codec.parse(msg.roomId).value;
            && result.value == msg.(seqNo := Top(t.messages, room) + 1)
            && |after.messages| == |t.messages| + 1 && after.messages[..|t.messages|] == t.messages
            && InRoom(after.messages[|t.messages|], room)
            && MessageFromDb(codec, after.messages[|t.messages|]) == result.value
  {
    var row := MessageToDb(codec, msg, freshRoom, freshId);
    var room := codec.parse(msg.roomId).value;
    MessageRoundTripIff(codec, msg, freshRoom, freshId);
    NumberedRecord(codec, row, Top(t.messages, room) + 1);
  }

  /** A repeated client id returns the stored id and number on the caller's own content, and stores nothing. */
  lemma RepeatedRecord(t: Tables, codec: Codec, msg: RoomMessageRecord, freshRoom: Uuid, freshId: Uuid)
    requires Faithful(codec) && CanonicalMessage(codec, msg) && Numbered(t.messages)
    requires var row := MessageToDb(codec, msg, freshRoom, freshId);
             row.clientMessageId.Some? && FindClient(t.messages, row).Some?
    ensures var stored := t.messages[FindClient(t.messages, MessageToDb(codec, msg, freshRoom, freshId)).value];
            AppendRecord(t, codec, msg, freshRoom, freshId) ==
            (t, Success(msg.(id := codec.show(stored.id), seqNo := stored.seqNo)))
  {
    var row := MessageToDb(codec, msg, freshRoom, freshId);
    var stored := t.messages[FindClient(t.messages, row).value];
    MessageRoundTripIff(codec, msg, freshRoom, freshId);
    NumberedRecord(codec, row.(id := stored.id), stored.seqNo);
  }

  /** The records read from a list of rows. */
  function RecordsFromDb(codec: Codec, rows: seq<DbMessage>): (records: seq<RoomMessageRecord>)
    ensures |records| == |rows|
    ensures forall i :: 0 <= i < |rows| ==> records[i] == MessageFromDb(codec, rows[i])
  {
    if rows == [] then [] else RecordsFromDb(codec, rows[..|rows| - 1]) + [MessageFromDb(codec, rows[|rows| - 1])]
  }

  /** `load_room_messages`: the records of one page, read after the narrowed cursor. */
  ghost predicate IsLoad(codec: Codec, ms: Table, room: Uuid, after: nat, limit: nat, records: seq<RoomMessageRecord>) {
    exists page :: Paging.IsPage(ms, room, Paging.NarrowCursor(after), limit, page) && records == RecordsFromDb(codec, page)
  }

  /** The records of the rows after the first `from`: `limit` of them, or all there are. */
  ghost predicate LoadedAfter(
    codec: Codec, rows: seq<DbMessage>, from: nat, limit: nat, records: seq<RoomMessageRecord>)
  {
    && from + |records| <= |rows|
    && |records| <= limit && (|records| < limit ==> from + |records| == |rows|)
    && forall i :: 0 <= i < |records| ==>
         records[i] == MessageFromDb(codec, rows[from + i]) && records[i].seqNo == from + i + 1
  }

  /** A record of a slice is that of the row after the cursor. */
  lemma SliceLoadsAt(codec: Codec, rows: seq<DbMessage>, after: nat, limit: nat, page: seq<DbMessage>, i: nat)
    requires CountsUp(rows) && Paging.IsSlice(page, rows, after, limit) && i < |page|
    ensures var from := Paging.Least(after, |rows|);
            && from + i < |rows| && page[i] == rows[from + i]
            && MessageFromDb(codec, page[i]).seqNo == from + i + 1
  {
  }

  lemma SliceLoads(codec: Codec, rows: seq<DbMessage>, after: nat, limit: nat, page: seq<DbMessage>)
    requires CountsUp(rows) && Paging.IsSlice(page, rows, after, limit)
    ensures LoadedAfter(codec, rows, Paging.Least(after, |rows|), limit, RecordsFromDb(codec, page))
  {
    var from, records := Paging.Least(after, |rows|), RecordsFromDb(codec, page);
    assert |page| == Paging.Least(after + limit, |rows|) - from;
    forall i | 0 <= i < |records|
      ensures records[i] == MessageFromDb(codec, rows[from + i]) && records[i].seqNo == from + i + 1
    {
      SliceLoadsAt(codec, rows, after, limit, page, i);
    }
  }

  /**
   In a room numbered in append order a load returns the records that follow the cursor, numbered
   one by one, and none if the cursor is past the end; a cursor beyond the signed 64-bit range starts
   again at the first message.
   */
  lemma LoadFollowsCursor(codec: Codec, ms: Table, room: Uuid, after: nat, limit: nat, records: seq<RoomMessageRecord>)
    requires NumberedInOrder(ms, room) && IsLoad(codec, ms, room, after, limit, records)
    ensures var rows := Sequenced(ms, room);
            LoadedAfter(codec, rows, Paging.Least(Paging.NarrowCursor(after), |rows|), limit, records)
  {
    var page := PageOfLoad(codec, ms, room, after, limit, records);
    Paging.PageOfOrdered(ms, room, Paging.NarrowCursor(after), limit, page);
    SliceLoads(codec, Sequenced(ms, room), Paging.NarrowCursor(after), limit, page);
  }

  lemma PageOfLoad(codec: Codec, ms: Table, room: Uuid, after: nat, limit: nat, records: seq<RoomMessageRecord>)
    returns (page: seq<DbMessage>)
    requires IsLoad(codec, ms, room, after, limit, records)
    ensures Paging.IsPage(ms, room, Paging.NarrowCursor(after), limit, page) && records == RecordsFromDb(codec, page)
  {
    page :| Paging.IsPage(ms, room, Paging.NarrowCursor(after), limit, page) && records == RecordsFromDb(codec, page);
  }

  /** Past number 0 are exactly the sequenced rows. */
  lemma {:induction false} MatchingFromStart(ms: Table, room: Uuid)
    ensures Paging.Matching(ms, room, 0) == Sequenced(ms, room)
  {
    if ms != [] {
      MatchingFromStart(ms[..|ms| - 1], room);
    }
  }

  /** What a load returns lies past its narrowed cursor. */
  lemma LoadedPast(codec: Codec, ms: Table, room: Uuid, after: nat, limit: nat, records: seq<RoomMessageRecord>)
    requires IsLoad(codec, ms, room, after, limit, records)
    ensures forall i :: 0 <= i < |records| ==> records[i].seqNo > Paging.NarrowCursor(after)
  {
    var page := PageOfLoad(codec, ms, room, after, limit, records);
    Paging.PageAllAbove(ms, room, Paging.NarrowCursor(after), limit, page);
  }

  /** A load past a cursor out of range returns something in range unless it returns nothing. */
  lemma LoadedInRange(codec: Codec, ms: Table, room: Uuid, after: nat, limit: nat, records: seq<RoomMessageRecord>)
    requires (forall i :: 0 <= i < |ms| ==> ms[i].seqNo <= I64_MAX) && IsLoad(codec, ms, room, after, limit, records)
    requires after > I64_MAX
    ensures records == [] <==> limit == 0 || Sequenced(ms, room) == []
    ensures records != [] ==> records[0].seqNo <= I64_MAX
  {
    var page := PageOfLoad(codec, ms, room, after, limit, records);
    Paging.EmptyPageIff(ms, room, 0, limit, page);
    MatchingFromStart(ms, room);
    if records != [] {
      Paging.PageAbove(ms, room, 0, limit, page, 0);
    }
  }

  /**
   Whatever numbers the room's rows carry, as long as they fit their column: a load returns only
   records past its cursor if and only if the cursor is in the signed 64-bit range, or the limit is 0,
   or the room has no numbered row.
   */
  lemma CursorRespectedIff(codec: Codec, ms: Table, room: Uuid, after: nat, limit: nat, records: seq<RoomMessageRecord>)
    requires (forall i :: 0 <= i < |ms| ==> ms[i].seqNo <= I64_MAX) && IsLoad(codec, ms, room, after, limit, records)
    ensures (forall i :: 0 <= i < |records| ==> records[i].seqNo > after) <==>
            after <= I64_MAX || limit == 0 || Sequenced(ms, room) == []
  {
    LoadedPast(codec, ms, room, after, limit, records);
    if after > I64_MAX {
      LoadedInRange(codec, ms, room, after, limit, records);
    }
  }

  /** The one page of a table with one row. */
  lemma OnlyPage(row: DbMessage, room: Uuid)
    requires InRoom(row, room) && row.seqNo == 1
    ensures NumberedInOrder([row], room) && Paging.IsPage([row], room, 0, 1, [row])
  {
    var ms, none: Table := [row], [];
    assert ms[..0] == none;
    assert Sequenced(none, room) == [] && Sequenced(ms, room) == [row];
    assert Paging.Matching(none, room, 0) == [] && Paging.Matching(ms, room, 0) == [row];
    assert Paging.Arranges(ms, Paging.Matching(ms, room, 0)) && ms == ms[..Paging.Least(1, |ms|)];
  }

  /** A room with one message: a cursor one past the signed 64-bit range gets that message again. */
  lemma OversizedCursorRestarts(codec: Codec) returns (ms: Table, room: Uuid, records: seq<RoomMessageRecord>)
    ensures NumberedInOrder(ms, room) && IsLoad(codec, ms, room, I64_MAX + 1, 1, records)
    ensures |records| == 1 && records[0].seqNo == 1
  {
    room := Uuid(1);
    ms := [Sample(2).(seqNo := 1)];
    OnlyPage(ms[0], room);
    records := RecordsFromDb(codec, ms);
  }

  // Rooms.

  function ThreadToJson(codec: Codec, thread: SideThread): Json {
    Obj([("id", Str(thread.id)), ("room_id", Str(thread.roomId)), ("title", OptionalStr(thread.title)),
         ("participant_ids", FromStrings(thread.participantIds)), ("created_by", Str(thread.createdBy)),
         ("created_at", Str(codec.showTime(thread.createdAt)))])
  }

  /** An optional text field: absent and null read as nothing, other kinds are refused. */
  function ReadOptional(v: Option<Json>): Option<Option<string>> {
    match v
    case None => Some(None)
    case Some(Null) => Some(None)
    case Some(Str(s)) => Some(Some(s))
    case Some(_) => None
  }

  function ThreadFromJson(codec: Codec, v: Json): Option<SideThread> {
    var id, room, creator := AsStr(Get(v, "id")), AsStr(Get(v, "room_id")), AsStr(Get(v, "created_by"));
    var title := ReadOptional(Get(v, "title"));
    var members := match Get(v, "participant_ids") case Some(list) => ToStrings(list) case None => None;
    var at := match AsStr(Get(v, "created_at")) case Some(s) => codec.readTime(s) case None => None;
    if id.Some? && room.Some? && creator.Some? && title.Some? && members.Some? && at.Some? then
      Some(SideThread(id.value, room.value, title.value, members.value, creator.value, at.value))
    else None
  }

  function ThreadsToJson(codec: Codec, threads: seq<SideThread>): Json {
    Arr(seq(|threads|, i requires 0 <= i < |threads| => ThreadToJson(codec, threads[i])))
  }

  function ThreadsFromJson(codec: Codec, v: Json): Option<seq<SideThread>> {
    if v.Arr? && (forall i :: 0 <= i < |v.items| ==> ThreadFromJson(codec, v.items[i]).Some?) then
      Some(seq(|v.items|, i requires 0 <= i < |v.items| => ThreadFromJson(codec, v.items[i]).value))
    else None
  }

  /** A side thread survives its JSON form. */
  lemma ThreadRoundTrip(codec: Codec, thread: SideThread)
    requires Faithful(codec)
    ensures ThreadFromJson(codec, ThreadToJson(codec, thread)) == Some(thread)
  {
    StoredThread(codec, thread);
    StringsRoundTrip(thread.participantIds);
  }

  lemma ThreadsRoundTrip(codec: Codec, threads: seq<SideThread>)
    requires Faithful(codec)
    ensures ThreadsFromJson(codec, ThreadsToJson(codec, threads)) == Some(threads)
  {
    var v := ThreadsToJson(codec, threads);
    forall i | 0 <= i < |threads|
      ensures ThreadFromJson(codec, v.items[i]) == Some(threads[i])
    {
      ThreadRoundTrip(codec, threads[i]);
    }
    assert ThreadsFromJson(codec, v).value == threads;
  }

  /** `room_gateway_metadata`, with the version mark that `room_to_db` adds. */
  function RoomMetadata(codec: Codec, record: RoomRecord): Json {
    Obj([("created_by", Str(record.createdBy)),
         ("side_threads", ThreadsToJson(codec, record.sideThreads)),
         ("orchestration_config", record.orchestrationConfig.GetOr(Null)),
         ("gateway", Obj([("version", Number("1"))]))])
  }

  /** The first participant who is an agent and the leader. */
  function FindLeader(participants: seq<Participant>): Option<Participant> {
    if participants == [] then None
    else if participants[0].participantType == "agent" && participants[0].role == "leader" then Some(participants[0])
    else FindLeader(participants[1..])
  }

  /** `room_to_db`. */
  function RoomToDb(codec: Codec, record: RoomRecord, freshId: Uuid): DbRoom {
    var id := codec.parse(record.id).GetOr(freshId);
    DbRoom(
      id, record.tenantId,
      if record.roomType == "direct" then Some(id) else None,
      None, record.roomType, record.orchestrationMode.GetOr("single"), None, None, "private",
      RoomMetadata(codec, record),
      match FindLeader(record.participants) case Some(p) => codec.parse(p.participantId) case None => None,
      record.createdAt, record.updatedAt, record.updatedAt)
  }

  /** `room_record_from_db`. */
  function RoomFromDb(codec: Codec, row: DbRoom, participants: seq<Participant>, messages: seq<RoomMessageRecord>)
    : RoomRecord
  {
    var config := Get(row.metadata, "orchestration_config");
    RoomRecord(
      codec.show(row.id), row.tenantId, row.roomType, Some(row.orchestrationMode),
      if config == Some(Null) then None else config,
      participants, messages,
      match Get(row.metadata, "side_threads") case Some(v) => ThreadsFromJson(codec, v).GetOr([]) case None => [],
      AsStr(Get(row.metadata, "created_by")).GetOr("unknown"),
      row.createdAt, row.updatedAt)
  }

  /**
   The columns of a room that no record reads back: only a direct room is linked to the conversation of
   its id, and the primary agent is the first leading agent among the participants, if its id is a UUID.
   */
  lemma RoomColumns(codec: Codec, record: RoomRecord, freshId: Uuid)
    ensures var row := RoomToDb(codec, record, freshId);
            && (row.conversationId == Some(row.id) <==> record.roomType == "direct")
            && (row.conversationId == None <==> record.roomType != "direct")
            && row.title == None && row.swarmPattern == None && row.parentRoomId == None && row.visibility == "private"
            && row.lastMessageAt == record.updatedAt
            && (record.orchestrationMode == None ==> row.orchestrationMode == "single")
            && (forall u :: codec.parse(record.id) == Some(u) ==> row.id == u)
    ensures forall i :: IsFirstLeader(record.participants, i) ==>
              RoomToDb(codec, record, freshId).primaryAgentId == codec.parse(record.participants[i].participantId)
    ensures (forall i :: !IsFirstLeader(record.participants, i)) ==>
              RoomToDb(codec, record, freshId).primaryAgentId == None
  {
    LeaderIsFirst(record.participants);
  }

  predicate IsLeader(p: Participant) {
    p.participantType == "agent" && p.role == "leader"
  }

  ghost predicate IsFirstLeader(participants: seq<Participant>, i: int) {
    && 0 <= i < |participants| && IsLeader(participants[i])
    && forall j :: 0 <= j < i ==> !IsLeader(participants[j])
  }

  lemma {:induction false} LeaderIsFirst(participants: seq<Participant>)
    ensures forall i :: IsFirstLeader(participants, i) ==> FindLeader(participants) == Some(participants[i])
    ensures FindLeader(participants).Some? ==> exists i :: IsFirstLeader(participants, i)
  {
    if participants != [] {
      var rest := participants[1..];
      LeaderIsFirst(rest);
      if IsLeader(participants[0]) {
        assert IsFirstLeader(participants, 0);
      } else {
        forall i
          ensures IsFirstLeader(participants, i) <==> IsFirstLeader(rest, i - 1)
        {
          FirstLeaderLater(participants, i);
        }
        if FindLeader(rest).Some? {
          var i :| IsFirstLeader(rest, i);
          assert IsFirstLeader(rest, (i + 1) - 1) && IsFirstLeader(participants, i + 1);
        }
      }
    }
  }

  lemma FirstLeaderLater(participants: seq<Participant>, i: int)
    requires participants != [] && !IsLeader(participants[0])
    ensures IsFirstLeader(participants, i) <==> IsFirstLeader(participants[1..], i - 1)
  {
    var rest := participants[1..];
    assert forall j :: 0 <= j < |rest| ==> rest[j] == participants[j + 1];
    if IsFirstLeader(rest, i - 1) {
      forall j | 0 <= j < i
        ensures !IsLeader(participants[j])
      {
        if j > 0 {
          assert !IsLeader(rest[j - 1]);
        }
      }
    }
  }

  /** What a room's row gives when its metadata say nothing. */
  lemma BareRoomReads(codec: Codec, row: DbRoom, participants: seq<Participant>, messages: seq<RoomMessageRecord>)
    requires Absent(row.metadata, "created_by") && Absent(row.metadata, "side_threads")
    requires Absent(row.metadata, "orchestration_config")
    ensures var record := RoomFromDb(codec, row, participants, messages);
            record.createdBy == "unknown" && record.sideThreads == [] && record.orchestrationConfig == None
  {
    GetIff(row.metadata, "created_by", Null);
    GetIff(row.metadata, "side_threads", Null);
    GetIff(row.metadata, "orchestration_config", Null);
  }

  lemma MetadataFields(codec: Codec, record: RoomRecord)
    ensures var v := RoomMetadata(codec, record);
            && Get(v, "created_by") == Some(Str(record.createdBy))
            && Get(v, "side_threads") == Some(ThreadsToJson(codec, record.sideThreads))
            && Get(v, "orchestration_config") == Some(record.orchestrationConfig.GetOr(Null))
            && Get(v, "gateway") == Some(Obj([("version", Number("1"))]))
  {
    var fields := RoomMetadata(codec, record).fields;
    LookupFirst(fields, 0);
    LookupFirst(fields, 1);
    LookupFirst(fields, 2);
    LookupFirst(fields, 3);
  }

  /** The names under which a room's metadata are stored. */
  lemma StoredMetadata(codec: Codec, record: RoomRecord, freshId: Uuid)
    ensures var metadata := RoomToDb(codec, record, freshId).metadata;
            && Binds(metadata, "created_by", Str(record.createdBy))
            && Binds(metadata, "orchestration_config", record.orchestrationConfig.GetOr(Null))
            && Binds(metadata, "side_threads", ThreadsToJson(codec, record.sideThreads))
            && Binds(metadata, "gateway", Obj([("version", Number("1"))]))
  {
    MetadataFields(codec, record);
    var metadata := RoomMetadata(codec, record);
    GetIff(metadata, "created_by", Str(record.createdBy));
    GetIff(metadata, "orchestration_config", record.orchestrationConfig.GetOr(Null));
    GetIff(metadata, "side_threads", ThreadsToJson(codec, record.sideThreads));
    GetIff(metadata, "gateway", Obj([("version", Number("1"))]));
  }

  /** The names under which a side thread is stored. */
  lemma StoredThread(codec: Codec, thread: SideThread)
    ensures var v := ThreadToJson(codec, thread);
            && Get(v, "id") == Some(Str(thread.id)) && Get(v, "room_id") == Some(Str(thread.roomId))
            && Get(v, "title") == Some(OptionalStr(thread.title))
            && Get(v, "participant_ids") == Some(FromStrings(thread.participantIds))
            && Get(v, "created_by") == Some(Str(thread.createdBy))
            && Get(v, "created_at") == Some(Str(codec.showTime(thread.createdAt)))
  {
    var fields := ThreadToJson(codec, thread).fields;
    assert fields[4].0[8] == 'b' && fields[5].0[8] == 'a';
    LookupFirst(fields, 0);
    LookupFirst(fields, 1);
    LookupFirst(fields, 2);
    LookupFirst(fields, 3);
    LookupFirst(fields, 4);
    LookupFirst(fields, 5);
  }

  /**
   Given its own participants and messages, a room record comes back from its row unchanged exactly
   when its id is canonical, it names an orchestration mode, and its configuration is not JSON null.
   */
  lemma RoomRoundTripIff(codec: Codec, record: RoomRecord, freshId: Uuid)
    requires Faithful(codec)
    ensures RoomFromDb(codec, RoomToDb(codec, record, freshId), record.participants, record.messages) == record <==>
            && Canonical(codec, record.id)
            && record.orchestrationMode.Some?
            && record.orchestrationConfig != Some(Null)
  {
    MetadataFields(codec, record);
    ThreadsRoundTrip(codec, record.sideThreads);
    assert codec.parse(codec.show(freshId)) == Some(freshId);
  }
}
