/** What every run of interleaved appends guarantees. */
module RoomLogTheorems {
  import opened Wrappers
  import opened Rows
  import opened MessageTable
  import opened RoomLog

  /** In every reachable state the positive numbers stored in a room are exactly 1 .. Top. */
  lemma GaplessInEveryRun(states: seq<State>, steps: seq<Step>, n: nat, room: Uuid, k: int)
    requires IsRun(states, steps) && n < |states|
    ensures k > 0 && HasSeq(states[n].messages, room, k) <==> 1 <= k <= Top(states[n].messages, room)
  {
    RunKeepsInv(states, steps, n);
    assert Gapless(states[n].messages, room);
    if k > 0 && HasSeq(states[n].messages, room, k) {
      var i :| 0 <= i < |states[n].messages| && InRoom(states[n].messages[i], room) && states[n].messages[i].seqNo == k;
      TopBounds(states[n].messages, room, i);
    }
  }

  /** One step keeps every row that has a room, in its place. */
  lemma StepKeepsRows(s: State, step: Step, i: nat)
    requires Enabled(s, step) && i < |s.messages| && s.messages[i].roomId.Some?
    ensures i < |Apply(s, step).messages| && Apply(s, step).messages[i] == s.messages[i]
  {
  }

  /** A row that has a room is never changed or removed by a later step. */
  lemma {:induction false} RowsStay(states: seq<State>, steps: seq<Step>, m: nat, n: nat, i: nat)
    requires IsRun(states, steps) && m <= n < |states|
    requires i < |states[m].messages| && states[m].messages[i].roomId.Some?
    ensures i < |states[n].messages| && states[n].messages[i] == states[m].messages[i]
  {
    if m < n {
      RowsStay(states, steps, m, n - 1, i);
      assert Follows(states, steps, n - 1);
      StepKeepsRows(states[n - 1], steps[n - 1], i);
    }
  }

  /** The call returned this receipt. */
  ghost predicate Succeeded(s: State, c: CallId, receipt: Receipt) {
    c in s.calls && s.calls[c].stage == Returned(Success(receipt))
  }

  /**
   A successful call's receipt names a committed row of its room, at the time it returns and in
   every later state. The row is the call's own message with the number filled in, or an earlier
   row with the same client id.
   */
  lemma SuccessIsStored(states: seq<State>, steps: seq<Step>, m: nat, n: nat, c: CallId, receipt: Receipt)
    requires IsRun(states, steps) && m <= n < |states|
    requires Succeeded(states[m], c, receipt)
    ensures exists row :: row in states[n].messages && Witnesses(row, states[m].calls[c].msg, receipt)
  {
    RunKeepsInv(states, steps, m);
    var s := states[m];
    assert CallOk(s, s.calls[c]);
    var i :| 0 <= i < |s.messages| && Witnesses(s.messages[i], s.calls[c].msg, receipt);
    RowsStay(states, steps, m, n, i);
    assert states[n].messages[i] in states[n].messages;
  }

  /** At most one row is ever stored for a room and a client id. */
  lemma OneRowPerClient(states: seq<State>, steps: seq<Step>, n: nat, a: DbMessage, b: DbMessage)
    requires IsRun(states, steps) && n < |states|
    requires a in states[n].messages && b in states[n].messages
    requires a.roomId.Some? && a.clientMessageId.Some? && SameClient(a, b)
    ensures a == b
  {
    RunKeepsInv(states, steps, n);
    var ms := states[n].messages;
    var i :| 0 <= i < |ms| && ms[i] == a;
    var j :| 0 <= j < |ms| && ms[j] == b;
    assert Indexed(ms) && Conflicts(ms[i], ms[j]) && Conflicts(ms[j], ms[i]);
  }

  /** Successful calls with the same room and client id get the same id and the same number. */
  lemma SameClientSameReceipt(
      states: seq<State>, steps: seq<Step>, n: nat, c: CallId, d: CallId, x: Receipt, y: Receipt)
    requires IsRun(states, steps) && n < |states|
    requires Succeeded(states[n], c, x) && Succeeded(states[n], d, y)
    requires states[n].calls[c].msg.clientMessageId.Some?
    requires SameClient(states[n].calls[c].msg, states[n].calls[d].msg)
    ensures x == y
  {
    RunKeepsInv(states, steps, n);
    SuccessIsStored(states, steps, n, n, c, x);
    SuccessIsStored(states, steps, n, n, d, y);
    var a :| a in states[n].messages && Witnesses(a, states[n].calls[c].msg, x);
    var b :| b in states[n].messages && Witnesses(b, states[n].calls[d].msg, y);
    assert CallOk(states[n], states[n].calls[c]);
    OneRowPerClient(states, steps, n, a, b);
  }

  // Which of two calls with one client id succeeds?

  /** The row is a message of this client id in the call's room. */
  predicate Rivals(row: DbMessage, msg: DbMessage) {
    msg.roomId.Some? && msg.clientMessageId.Some? && SameClient(row, msg)
  }

  predicate HasSucceeded(s: State, d: CallId) {
    d in s.calls && s.calls[d].stage.Returned? && s.calls[d].stage.result.Success?
  }

  /** While a row of the client id is committed, no other call holds an uncommitted one. */
  lemma NoneHoldsBeside(s: State, c: CallId, i: nat)
    requires Inv(s) && c in s.calls && i < |s.messages| && Rivals(s.messages[i], s.calls[c].msg)
    ensures !Holds(s.calls[c])
  {
    assert CallOk(s, s.calls[c]);
    if Holds(s.calls[c]) {
      assert Conflicts(s.messages[i], RowOf(s.calls[c]));
    }
  }

  /** In no reachable state does a call still hold an uncommitted row when another call with its client id has succeeded. */
  lemma NonePendingBesideSuccess(states: seq<State>, steps: seq<Step>, n: nat, c: CallId, d: CallId, x: Receipt)
    requires IsRun(states, steps) && n < |states| && c in states[n].calls && Succeeded(states[n], d, x)
    requires Rivals(states[n].calls[d].msg, states[n].calls[c].msg)
    ensures !Holds(states[n].calls[c])
  {
    var s := states[n];
    RunKeepsInv(states, steps, n);
    assert CallOk(s, s.calls[d]);
    var i :| 0 <= i < |s.messages| && Witnesses(s.messages[i], s.calls[d].msg, x);
    NoneHoldsBeside(s, c, i);
  }

  /** A call keeps its message, its answer and its place past the lookup; it succeeds by a hit or by its commit. */
  lemma CallMoves(s: State, step: Step, d: CallId)
    requires Enabled(s, step) && d in s.calls
    ensures var s' := Apply(s, step);
            && d in s'.calls && s'.calls[d].msg == s.calls[d].msg
            && (s.calls[d].stage.Returned? ==> s'.calls[d] == s.calls[d])
            && (!s.calls[d].stage.Lookup? ==> !s'.calls[d].stage.Lookup?)
  {
  }

  lemma SuccessStep(s: State, step: Step, d: CallId, x: Receipt)
    requires Enabled(s, step) && Succeeded(Apply(s, step), d, x)
    ensures d in s.calls && s.calls[d].msg == Apply(s, step).calls[d].msg
    ensures Succeeded(s, d, x) || (step.LookupHit? && step.c == d) || (step.CommitAppend? && step.c == d)
  {
  }

  lemma {:induction false} CallLater(states: seq<State>, steps: seq<Step>, m: nat, n: nat, d: CallId)
    requires IsRun(states, steps) && m <= n < |states| && d in states[m].calls
    ensures d in states[n].calls && states[n].calls[d].msg == states[m].calls[d].msg
    ensures states[m].calls[d].stage.Returned? ==> states[n].calls[d] == states[m].calls[d]
    ensures !states[m].calls[d].stage.Lookup? ==> !states[n].calls[d].stage.Lookup?
  {
    if m < n {
      CallLater(states, steps, m, n - 1, d);
      assert Follows(states, steps, n - 1);
      CallMoves(states[n - 1], steps[n - 1], d);
    }
  }

  /** Once a row of its client id is committed, a call can succeed only by finding that row. */
  lemma {:induction false} SucceedsByLookup(
      states: seq<State>, steps: seq<Step>, m: nat, n: nat, d: CallId, x: Receipt, i: nat) returns (j: nat)
    requires IsRun(states, steps) && m <= n < |states| && i < |states[m].messages|
    requires Succeeded(states[n], d, x) && !HasSucceeded(states[m], d)
    requires Rivals(states[m].messages[i], states[n].calls[d].msg)
    ensures m <= j < n && steps[j].LookupHit? && steps[j].c == d && d in states[j].calls && states[j].calls[d].stage.Lookup?
  {
    assert m < n;
    assert Follows(states, steps, n - 1);
    SuccessStep(states[n - 1], steps[n - 1], d, x);
    if Succeeded(states[n - 1], d, x) {
      j := SucceedsByLookup(states, steps, m, n - 1, d, x, i);
    } else {
      RunKeepsInv(states, steps, n - 1);
      RowsStay(states, steps, m, n - 1, i);
      NoneHoldsBeside(states[n - 1], d, i);
      j := n - 1;
    }
  }

  /** Step j looks up the client id of call d. */
  predicate Looks(step: Step, d: CallId) {
    (step.LookupHit? || step.LookupMiss?) && step.c == d
  }

  /** A commit leaves its row at the end of the table. */
  lemma CommitStores(states: seq<State>, steps: seq<Step>, k: nat, c: CallId, acknowledged: bool)
    requires IsRun(states, steps) && k < |steps| && steps[k] == CommitAppend(c, acknowledged)
    ensures At(states[k], c) && states[k].calls[c].stage.Commit?
    ensures states[k + 1].messages == states[k].messages + [RowOf(states[k].calls[c])]
  {
    assert Follows(states, steps, k);
  }

  /** Step k commits call c, step j looks up for call d, and both send the same client id to the same room. */
  ghost predicate Contend(states: seq<State>, steps: seq<Step>, k: nat, j: nat, c: CallId, d: CallId)
    requires IsRun(states, steps)
  {
    && k < |steps| && j < |steps| && c != d
    && steps[k].CommitAppend? && steps[k].c == c && Looks(steps[j], d)
    && c in states[k].calls && d in states[j].calls && Rivals(states[k].calls[c].msg, states[j].calls[d].msg)
  }

  /** When a call commits, no other call with its client id has succeeded yet. */
  lemma NoneSucceededBefore(states: seq<State>, steps: seq<Step>, k: nat, c: CallId, d: CallId)
    requires IsRun(states, steps) && k < |steps| && steps[k].CommitAppend? && steps[k].c == c != d
    requires c in states[k].calls && d in states[k].calls && Rivals(states[k].calls[c].msg, states[k].calls[d].msg)
    ensures !HasSucceeded(states[k + 1], d)
  {
    assert Follows(states, steps, k);
    assert states[k + 1].calls[d] == states[k].calls[d];
    if HasSucceeded(states[k], d) {
      NonePendingBesideSuccess(states, steps, k, c, d, states[k].calls[d].stage.result.value);
    }
  }

  /** The lookup came first: the call never succeeds. */
  lemma LoserNeverSucceeds(states: seq<State>, steps: seq<Step>, k: nat, j: nat, n: nat, c: CallId, d: CallId, x: Receipt)
    requires IsRun(states, steps) && Contend(states, steps, k, j, c, d) && j < k < n < |states|
    ensures !Succeeded(states[n], d, x)
  {
    assert Follows(states, steps, j);
    CallLater(states, steps, j, k, d);
    CallLater(states, steps, j, n, d);
    if Succeeded(states[n], d, x) {
      CommitStores(states, steps, k, c, steps[k].acknowledged);
      NoneSucceededBefore(states, steps, k, c, d);
      var hit := SucceedsByLookup(states, steps, k + 1, n, d, x, |states[k].messages|);
      CallLater(states, steps, j + 1, hit, d);
    }
  }

  /** The commit came first: the lookup finds its row and returns it. */
  lemma LateLookupFinds(states: seq<State>, steps: seq<Step>, k: nat, j: nat, n: nat, c: CallId, d: CallId)
    requires IsRun(states, steps) && Contend(states, steps, k, j, c, d) && k < j < n < |states|
    ensures states[k].calls[c].stage.Commit?
    ensures Succeeded(states[n], d, Receipt(states[k].calls[c].msg.id, states[k].calls[c].stage.next))
  {
    CommitStores(states, steps, k, c, steps[k].acknowledged);
    var row := RowOf(states[k].calls[c]);
    RunKeepsInv(states, steps, j);
    RowsStay(states, steps, k + 1, j, |states[k].messages|);
    assert Follows(states, steps, j);
    var ms := states[j].messages;
    assert ms[|states[k].messages|] == row && SameClient(row, states[j].calls[d].msg);
    assert steps[j].LookupHit?;
    assert Conflicts(ms[steps[j].row], row) && Conflicts(row, ms[steps[j].row]);
    assert ms[steps[j].row] == row;
    CallLater(states, steps, j + 1, n, d);
  }

  /**
   Between a call that commits and another call with the same room and client id, the lookup decides:
   the other call gets the committed row's id and number if it looks up after the commit, and can only
   fail if it looked up before.
   */
  lemma LookupDecides(states: seq<State>, steps: seq<Step>, k: nat, j: nat, n: nat, c: CallId, d: CallId)
    requires IsRun(states, steps) && Contend(states, steps, k, j, c, d) && k < n < |states| && j < n
    ensures HasSucceeded(states[n], d) <==> k < j
    ensures k < j ==> states[k].calls[c].stage.Commit?
                      && Succeeded(states[n], d, Receipt(states[k].calls[c].msg.id, states[k].calls[c].stage.next))
  {
    if k < j {
      LateLookupFinds(states, steps, k, j, n, c, d);
    } else if HasSucceeded(states[n], d) {
      LoserNeverSucceeds(states, steps, k, j, n, c, d, states[n].calls[d].stage.result.value);
    }
  }

  // When are the numbers of a room unique?

  /** Step i of the run commits an append to this room. */
  ghost predicate CommitsTo(states: seq<State>, steps: seq<Step>, room: Uuid, i: int)
    requires IsRun(states, steps) && 0 <= i < |steps|
  {
    steps[i].CommitAppend? && steps[i].c in states[i].calls && states[i].calls[steps[i].c].msg.roomId == Some(room)
  }

  /** Step i commits an append to this room although another one committed after step j, where it read its number. */
  ghost predicate CommitsOver(states: seq<State>, steps: seq<Step>, room: Uuid, i: int, j: int, k: int)
    requires IsRun(states, steps)
  {
    && 0 <= j < k < i < |steps|
    && CommitsTo(states, steps, room, i) && CommitsTo(states, steps, room, k)
    && steps[j] == ReadNext(steps[i].c)
  }

  /** The call has read its number and still holds it. */
  predicate HasRead(call: Call) {
    call.stage.Insert? || call.stage.Touch? || call.stage.Commit?
  }

  /** One step after the read leaves the call past its read, with what it saw. */
  lemma StepAfterRead(s: State, step: Step, c: CallId)
    requires Enabled(s, step) && At(s, c) && !s.calls[c].stage.Lookup? && !s.calls[c].stage.ReadMax?
    ensures var s' := Apply(s, step);
            && At(s', c) && s'.calls[c].msg == s.calls[c].msg
            && !s'.calls[c].stage.Lookup? && !s'.calls[c].stage.ReadMax?
            && (HasRead(s'.calls[c]) ==> HasRead(s.calls[c]) && s'.calls[c].stage.seen == s.calls[c].stage.seen)
  {
  }

  /** After its read a call keeps the message and the count it saw, and never reads again. */
  lemma {:induction false} AfterRead(states: seq<State>, steps: seq<Step>, j: nat, n: nat, c: CallId)
    requires IsRun(states, steps) && j < n < |states|
    requires steps[j] == ReadNext(c)
    ensures At(states[j], c) && At(states[n], c)
    ensures states[n].calls[c].msg == states[j].calls[c].msg
    ensures !states[n].calls[c].stage.Lookup? && !states[n].calls[c].stage.ReadMax?
    ensures HasRead(states[n].calls[c]) ==>
              states[n].calls[c].stage.seen == |Sequenced(states[j].messages, Room(states[j].calls[c]))|
  {
    if j < n - 1 {
      AfterRead(states, steps, j, n - 1, c);
      assert Follows(states, steps, n - 1);
      StepAfterRead(states[n - 1], steps[n - 1], c);
    } else {
      assert Follows(states, steps, j);
    }
  }

  /** A call that holds a number has read it. */
  lemma {:induction false} ReadBefore(states: seq<State>, steps: seq<Step>, n: nat, c: CallId) returns (j: nat)
    requires IsRun(states, steps) && n < |states|
    requires c in states[n].calls && HasRead(states[n].calls[c])
    ensures j < n && steps[j] == ReadNext(c)
  {
    assert n > 0;
    assert Follows(states, steps, n - 1);
    if steps[n - 1] == ReadNext(c) {
      j := n - 1;
    } else {
      j := ReadBefore(states, steps, n - 1, c);
    }
  }

  /** The sequenced row, if any, that a step adds to a room. */
  function Added(s: State, step: Step, room: Uuid): seq<DbMessage>
    requires Enabled(s, step)
  {
    if step.CommitAppend? && Room(s.calls[step.c]) == room then [RowOf(s.calls[step.c])] else []
  }

  lemma CommitSequenced(s: State, c: CallId, acknowledged: bool, room: Uuid)
    requires Enabled(s, CommitAppend(c, acknowledged)) && s.calls[c].stage.next >= 1
    ensures Sequenced(Apply(s, CommitAppend(c, acknowledged)).messages, room) ==
            Sequenced(s.messages, room) + Added(s, CommitAppend(c, acknowledged), room)
  {
    SequencedOfAppend(s.messages, RowOf(s.calls[c]), room);
  }

  /** A step adds a sequenced row to a room exactly when it commits an append there. */
  lemma StepSequenced(s: State, step: Step, room: Uuid)
    requires Inv(s) && Enabled(s, step)
    ensures Sequenced(Apply(s, step).messages, room) == Sequenced(s.messages, room) + Added(s, step, room)
  {
    if step.CommitAppend? {
      assert CallOk(s, s.calls[step.c]);
      CommitSequenced(s, step.c, step.acknowledged, room);
    } else if step.InsertLegacy? {
      SequencedOfAppend(s.messages, step.legacy, room);
    } else if step.BackfillRooms? {
      BackfillKeepsNumbering(s.messages, s.rooms.Keys, room);
    } else {
      assert Apply(s, step).messages == s.messages;
    }
  }

  /** The row a commit adds. */
  function CommittedRow(states: seq<State>, steps: seq<Step>, i: nat): DbMessage
    requires i < |steps| && i < |states| && steps[i].CommitAppend? && Enabled(states[i], steps[i])
  {
    RowOf(states[i].calls[steps[i].c])
  }

  /** Along a run a commit to the room adds its row at the end of the sequenced ones; nothing else changes them. */
  lemma SequencedNext(states: seq<State>, steps: seq<Step>, n: nat, room: Uuid)
    requires IsRun(states, steps) && n < |steps|
    ensures Follows(states, steps, n)
    ensures CommitsTo(states, steps, room, n) ==>
              Sequenced(states[n + 1].messages, room) ==
              Sequenced(states[n].messages, room) + [CommittedRow(states, steps, n)]
    ensures !CommitsTo(states, steps, room, n) ==>
              Sequenced(states[n + 1].messages, room) == Sequenced(states[n].messages, room)
  {
    RunKeepsInv(states, steps, n);
    assert Follows(states, steps, n);
    StepSequenced(states[n], steps[n], room);
  }

  /** The count of a room's sequenced rows rises by one at each commit to it. */
  lemma StepCount(states: seq<State>, steps: seq<Step>, n: nat, room: Uuid)
    requires IsRun(states, steps) && n < |steps|
    ensures |Sequenced(states[n + 1].messages, room)| ==
            |Sequenced(states[n].messages, room)| + if CommitsTo(states, steps, room, n) then 1 else 0
  {
    SequencedNext(states, steps, n, room);
  }

  /** Between two points of a run the count of a room grows exactly when an append committed there. */
  lemma {:induction false} CountGrows(states: seq<State>, steps: seq<Step>, j: nat, n: nat, room: Uuid)
    requires IsRun(states, steps) && j <= n < |states|
    ensures |Sequenced(states[j].messages, room)| <= |Sequenced(states[n].messages, room)|
    ensures |Sequenced(states[j].messages, room)| < |Sequenced(states[n].messages, room)| <==>
            exists k :: j <= k < n && CommitsTo(states, steps, room, k)
  {
    if j < n {
      CountGrows(states, steps, j, n - 1, room);
      StepCount(states, steps, n - 1, room);
    }
  }

  /** A commit marks its room exactly when it commits over another append. */
  lemma CommitMarks(states: seq<State>, steps: seq<Step>, i: nat, room: Uuid)
    requires IsRun(states, steps) && i < |steps| && CommitsTo(states, steps, room, i)
    ensures states[i].calls[steps[i].c].stage.Commit?
    ensures states[i].calls[steps[i].c].stage.seen != |Sequenced(states[i].messages, room)| <==>
            exists j, k :: CommitsOver(states, steps, room, i, j, k)
  {
    var c := steps[i].c;
    assert Follows(states, steps, i);
    var j := ReadBefore(states, steps, i, c);
    AfterRead(states, steps, j, i, c);
    CountGrows(states, steps, j, i, room);
    if states[i].calls[c].stage.seen != |Sequenced(states[i].messages, room)| {
      var k :| j <= k < i && CommitsTo(states, steps, room, k);
      assert CommitsOver(states, steps, room, i, j, k);
    }
    if j', k :| CommitsOver(states, steps, room, i, j', k) {
      AfterRead(states, steps, j', i, c);
      CountGrows(states, steps, j', i, room);
    }
  }

  /** `overlapped` names the rooms in which some append committed over another. */
  lemma {:induction false} OverlappedMeaning(states: seq<State>, steps: seq<Step>, n: nat, room: Uuid)
    requires IsRun(states, steps) && n < |states|
    ensures room in states[n].overlapped <==> exists i, j, k :: i < n && CommitsOver(states, steps, room, i, j, k)
  {
    if n > 0 {
      var i := n - 1;
      OverlappedMeaning(states, steps, i, room);
      assert Follows(states, steps, i);
      if CommitsTo(states, steps, room, i) {
        CommitMarks(states, steps, i, room);
      }
    }
  }

  /**
   The numbers of a room are unique if and only if no append to it committed after another one
   had committed since it read its number. The index on (room, seq) does not enforce this.
   */
  lemma UniqueIffNoOverlap(states: seq<State>, steps: seq<Step>, n: nat, room: Uuid)
    requires IsRun(states, steps) && n < |states|
    ensures !HasDuplicate(states[n].messages, room) <==>
            !exists i, j, k :: i < n && CommitsOver(states, steps, room, i, j, k)
  {
    RunKeepsInv(states, steps, n);
    OverlappedMeaning(states, steps, n, room);
    var s := states[n];
    assert room !in s.overlapped ==> NumberedInOrder(s.messages, room);
    assert room in s.overlapped ==> HasDuplicate(s.messages, room);
  }

  /** Without such an overlap the i-th committed append of the room carries number i + 1. */
  lemma NoOverlapMeansAppendOrder(states: seq<State>, steps: seq<Step>, n: nat, room: Uuid)
    requires IsRun(states, steps) && n < |states|
    requires !exists i, j, k :: i < n && CommitsOver(states, steps, room, i, j, k)
    ensures NumberedInOrder(states[n].messages, room)
  {
    RunKeepsInv(states, steps, n);
    OverlappedMeaning(states, steps, n, room);
  }

  // The activity time of a room.

  /** The activity time a step writes to a room, if it writes one: appends and upserts do. */
  function TimeWritten(s: State, step: Step, room: Uuid): Option<Time>
    requires Enabled(s, step)
  {
    match step
    case CommitAppend(c, _) => if Room(s.calls[c]) == room then Some(s.calls[c].msg.createdAt) else None
    case AddRoom(r, at) => if r == room then Some(at) else None
    case UpsertRoom(r, at) => if r == room then Some(at) else None
    case UpsertAfter(c) => if Room(s.calls[c]) == room then Some(s.calls[c].msg.createdAt) else None
    case _ => None
  }

  lemma TimeAfterStep(s: State, step: Step, room: Uuid)
    requires Enabled(s, step)
    ensures var s', at := Apply(s, step), TimeWritten(s, step, room);
            && (at.Some? ==> room in s'.rooms && s'.rooms[room] == at.value)
            && (at.None? ==> (room in s'.rooms <==> room in s.rooms) && (room in s.rooms ==> s'.rooms[room] == s.rooms[room]))
  {
  }

  /** Step i is the last one before state n that writes the room's activity time. */
  ghost predicate LastWrite(states: seq<State>, steps: seq<Step>, room: Uuid, i: nat, n: nat)
    requires IsRun(states, steps)
  {
    && i < n < |states| && Writes(states, steps, room, i)
    && forall k :: i < k < n ==> !Writes(states, steps, room, k)
  }

  ghost predicate Writes(states: seq<State>, steps: seq<Step>, room: Uuid, i: int)
    requires IsRun(states, steps)
  {
    0 <= i < |steps| && Follows(states, steps, i) && TimeWritten(states[i], steps[i], room).Some?
  }

  /** Over every run a room's activity time is the one written last, by an append's commit or by an upsert. */
  lemma {:induction false} ActivityIsLastWrite(states: seq<State>, steps: seq<Step>, room: Uuid, i: nat, n: nat)
    requires IsRun(states, steps) && LastWrite(states, steps, room, i, n)
    ensures Follows(states, steps, i)
    ensures room in states[n].rooms && Some(states[n].rooms[room]) == TimeWritten(states[i], steps[i], room)
  {
    assert Follows(states, steps, n - 1);
    TimeAfterStep(states[n - 1], steps[n - 1], room);
    if i < n - 1 {
      ActivityIsLastWrite(states, steps, room, i, n - 1);
      assert !Writes(states, steps, room, n - 1);
    }
  }

  /** Step i is the last one before state n that commits an append to the room. */
  ghost predicate LastCommit(states: seq<State>, steps: seq<Step>, room: Uuid, i: nat, n: nat)
    requires IsRun(states, steps)
  {
    && i < n < |states| && CommitsTo(states, steps, room, i)
    && forall k :: i < k < n ==> !CommitsTo(states, steps, room, k)
  }

  /** The row committed last stays the room's last sequenced row, whatever upserts follow. */
  lemma {:induction false} LastRowStays(states: seq<State>, steps: seq<Step>, room: Uuid, i: nat, n: nat)
    requires IsRun(states, steps) && LastCommit(states, steps, room, i, n)
    ensures Follows(states, steps, i)
    ensures var rows := Sequenced(states[n].messages, room);
            |rows| > 0 && rows[|rows| - 1] == CommittedRow(states, steps, i)
  {
    SequencedNext(states, steps, n - 1, room);
    if i < n - 1 {
      LastRowStays(states, steps, room, i, n - 1);
    }
  }

  /** A room stays once it is there. */
  lemma {:induction false} RoomStays(states: seq<State>, steps: seq<Step>, room: Uuid, i: nat, n: nat)
    requires IsRun(states, steps) && i < n < |states| && Writes(states, steps, room, i)
    ensures room in states[n].rooms
  {
    assert Follows(states, steps, n - 1);
    TimeAfterStep(states[n - 1], steps[n - 1], room);
    if i < n - 1 {
      RoomStays(states, steps, room, i, n - 1);
    }
  }

  /** Step k upserts the room's header. */
  ghost predicate Upserts(states: seq<State>, steps: seq<Step>, room: Uuid, k: int)
    requires IsRun(states, steps)
  {
    && 0 <= k < |steps| && Writes(states, steps, room, k) && (steps[k].UpsertRoom? || steps[k].UpsertAfter?)
  }

  /** Step u is the last upsert of the room after step i and before state n. */
  ghost predicate LastUpsert(states: seq<State>, steps: seq<Step>, room: Uuid, i: nat, u: nat, n: nat)
    requires IsRun(states, steps)
  {
    && i < u < n < |states| && Upserts(states, steps, room, u)
    && forall k :: u < k < n ==> !Upserts(states, steps, room, k)
  }

  lemma {:induction false} FindLastUpsert(states: seq<State>, steps: seq<Step>, room: Uuid, i: nat, n: nat)
    returns (u: Option<nat>)
    requires IsRun(states, steps) && i < n < |states|
    ensures u.None? ==> forall k :: i < k < n ==> !Upserts(states, steps, room, k)
    ensures u.Some? ==> LastUpsert(states, steps, room, i, u.value, n)
  {
    if i == n - 1 {
      u := None;
    } else if Upserts(states, steps, room, n - 1) {
      u := Some(n - 1);
    } else {
      u := FindLastUpsert(states, steps, room, i, n - 1);
    }
  }

  /** After a commit the room's time is written by commits and upserts only. */
  lemma WriterAfterCommit(states: seq<State>, steps: seq<Step>, room: Uuid, i: nat, k: nat)
    requires IsRun(states, steps) && i < k < |steps| && Writes(states, steps, room, k)
    requires i < |steps| && CommitsTo(states, steps, room, i)
    ensures Upserts(states, steps, room, k) || CommitsTo(states, steps, room, k)
  {
    assert Follows(states, steps, i);
    assert Writes(states, steps, room, i);
    RoomStays(states, steps, room, i, k);
  }

  /** The time that stands is that of the last upsert, or else of the last commit. */
  lemma TimeAfterCommit(states: seq<State>, steps: seq<Step>, room: Uuid, i: nat, n: nat, u: Option<nat>)
    requires IsRun(states, steps) && LastCommit(states, steps, room, i, n)
    requires u.None? ==> forall k :: i < k < n ==> !Upserts(states, steps, room, k)
    requires u.Some? ==> LastUpsert(states, steps, room, i, u.value, n)
    ensures var w := u.GetOr(i);
            && w < |steps| && Follows(states, steps, w) && room in states[n].rooms
            && Some(states[n].rooms[room]) == TimeWritten(states[w], steps[w], room)
  {
    var w := u.GetOr(i);
    assert Follows(states, steps, i) && Writes(states, steps, room, i);
    forall k | w < k < n
      ensures !Writes(states, steps, room, k)
    {
      if Writes(states, steps, room, k) {
        WriterAfterCommit(states, steps, room, i, k);
      }
    }
    ActivityIsLastWrite(states, steps, room, w, n);
  }

  lemma LastUpsertIsOne(states: seq<State>, steps: seq<Step>, room: Uuid, i: nat, n: nat, u: nat, v: nat)
    requires IsRun(states, steps)
    requires LastUpsert(states, steps, room, i, u, n) && LastUpsert(states, steps, room, i, v, n)
    ensures u == v
  {
  }

  /** Step k wrote this time to the room. */
  ghost predicate Wrote(states: seq<State>, steps: seq<Step>, room: Uuid, k: int, at: Time)
    requires IsRun(states, steps)
  {
    0 <= k < |steps| && Follows(states, steps, k) && TimeWritten(states[k], steps[k], room) == Some(at)
  }

  /** The time that stands is this one if and only if the last upsert since the commit, or else the commit, wrote it. */
  lemma TimeIff(states: seq<State>, steps: seq<Step>, room: Uuid, i: nat, n: nat, at: Time)
    requires IsRun(states, steps) && LastCommit(states, steps, room, i, n) && Wrote(states, steps, room, i, at)
    ensures room in states[n].rooms
    ensures states[n].rooms[room] == at <==>
            forall u: nat :: LastUpsert(states, steps, room, i, u, n) ==> Wrote(states, steps, room, u, at)
  {
    var u := FindLastUpsert(states, steps, room, i, n);
    TimeAfterCommit(states, steps, room, i, n, u);
    forall v: nat | LastUpsert(states, steps, room, i, v, n)
      ensures u == Some(v)
    {
      if u.Some? {
        LastUpsertIsOne(states, steps, room, i, n, u.value, v);
      }
    }
  }

  /**
   A room shows the time of its newest message, the one committed last, if and only if the last upsert
   of its header since that commit, if there is one, wrote that time.
   */
  lemma ActivityIsNewestIff(states: seq<State>, steps: seq<Step>, room: Uuid, i: nat, n: nat)
    requires IsRun(states, steps) && LastCommit(states, steps, room, i, n)
    ensures |Sequenced(states[n].messages, room)| > 0 && room in states[n].rooms
    ensures var rows := Sequenced(states[n].messages, room);
            var newest := rows[|rows| - 1].createdAt;
            states[n].rooms[room] == newest <==>
            forall u: nat :: LastUpsert(states, steps, room, i, u, n) ==> Wrote(states, steps, room, u, newest)
  {
    LastRowStays(states, steps, room, i, n);
    TimeIff(states, steps, room, i, n, CommittedRow(states, steps, i).createdAt);
  }

  // Locks and bounds.

  /** The call knows its number. */
  predicate HasNumber(call: Call) {
    call.stage.Insert? || Holds(call)
  }

  /** Numbers stored or about to be stored are 64-bit. */
  ghost predicate Fits(s: State) {
    && (forall i :: 0 <= i < |s.messages| ==> s.messages[i].seqNo <= 0x7FFF_FFFF_FFFF_FFFF)
    && forall c :: c in s.calls && HasNumber(s.calls[c]) ==> s.calls[c].stage.next <= 0x7FFF_FFFF_FFFF_FFFF
  }

  lemma StepFits(s: State, step: Step)
    requires Fits(s) && Enabled(s, step)
    ensures Fits(Apply(s, step))
  {
  }

  /** No run stores a number that its column cannot hold. */
  lemma {:induction false} NumbersFit(states: seq<State>, steps: seq<Step>, n: nat)
    requires IsRun(states, steps) && n < |states|
    ensures Fits(states[n])
  {
    if n > 0 {
      NumbersFit(states, steps, n - 1);
      assert Follows(states, steps, n - 1);
      StepFits(states[n - 1], steps[n - 1]);
    }
  }

  /** The call has updated its room's row and not committed yet. */
  ghost predicate HasLock(s: State, c: CallId, room: Uuid) {
    c in s.calls && s.calls[c].msg.roomId == Some(room) && s.calls[c].stage.Commit?
  }

  /** Only the call's own update of an unlocked row locks it. */
  lemma StepLocks(s: State, step: Step, room: Uuid, c: CallId)
    requires Enabled(s, step) && HasLock(Apply(s, step), c, room)
    ensures HasLock(s, c, room) || (step == TouchRoom(c) && forall d :: !HasLock(s, d, room))
  {
  }

  /** In every reachable state at most one transaction has a room's row locked. */
  lemma {:induction false} OneLockPerRoom(states: seq<State>, steps: seq<Step>, n: nat, room: Uuid, c: CallId, d: CallId)
    requires IsRun(states, steps) && n < |states|
    requires HasLock(states[n], c, room) && HasLock(states[n], d, room)
    ensures c == d
  {
    if n > 0 {
      var s := states[n - 1];
      assert Follows(states, steps, n - 1);
      StepLocks(s, steps[n - 1], room, c);
      StepLocks(s, steps[n - 1], room, d);
      if HasLock(s, c, room) && HasLock(s, d, room) {
        OneLockPerRoom(states, steps, n - 1, room, c, d);
      }
    }
  }

  /** Whenever transactions hold rows of a room, one of them can go on without failing. */
  lemma SomeHolderMoves(s: State, c: CallId) returns (d: CallId, step: Step)
    requires At(s, c) && Holds(s.calls[c])
    ensures At(s, d) && Room(s.calls[d]) == Room(s.calls[c]) && Holds(s.calls[d])
    ensures step == TouchRoom(d) || step == CommitAppend(d, true)
    ensures Enabled(s, step)
  {
    if e :| HasLock(s, e, Room(s.calls[c])) {
      d, step := e, CommitAppend(e, true);
    } else {
      d, step := c, TouchRoom(c);
      forall e | e in s.calls && s.calls[e].stage.Commit?
        ensures s.calls[e].msg.roomId != Some(Room(s.calls[c]))
      {
        assert !HasLock(s, e, Room(s.calls[c]));
      }
    }
  }

  /**
   A legacy row goes in exactly when it has neither room, number nor client id, its id is new and its
   references are stored.
   */
  lemma LegacyInsertIff(s: State, row: DbMessage)
    ensures Enabled(s, InsertLegacy(row)) <==>
            && row.roomId == None && row.seqNo == 0 && row.clientMessageId == None
            && (forall i :: 0 <= i < |s.messages| ==> s.messages[i].id != row.id)
            && (forall c :: c in s.calls && Holds(s.calls[c]) ==> s.calls[c].msg.id != row.id)
            && row.conversationId in s.conversations
            && (row.parentMessageId.Some? ==>
                  exists i :: 0 <= i < |s.messages| && s.messages[i].id == row.parentMessageId.value)
  {
    if row.roomId == None {
      forall i | 0 <= i < |s.messages|
        ensures Conflicts(s.messages[i], row) <==> s.messages[i].id == row.id
      {
      }
      forall c | c in s.calls && Holds(s.calls[c])
        ensures Conflicts(RowOf(s.calls[c]), row) <==> s.calls[c].msg.id == row.id
      {
      }
    }
  }
}
