/** `MessageRepo::list_for_room` and a reader that repeats it with the last number it saw as cursor. */
module Paging {
  import opened Wrappers
  import opened Rows
  import opened MessageTable
  import opened RoomLog
  import opened RoomLogTheorems

  /** `load_room_messages` narrows its cursor to a signed 64-bit number; one too large restarts at 0. */
  function NarrowCursor(after: nat): nat {
    if after <= I64_MAX then after else 0
  }

  function Least(a: nat, b: nat): nat {
    if a < b then a else b
  }

  /** `WHERE room_id = $1 AND seq > $2`, in table order. */
  function Matching(ms: Table, room: Uuid, after: int): seq<DbMessage> {
    if ms == [] then []
    else
      var row := ms[|ms| - 1];
      Matching(ms[..|ms| - 1], room, after) + (if InRoom(row, room) && row.seqNo > after then [row] else [])
  }

  ghost predicate SortedBySeq(rows: seq<DbMessage>) {
    forall i, j :: 0 <= i < j < |rows| ==> rows[i].seqNo <= rows[j].seqNo
  }

  /** `ORDER BY seq ASC LIMIT $3`: any sorted arrangement of the matching rows, cut at the limit. */
  ghost predicate IsPage(ms: Table, room: Uuid, after: int, limit: nat, page: seq<DbMessage>) {
    exists all :: Arranges(all, Matching(ms, room, after)) && page == all[..Least(limit, |all|)]
  }

  ghost predicate Arranges(all: seq<DbMessage>, rows: seq<DbMessage>) {
    SortedBySeq(all) && multiset(all) == multiset(rows)
  }

  /** The pages a reader has fetched, each from the table as it stood at state `at` of a run. */
  datatype Reading = Nothing | Then(earlier: Reading, at: nat, page: seq<DbMessage>)

  /** The number of the last row delivered, 0 before the first. */
  function Cursor(r: Reading): int {
    match r
    case Nothing => 0
    case Then(earlier, _, page) => if page == [] then Cursor(earlier) else page[|page| - 1].seqNo
  }

  function Delivered(r: Reading): seq<DbMessage> {
    match r
    case Nothing => []
    case Then(earlier, _, page) => Delivered(earlier) + page
  }

  function PageCount(r: Reading): nat {
    match r
    case Nothing => 0
    case Then(earlier, _, _) => PageCount(earlier) + 1
  }

  /** The state the last page was read in. */
  function LastAt(r: Reading): nat {
    match r
    case Nothing => 0
    case Then(_, at, _) => at
  }

  /** No page is shorter than the limit. */
  predicate AllFull(r: Reading, limit: nat) {
    match r
    case Nothing => true
    case Then(earlier, _, page) => |page| >= limit && AllFull(earlier, limit)
  }

  /** Each page is read after the last number seen before, in the same or a later state. */
  ghost predicate IsReading(states: seq<State>, room: Uuid, limit: nat, r: Reading) {
    match r
    case Nothing => true
    case Then(earlier, at, page) =>
      && LastAt(earlier) <= at < |states|
      && IsReading(states, room, limit, earlier)
      && IsPage(states[at].messages, room, Cursor(earlier), limit, page)
  }

  // Pages of a room numbered in append order.

  /** Appending the row numbered next to a list that counts up, and cutting both at the cursor. */
  lemma CutOfAppend(before: seq<DbMessage>, last: DbMessage, after: nat)
    requires last.seqNo == |before| + 1
    ensures (before + [last])[Least(after, |before| + 1)..] ==
            before[Least(after, |before|)..] + if last.seqNo > after then [last] else []
  {
  }

  /** In such a room the rows after a cursor are those standing after it. */
  lemma {:induction false} MatchingOfOrdered(ms: Table, room: Uuid, after: nat)
    requires NumberedInOrder(ms, room)
    ensures Matching(ms, room, after) == Sequenced(ms, room)[Least(after, |Sequenced(ms, room)|)..]
  {
    if ms != [] {
      var init, last := ms[..|ms| - 1], ms[|ms| - 1];
      var before, rows := Sequenced(init, room), Sequenced(ms, room);
      if InRoom(last, room) && last.seqNo > 0 {
        assert rows == before + [last] && rows[|before|] == last;
        assert forall i :: 0 <= i < |before| ==> before[i] == rows[i];
        assert CountsUp(before);
        MatchingOfOrdered(init, room, after);
        CutOfAppend(before, last, after);
      } else {
        assert rows == before;
        MatchingOfOrdered(init, room, after);
      }
    }
  }

  /** Both lists start with their one smallest row. */
  lemma SameHead(a: seq<DbMessage>, b: seq<DbMessage>)
    requires a != [] && b != [] && forall i :: 0 < i < |a| ==> a[0].seqNo < a[i].seqNo
    requires SortedBySeq(b) && multiset(a) == multiset(b)
    ensures a[0] == b[0]
  {
    assert b[0] in multiset(a) && a[0] in multiset(b);
    var i :| 0 <= i < |a| && a[i] == b[0];
    var j :| 0 <= j < |b| && b[j] == a[0];
    assert b[0].seqNo <= b[j].seqNo;
  }

  lemma TailMultiset(rows: seq<DbMessage>)
    requires rows != []
    ensures multiset(rows[1..]) == multiset(rows) - multiset{rows[0]}
  {
    assert rows == [rows[0]] + rows[1..];
  }

  /** A strictly sorted list is the only sorted arrangement of its elements. */
  lemma {:induction false} StrictArrangement(a: seq<DbMessage>, b: seq<DbMessage>)
    requires forall i, j :: 0 <= i < j < |a| ==> a[i].seqNo < a[j].seqNo
    requires SortedBySeq(b) && multiset(a) == multiset(b)
    ensures a == b
  {
    assert |a| == |multiset(a)| == |multiset(b)| == |b|;
    if a != [] {
      SameHead(a, b);
      TailMultiset(a);
      TailMultiset(b);
      StrictArrangement(a[1..], b[1..]);
    }
  }

  /** The page holds the rows standing after the cursor, up to the limit; none if the cursor is past the end. */
  ghost predicate IsSlice(page: seq<DbMessage>, rows: seq<DbMessage>, after: nat, limit: nat) {
    page == rows[Least(after, |rows|)..Least(after + limit, |rows|)]
  }

  /** Cutting a tail is slicing the whole. */
  lemma SliceOfTail(rows: seq<DbMessage>, after: nat, limit: nat, rest: seq<DbMessage>)
    requires rest == rows[Least(after, |rows|)..]
    ensures IsSlice(rest[..Least(limit, |rest|)], rows, after, limit)
  {
  }

  /** A page of rows that are strictly sorted already is their beginning. */
  lemma PageOfSorted(ms: Table, room: Uuid, after: nat, limit: nat, page: seq<DbMessage>, rest: seq<DbMessage>)
    requires IsPage(ms, room, after, limit, page) && Matching(ms, room, after) == rest
    requires forall i, j :: 0 <= i < j < |rest| ==> rest[i].seqNo < rest[j].seqNo
    ensures page == rest[..Least(limit, |rest|)]
  {
    var all :| Arranges(all, Matching(ms, room, after)) && page == all[..Least(limit, |all|)];
    StrictArrangement(rest, all);
  }

  /** One page of such a room: the next rows, up to the limit. */
  lemma PageOfOrdered(ms: Table, room: Uuid, after: nat, limit: nat, page: seq<DbMessage>)
    requires NumberedInOrder(ms, room)
    requires IsPage(ms, room, after, limit, page)
    ensures IsSlice(page, Sequenced(ms, room), after, limit)
  {
    var rows := Sequenced(ms, room);
    var rest := rows[Least(after, |rows|)..];
    MatchingOfOrdered(ms, room, after);
    PageOfSorted(ms, room, after, limit, page, rest);
    SliceOfTail(rows, after, limit, rest);
  }

  /** The reader holds exactly the rows up to its cursor. */
  ghost predicate HoldsPrefix(r: Reading, rows: seq<DbMessage>) {
    0 <= Cursor(r) <= |rows| && Delivered(r) == rows[..Cursor(r)]
  }

  /** A page that continues a prefix ends where it is cut. */
  lemma PageEnds(rows: seq<DbMessage>, cursor: nat, end: nat, page: seq<DbMessage>)
    requires CountsUp(rows) && cursor <= end <= |rows| && page == rows[cursor..end]
    ensures rows[..cursor] + page == rows[..end]
    ensures page != [] ==> page[|page| - 1].seqNo == end
  {
  }

  /** The next page continues where the cursor stands. */
  lemma NextPage(rows: seq<DbMessage>, limit: nat, r: Reading, at: nat, page: seq<DbMessage>)
    requires CountsUp(rows) && HoldsPrefix(r, rows) && IsSlice(page, rows, Cursor(r), limit)
    ensures HoldsPrefix(Then(r, at, page), rows) && Cursor(Then(r, at, page)) == Cursor(r) + |page|
    ensures |page| < limit ==> Cursor(Then(r, at, page)) == |rows|
  {
    PageEnds(rows, Cursor(r), Least(Cursor(r) + limit, |rows|), page);
  }

  lemma PrefixGrows(r: Reading, rows: seq<DbMessage>, more: seq<DbMessage>)
    requires HoldsPrefix(r, rows) && rows <= more
    ensures HoldsPrefix(r, more)
  {
  }

  // Readers of a running log.

  /** Along a run the sequenced rows of a room only grow at the right. */
  lemma {:induction false} SequencedGrows(states: seq<State>, steps: seq<Step>, m: nat, n: nat, room: Uuid)
    requires IsRun(states, steps) && m <= n < |states|
    ensures Sequenced(states[m].messages, room) <= Sequenced(states[n].messages, room)
  {
    if m < n {
      SequencedGrows(states, steps, m, n - 1, room);
      RunKeepsInv(states, steps, n - 1);
      assert Follows(states, steps, n - 1);
      StepSequenced(states[n - 1], steps[n - 1], room);
    }
  }

  /** No append to the room commits over another before state n. */
  ghost predicate NoOverlap(states: seq<State>, steps: seq<Step>, room: Uuid, n: nat)
    requires IsRun(states, steps)
  {
    !exists i, j, k :: i < n && CommitsOver(states, steps, room, i, j, k)
  }

  /** A reader that has stopped at a cursor still holds a prefix when the log has moved on. */
  lemma HoldsLater(states: seq<State>, steps: seq<Step>, room: Uuid, r: Reading, m: nat, n: nat)
    requires IsRun(states, steps) && m <= n < |states|
    requires HoldsPrefix(r, Sequenced(states[m].messages, room))
    ensures HoldsPrefix(r, Sequenced(states[n].messages, room))
  {
    SequencedGrows(states, steps, m, n, room);
    PrefixGrows(r, Sequenced(states[m].messages, room), Sequenced(states[n].messages, room));
  }

  /**
   If no append to the room commits over another, a reader of any limit >= 1 gets every sequenced
   message once and in order, with appends going on between its pages: after each page it holds
   exactly the rows up to its cursor, a page shorter than the limit shows that these are all rows
   then stored, and full pages move the cursor, so a short page comes at last.
   */
  lemma {:induction false} ReaderGetsEveryMessageOnce(
      states: seq<State>, steps: seq<Step>, room: Uuid, limit: nat, r: Reading, n: nat)
    requires IsRun(states, steps) && IsReading(states, room, limit, r) && limit >= 1
    requires LastAt(r) <= n < |states| && NoOverlap(states, steps, room, n)
    ensures HoldsPrefix(r, Sequenced(states[n].messages, room))
    ensures r.Then? && r.at == n && |r.page| < limit ==> Delivered(r) == Sequenced(states[n].messages, room)
    ensures AllFull(r, limit) ==> Cursor(r) >= PageCount(r)
  {
    match r
    case Nothing =>
    case Then(earlier, at, page) =>
      ReaderGetsEveryMessageOnce(states, steps, room, limit, earlier, at);
      NoOverlapMeansAppendOrder(states, steps, at, room);
      var rows := Sequenced(states[at].messages, room);
      PageOfOrdered(states[at].messages, room, Cursor(earlier), limit, page);
      NextPage(rows, limit, earlier, at, page);
      HoldsLater(states, steps, room, r, at, n);
  }

  /** A reader cannot fetch more full pages than there are messages. */
  lemma ReaderStops(states: seq<State>, steps: seq<Step>, room: Uuid, limit: nat, r: Reading, n: nat)
    requires IsRun(states, steps) && IsReading(states, room, limit, r) && limit >= 1
    requires LastAt(r) <= n < |states| && NoOverlap(states, steps, room, n)
    requires AllFull(r, limit)
    ensures PageCount(r) <= |Sequenced(states[n].messages, room)|
  {
    ReaderGetsEveryMessageOnce(states, steps, room, limit, r, n);
  }

  // Pages of a room with a repeated number.

  ghost predicate DistinctIds(rows: seq<DbMessage>) {
    forall i, j :: 0 <= i < j < |rows| ==> rows[i].id != rows[j].id
  }

  /** The rows of an indexed table have distinct ids. */
  lemma {:induction false} SequencedDistinct(ms: Table, room: Uuid)
    requires Indexed(ms)
    ensures DistinctIds(Sequenced(ms, room))
  {
    if ms != [] {
      var init, last := ms[..|ms| - 1], ms[|ms| - 1];
      SequencedDistinct(init, room);
      var before := Sequenced(init, room);
      forall i | 0 <= i < |before|
        ensures before[i].id != last.id
      {
        SequencedMembers(init, room, before[i]);
        var k :| 0 <= k < |init| && init[k] == before[i];
        assert !Conflicts(ms[k], ms[|ms| - 1]);
      }
    }
  }

  /** Rows of a page carry numbers above the cursor. */
  lemma {:induction false} MatchingAbove(ms: Table, room: Uuid, after: int, row: DbMessage)
    requires row in Matching(ms, room, after)
    ensures row.seqNo > after
  {
    if row in Matching(ms[..|ms| - 1], room, after) {
      MatchingAbove(ms[..|ms| - 1], room, after, row);
    }
  }

  /** Rows of a page are rows of the table. */
  lemma {:induction false} MatchingStored(ms: Table, room: Uuid, after: int, row: DbMessage)
    requires row in Matching(ms, room, after)
    ensures row in ms && InRoom(row, room)
  {
    if row in Matching(ms[..|ms| - 1], room, after) {
      MatchingStored(ms[..|ms| - 1], room, after, row);
    }
  }

  lemma PageAbove(ms: Table, room: Uuid, after: int, limit: nat, page: seq<DbMessage>, i: nat)
    requires IsPage(ms, room, after, limit, page) && i < |page|
    ensures page[i].seqNo > after && page[i] in ms && InRoom(page[i], room)
  {
    var all :| Arranges(all, Matching(ms, room, after)) && page == all[..Least(limit, |all|)];
    assert all[i] in multiset(all);
    assert all[i] in multiset(Matching(ms, room, after));
    MatchingAbove(ms, room, after, page[i]);
    MatchingStored(ms, room, after, page[i]);
  }

  lemma PageAllAbove(ms: Table, room: Uuid, after: int, limit: nat, page: seq<DbMessage>)
    requires IsPage(ms, room, after, limit, page)
    ensures forall i :: 0 <= i < |page| ==> page[i].seqNo > after
  {
    forall i | 0 <= i < |page|
      ensures page[i].seqNo > after
    {
      PageAbove(ms, room, after, limit, page, i);
    }
  }

  /** A page is empty exactly when the limit is 0 or nothing matches. */
  lemma EmptyPageIff(ms: Table, room: Uuid, after: int, limit: nat, page: seq<DbMessage>)
    requires IsPage(ms, room, after, limit, page)
    ensures page == [] <==> limit == 0 || Matching(ms, room, after) == []
  {
    var rows := Matching(ms, room, after);
    var all :| Arranges(all, rows) && page == all[..Least(limit, |all|)];
    assert |all| == |multiset(all)| == |multiset(rows)| == |rows|;
  }

  /** Numbers delivered so far increase strictly, up to the cursor. */
  ghost predicate Increasing(r: Reading) {
    var got := Delivered(r);
    && (forall i, j :: 0 <= i < j < |got| ==> got[i].seqNo < got[j].seqNo)
    && (forall i :: 0 <= i < |got| ==> got[i].seqNo <= Cursor(r))
  }

  lemma IncreasingNext(r: Reading, at: nat, page: seq<DbMessage>)
    requires Increasing(r) && |page| <= 1 && (page != [] ==> page[0].seqNo > Cursor(r))
    ensures Increasing(Then(r, at, page))
  {
    assert Delivered(Then(r, at, page)) == Delivered(r) + page;
  }

  /** Reading one row at a time delivers strictly increasing numbers, whatever is stored. */
  lemma {:induction false} SingleRowsIncrease(states: seq<State>, room: Uuid, r: Reading)
    requires IsReading(states, room, 1, r)
    ensures Increasing(r)
  {
    match r
    case Nothing =>
    case Then(earlier, at, page) =>
      SingleRowsIncrease(states, room, earlier);
      if page != [] {
        PageAbove(states[at].messages, room, Cursor(earlier), 1, page, 0);
      }
      IncreasingNext(earlier, at, page);
  }

  /** Strictly increasing numbers leave out one of two rows with the same number. */
  lemma OneOfTwoMissing(a: DbMessage, b: DbMessage, got: seq<DbMessage>)
    requires a.seqNo == b.seqNo && a != b
    requires forall p, q :: 0 <= p < q < |got| ==> got[p].seqNo < got[q].seqNo
    ensures a !in got || b !in got
  {
  }

  /**
   If some append did commit over another, a reader with limit 1 misses a stored message for ever:
   however many pages it reads, two rows with one number are never both delivered.
   */
  lemma OverlapHidesAMessage(states: seq<State>, steps: seq<Step>, n: nat, room: Uuid, r: Reading)
    requires IsRun(states, steps) && n < |states|
    requires exists i, j, k :: i < n && CommitsOver(states, steps, room, i, j, k)
    requires IsReading(states, room, 1, r)
    ensures exists row :: row in Sequenced(states[n].messages, room) && row !in Delivered(r)
  {
    var ms := states[n].messages;
    assert HasDuplicate(ms, room) by {
      UniqueIffNoOverlap(states, steps, n, room);
    }
    assert Indexed(ms) by {
      RunKeepsInv(states, steps, n);
    }
    var rows := Sequenced(ms, room);
    SequencedDistinct(ms, room);
    var i, j :| 0 <= i < j < |rows| && rows[i].seqNo == rows[j].seqNo;
    SingleRowsIncrease(states, room, r);
    OneOfTwoMissing(rows[i], rows[j], Delivered(r));
    assert rows[i] in rows && rows[j] in rows;
  }

  // Readers of any page size.

  /** A bound on a list and one more row bounds every list of these rows. */
  lemma BoundKept(init: seq<DbMessage>, row: DbMessage, inner: seq<DbMessage>, bound: int)
    requires multiset(inner) == multiset(init) + multiset{row}
    requires row.seqNo <= bound && forall i :: 0 <= i < |init| ==> init[i].seqNo <= bound
    ensures forall i :: 0 <= i < |inner| ==> inner[i].seqNo <= bound
  {
    forall i | 0 <= i < |inner|
      ensures inner[i].seqNo <= bound
    {
      assert inner[i] in multiset(init) + multiset{row};
      if inner[i] != row {
        assert inner[i] in init;
      }
    }
  }

  /** A sorted list takes one more row. */
  lemma {:induction false} InsertRow(all: seq<DbMessage>, row: DbMessage) returns (more: seq<DbMessage>)
    requires SortedBySeq(all)
    ensures SortedBySeq(more) && multiset(more) == multiset(all) + multiset{row}
  {
    if all == [] || all[|all| - 1].seqNo <= row.seqNo {
      more := all + [row];
    } else {
      var init, last := all[..|all| - 1], all[|all| - 1];
      var inner := InsertRow(init, row);
      BoundKept(init, row, inner, last.seqNo);
      more := inner + [last];
      assert all == init + [last];
    }
  }

  lemma {:induction false} ArrangementExists(rows: seq<DbMessage>) returns (all: seq<DbMessage>)
    ensures Arranges(all, rows)
  {
    if rows == [] {
      all := [];
    } else {
      var init := ArrangementExists(rows[..|rows| - 1]);
      all := InsertRow(init, rows[|rows| - 1]);
      assert rows == rows[..|rows| - 1] + [rows[|rows| - 1]];
    }
  }

  /** The query always has an answer. */
  lemma PageExists(ms: Table, room: Uuid, after: int, limit: nat) returns (page: seq<DbMessage>)
    ensures IsPage(ms, room, after, limit, page)
  {
    var all := ArrangementExists(Matching(ms, room, after));
    page := all[..Least(limit, |all|)];
  }

  /** r' is r, or r read further. */
  predicate Continues(r: Reading, r': Reading) {
    r' == r || (r'.Then? && Continues(r, r'.earlier))
  }

  /** A row past the cursor matches. */
  lemma {:induction false} MatchingComplete(ms: Table, room: Uuid, after: int, row: DbMessage)
    requires row in ms && InRoom(row, room) && row.seqNo > after
    ensures row in Matching(ms, room, after)
  {
    var init := ms[..|ms| - 1];
    assert ms == init + [ms[|ms| - 1]];
    if row in init {
      MatchingComplete(init, room, after, row);
    }
  }

  lemma RowBelowTop(ms: Table, room: Uuid, row: DbMessage)
    requires row in ms && InRoom(row, room)
    ensures row.seqNo <= Top(ms, room)
  {
    var i :| 0 <= i < |ms| && ms[i] == row;
    TopBounds(ms, room, i);
  }

  /** The last row of a page lies past the cursor, and not past the highest number. */
  lemma LastOfPage(ms: Table, room: Uuid, after: int, limit: nat, page: seq<DbMessage>)
    requires IsPage(ms, room, after, limit, page) && page != []
    ensures after < page[|page| - 1].seqNo <= Top(ms, room)
  {
    PageAbove(ms, room, after, limit, page, |page| - 1);
    RowBelowTop(ms, room, page[|page| - 1]);
  }

  /** Any reader can read on until nothing is left. */
  lemma {:induction false} ReadToEnd(states: seq<State>, room: Uuid, limit: nat, r: Reading, m: nat) returns (r': Reading)
    requires IsReading(states, room, limit, r) && LastAt(r) <= m < |states| && limit >= 1
    ensures IsReading(states, room, limit, r') && Continues(r, r') && LastAt(r') <= m
    ensures Matching(states[m].messages, room, Cursor(r')) == []
    decreases Top(states[m].messages, room) - Cursor(r)
  {
    var ms := states[m].messages;
    if Matching(ms, room, Cursor(r)) == [] {
      r' := r;
    } else {
      var page := PageExists(ms, room, Cursor(r), limit);
      EmptyPageIff(ms, room, Cursor(r), limit, page);
      LastOfPage(ms, room, Cursor(r), limit, page);
      r' := ReadToEnd(states, room, limit, Then(r, m, page), m);
      ContinuesOn(r, Then(r, m, page), r');
    }
  }

  lemma {:induction false} ContinuesOn(a: Reading, b: Reading, c: Reading)
    requires Continues(a, b) && Continues(b, c)
    ensures Continues(a, c)
  {
    if c != b {
      ContinuesOn(a, b, c.earlier);
    }
  }

  lemma {:induction false} CursorNotNegative(states: seq<State>, room: Uuid, limit: nat, r: Reading)
    requires IsReading(states, room, limit, r)
    ensures Cursor(r) >= 0
  {
    match r
    case Nothing =>
    case Then(earlier, at, page) =>
      CursorNotNegative(states, room, limit, earlier);
      if page != [] {
        PageAbove(states[at].messages, room, Cursor(earlier), limit, page, |page| - 1);
      }
  }

  /** What a reader has got was stored and numbered when it last read. */
  lemma {:induction false} DeliveredStored(
      states: seq<State>, steps: seq<Step>, room: Uuid, limit: nat, r: Reading, m: nat, row: DbMessage)
    requires IsRun(states, steps) && IsReading(states, room, limit, r) && LastAt(r) <= m < |states|
    requires row in Delivered(r)
    ensures row in Sequenced(states[m].messages, room)
  {
    if row in r.page {
      var i :| 0 <= i < |r.page| && r.page[i] == row;
      PageAbove(states[r.at].messages, room, Cursor(r.earlier), limit, r.page, i);
      CursorNotNegative(states, room, limit, r.earlier);
      SequencedMembers(states[r.at].messages, room, row);
      SequencedGrows(states, steps, r.at, m, room);
    } else {
      DeliveredStored(states, steps, room, limit, r.earlier, m, row);
    }
  }

  /** Reading further delivers only rows past the cursor. */
  lemma {:induction false} LaterAbove(
      states: seq<State>, room: Uuid, limit: nat, r: Reading, r': Reading, row: DbMessage)
    requires Continues(r, r') && IsReading(states, room, limit, r')
    ensures Cursor(r') >= Cursor(r)
    ensures row in Delivered(r') ==> row in Delivered(r) || row.seqNo > Cursor(r)
  {
    if r' != r {
      LaterAbove(states, room, limit, r, r'.earlier, row);
      forall i | 0 <= i < |r'.page|
        ensures r'.page[i].seqNo > Cursor(r)
      {
        PageAbove(states[r'.at].messages, room, Cursor(r'.earlier), limit, r'.page, i);
      }
    }
  }

  /** The state in which the room had exactly the first q of its sequenced rows. */
  lemma {:induction false} StateBefore(states: seq<State>, steps: seq<Step>, room: Uuid, n: nat, q: nat) returns (k: nat)
    requires IsRun(states, steps) && n < |states| && q < |Sequenced(states[n].messages, room)|
    ensures k < n && Sequenced(states[k].messages, room) == Sequenced(states[n].messages, room)[..q]
  {
    assert n > 0;
    SequencedGrows(states, steps, n - 1, n, room);
    StepCount(states, steps, n - 1, room);
    var before, rows := Sequenced(states[n - 1].messages, room), Sequenced(states[n].messages, room);
    if q < |before| {
      k := StateBefore(states, steps, room, n - 1, q);
      assert before[..q] == rows[..q];
    } else {
      k := n - 1;
      assert before == rows[..q];
    }
  }

  /** After reading to the end the cursor is at or past every stored number. */
  lemma EndIsPast(ms: Table, room: Uuid, after: int, row: DbMessage)
    requires Matching(ms, room, after) == [] && row in Sequenced(ms, room)
    ensures row.seqNo <= after
  {
    SequencedMembers(ms, room, row);
    if row.seqNo > after {
      MatchingComplete(ms, room, after, row);
    }
  }

  /** No reading that continues this one ever delivers the row. */
  ghost predicate NeverDelivers(states: seq<State>, room: Uuid, limit: nat, r: Reading, row: DbMessage) {
    forall r' :: Continues(r, r') && IsReading(states, room, limit, r') ==> row !in Delivered(r')
  }

  /** A reader whose cursor has reached a row's number without the row never gets it. */
  lemma PassedBy(states: seq<State>, room: Uuid, limit: nat, r: Reading, row: DbMessage)
    requires row.seqNo <= Cursor(r) && row !in Delivered(r)
    ensures NeverDelivers(states, room, limit, r, row)
  {
    forall r' | Continues(r, r') && IsReading(states, room, limit, r')
      ensures row !in Delivered(r')
    {
      LaterAbove(states, room, limit, r, r', row);
    }
  }

  /**
   After an overlap, for every page size there is a reader that misses a stored message however it
   reads on: it read to the end just before the later of two equal numbers was committed.
   */
  lemma SomeReaderMisses(states: seq<State>, steps: seq<Step>, n: nat, room: Uuid, limit: nat)
    returns (r: Reading, row: DbMessage)
    requires IsRun(states, steps) && n < |states| && limit >= 1 && !NoOverlap(states, steps, room, n)
    ensures IsReading(states, room, limit, r) && LastAt(r) <= n && row in Sequenced(states[n].messages, room)
    ensures NeverDelivers(states, room, limit, r, row)
  {
    var rows := Sequenced(states[n].messages, room);
    var p, q := TwoAlike(states, steps, n, room);
    var k := StateBefore(states, steps, room, n, q);
    r := ReadToEnd(states, room, limit, Nothing, k);
    row := rows[q];
    assert rows[..q][p] == rows[p];
    EndIsPast(states[k].messages, room, Cursor(r), rows[p]);
    if row in Delivered(r) {
      DeliveredStored(states, steps, room, limit, r, k, row);
    }
    PassedBy(states, room, limit, r, row);
  }

  /** Two different rows with one number. */
  lemma TwoAlike(states: seq<State>, steps: seq<Step>, n: nat, room: Uuid) returns (p: nat, q: nat)
    requires IsRun(states, steps) && n < |states| && !NoOverlap(states, steps, room, n)
    ensures var rows := Sequenced(states[n].messages, room);
            p < q < |rows| && rows[p].seqNo == rows[q].seqNo && DistinctIds(rows)
  {
    UniqueIffNoOverlap(states, steps, n, room);
    RunKeepsInv(states, steps, n);
    SequencedDistinct(states[n].messages, room);
    var rows := Sequenced(states[n].messages, room);
    p, q :| 0 <= p < q < |rows| && rows[p].seqNo == rows[q].seqNo;
  }

  /** Every reader can still get every message stored by state n. */
  ghost predicate ReadersComplete(states: seq<State>, steps: seq<Step>, room: Uuid, limit: nat, n: nat)
    requires IsRun(states, steps) && n < |states|
  {
    forall r, row ::
      IsReading(states, room, limit, r) && LastAt(r) <= n && row in Sequenced(states[n].messages, room) ==>
      !NeverDelivers(states, room, limit, r, row)
  }

  /** Without overlap, reading to the end delivers the row. */
  lemma ReaderCompletes(
      states: seq<State>, steps: seq<Step>, room: Uuid, limit: nat, n: nat, r: Reading, row: DbMessage)
    requires IsRun(states, steps) && n < |states| && limit >= 1 && NoOverlap(states, steps, room, n)
    requires IsReading(states, room, limit, r) && LastAt(r) <= n && row in Sequenced(states[n].messages, room)
    ensures !NeverDelivers(states, room, limit, r, row)
  {
    var rows := Sequenced(states[n].messages, room);
    var r' := ReadToEnd(states, room, limit, r, n);
    ReaderGetsEveryMessageOnce(states, steps, room, limit, r', n);
    NoOverlapMeansAppendOrder(states, steps, n, room);
    EndIsPast(states[n].messages, room, Cursor(r'), rows[|rows| - 1]);
    assert Delivered(r') == rows;
  }

  /**
   For every page size: every reader can get every message, however far it has read, if and only if
   no append to the room committed over another.
   */
  lemma ReadersCompleteIff(states: seq<State>, steps: seq<Step>, room: Uuid, limit: nat, n: nat)
    requires IsRun(states, steps) && n < |states| && limit >= 1
    ensures ReadersComplete(states, steps, room, limit, n) <==> NoOverlap(states, steps, room, n)
  {
    if NoOverlap(states, steps, room, n) {
      forall r, row |
        IsReading(states, room, limit, r) && LastAt(r) <= n && row in Sequenced(states[n].messages, room)
        ensures !NeverDelivers(states, room, limit, r, row)
      {
        ReaderCompletes(states, steps, room, limit, n, r, row);
      }
    } else {
      var r, row := SomeReaderMisses(states, steps, n, room, limit);
    }
  }
}
