/** The index half of storage/meta/db-meta-manager.go as a state machine: a bounded queue of rows still
    to be created in the table, a cache of the table's earliest rows, and background jobs that move rows. */
module IndexMeta {
  import opened Options
  import opened Sequences
  import opened IndexRows

  /** Capacities of the earliest-index cache and of the queue; the constructor raises both to 16. */
  datatype Config = Config(earliestCap: nat, createdCap: nat)

  ghost predicate Sizes(c: Config) {
    c.earliestCap >= 16 && c.createdCap >= 16
  }

  /** Where a task is between taking a row, changing the table and reporting the change. */
  datatype Phase = Idle | Picked(row: Row) | Done(row: Row)

  /** Where a refill of the cache is between its look at the cache, its read of the table and its push. */
  datatype Growing =
    | Rest
    | Looked(startSeq: nat, startTime: int, need: nat)
    | Read(afterSeq: nat, afterTime: int, rows: seq<Row>)

  /** The fields of the manager, the table, and what became of the rows: those whose insertion was reported,
      in their order, and those deleted from the table. */
  datatype Meta = Meta(table: seq<Row>, queue: seq<Row>, creating: Phase, latest: Option<Row>, offset: int,
                       earliest: seq<Row>, loadable: nat, needDeleted: nat, deleting: Phase,
                       growing: Growing, done: seq<Row>, removed: seq<Row>)

  datatype Event =
    | Add(draft: Row)
    | PickCreated
    | InsertPicked
    | CompleteCreate
    | Delete
    | PickDeleted
    | RemovePicked
    | CompleteDelete
    | GrowLook
    | GrowRead
    | GrowPush

  // ----- the table

  /** The rows behind a sequence number. */
  function After(rows: seq<Row>, seqNo: nat): seq<Row> {
    if rows == [] then []
    else (if rows[0].seqNo > seqNo then [rows[0]] else []) + After(rows[1..], seqNo)
  }

  /** The rows before a sequence number. */
  function Below(rows: seq<Row>, seqNo: nat): seq<Row> {
    if rows == [] then []
    else (if rows[0].seqNo < seqNo then [rows[0]] else []) + Below(rows[1..], seqNo)
  }

  /** The rows left once the one with a sequence number is deleted. */
  function Without(rows: seq<Row>, seqNo: nat): seq<Row> {
    if rows == [] then []
    else (if rows[0].seqNo != seqNo then [rows[0]] else []) + Without(rows[1..], seqNo)
  }

  lemma {:induction false} AfterIsSuffix(rows: seq<Row>, n: nat, seqNo: nat)
    requires n <= |rows|
    requires forall i :: 0 <= i < n ==> rows[i].seqNo <= seqNo
    requires forall i :: n <= i < |rows| ==> rows[i].seqNo > seqNo
    ensures After(rows, seqNo) == rows[n..]
  {
    if rows != [] {
      AfterIsSuffix(rows[1..], if n == 0 then 0 else n - 1, seqNo);
    }
  }

  lemma {:induction false} BelowIsPrefix(rows: seq<Row>, n: nat, seqNo: nat)
    requires n <= |rows|
    requires forall i :: 0 <= i < n ==> rows[i].seqNo < seqNo
    requires forall i :: n <= i < |rows| ==> rows[i].seqNo >= seqNo
    ensures Below(rows, seqNo) == rows[..n]
  {
    if rows != [] {
      var rest := rows[1..];
      BelowIsPrefix(rest, if n == 0 then 0 else n - 1, seqNo);
      if n > 0 {
        assert rows[..n] == [rows[0]] + rest[..n - 1];
      }
    }
  }

  lemma {:induction false} WithoutNone(rows: seq<Row>, seqNo: nat)
    requires forall i :: 0 <= i < |rows| ==> rows[i].seqNo != seqNo
    ensures Without(rows, seqNo) == rows
  {
    if rows != [] {
      WithoutNone(rows[1..], seqNo);
      assert rows == [rows[0]] + rows[1..];
    }
  }

  lemma WithoutHead(rows: seq<Row>)
    requires rows != [] && Chain(rows)
    ensures Without(rows, rows[0].seqNo) == rows[1..]
  {
    assert forall i :: 0 <= i < |rows[1..]| ==> rows[1..][i] == rows[i + 1];
    WithoutNone(rows[1..], rows[0].seqNo);
  }

  // ----- the steps

  /** AddIndex's correction: the channel's time offset, and a further one if the interval would still
      start before the last one ended. */
  function Shift(m: Meta, draft: Row): int {
    var start := draft.start + m.offset;
    if m.latest.Some? && start < m.latest.value.end then m.latest.value.end - start else 0
  }

  function Corrected(m: Meta, draft: Row): Row {
    var shift := m.offset + Shift(m, draft);
    draft.(seqNo := if m.latest.Some? then m.latest.value.seqNo + 1 else 1,
           start := draft.start + shift, end := draft.end + shift)
  }

  /** The row that stands for everything dropped while the queue is full. */
  function Placeholder(r: Row): Row {
    r.(fileSeq := 0, fileOffset := 0, size := 0, state := DROPPED)
  }

  function ExtendLast(rows: seq<Row>, end: int): seq<Row>
    requires rows != []
  {
    rows[..|rows| - 1] + [rows[|rows| - 1].(end := end)]
  }

  function AddStep(c: Config, m: Meta, draft: Row): Meta {
    var r := Corrected(m, draft);
    var m1 := m.(offset := m.offset + Shift(m, draft));
    if |m.queue| + 1 < c.createdCap then m1.(queue := m.queue + [r], latest := Some(r))
    else if |m.queue| < c.createdCap || m.queue == [] then
      m1.(queue := m.queue + [Placeholder(r)], latest := Some(Placeholder(r)))
    else
      var queue := ExtendLast(m.queue, r.end);
      m1.(queue := queue, latest := Some(queue[|queue| - 1]))
  }

  function CompleteCreateStep(c: Config, m: Meta): Meta
    requires m.queue != []
  {
    var m1 := m.(queue := m.queue[1..], creating := Idle, done := m.done + [m.queue[0]]);
    if m.loadable < c.earliestCap then m1.(earliest := m.earliest + [m.queue[0]], loadable := m.loadable + 1)
    else m1
  }

  function LastSeq(rows: seq<Row>): nat {
    if rows == [] then 0 else rows[|rows| - 1].seqNo
  }

  function LastEnd(rows: seq<Row>): int {
    if rows == [] then 0 else rows[|rows| - 1].end
  }

  /** growEarliestIndexes looks, under the lock, where the cache ends and how much room it has. */
  function GrowLookStep(c: Config, m: Meta): Meta {
    if !m.growing.Rest? || |m.earliest| >= c.earliestCap then m
    else m.(growing := Looked(LastSeq(m.earliest), LastEnd(m.earliest), c.earliestCap - |m.earliest|))
  }

  /** It reads the table, without the lock. */
  function GrowReadStep(m: Meta): Meta {
    match m.growing
    case Looked(startSeq, startTime, need) =>
      m.(growing := Read(startSeq, startTime, First(need, After(m.table, startSeq))))
    case _ => m
  }

  function Room(c: Config, rows: seq<Row>): nat {
    if |rows| <= c.earliestCap then c.earliestCap - |rows| else 0
  }

  /** Of what was read, the rows that pass the order filter, as many as the cache has room for by then. */
  function Pushable(c: Config, m: Meta): seq<Row> {
    match m.growing
    case Read(afterSeq, afterTime, rows) =>
      First(Room(c, m.earliest), Accepted(NewChecker(afterTime, 0, afterSeq, 0), rows))
    case _ => []
  }

  /** It pushes them, under the lock again. */
  function GrowPushStep(c: Config, m: Meta): Meta {
    if !m.growing.Read? then m
    else
      var earliest := m.earliest + Pushable(c, m);
      m.(earliest := earliest, loadable := |earliest|, growing := Rest)
  }

  /** The whole refill, with nothing in between. */
  function GrowStep(c: Config, m: Meta): Meta {
    GrowPushStep(c, GrowReadStep(GrowLookStep(c, m)))
  }

  /** A step that is not enabled changes nothing. */
  function Next(c: Config, m: Meta, e: Event): Meta {
    match e
    case Add(draft) => AddStep(c, m, draft)
    case PickCreated => if m.creating.Idle? && m.queue != [] then m.(creating := Picked(m.queue[0])) else m
    case InsertPicked =>
      if m.creating.Picked? then m.(table := m.table + [m.creating.row], creating := Done(m.creating.row)) else m
    case CompleteCreate => if m.creating.Done? && m.queue != [] then CompleteCreateStep(c, m) else m
    case Delete => if m.needDeleted == |m.earliest| then m else m.(needDeleted := m.needDeleted + 1)
    case PickDeleted =>
      if m.deleting.Idle? && m.needDeleted > 0 && m.earliest != [] then m.(deleting := Picked(m.earliest[0])) else m
    case RemovePicked =>
      if m.deleting.Picked? then
        m.(table := Without(m.table, m.deleting.row.seqNo), deleting := Done(m.deleting.row),
           removed := m.removed + [m.deleting.row])
      else m
    case CompleteDelete =>
      if m.deleting.Done? && m.needDeleted > 0 && m.earliest != [] then
        m.(earliest := m.earliest[1..], needDeleted := m.needDeleted - 1, deleting := Idle)
      else m
    case GrowLook => GrowLookStep(c, m)
    case GrowRead => GrowReadStep(m)
    case GrowPush => GrowPushStep(c, m)
  }

  function Run(c: Config, m: Meta, events: seq<Event>): Meta
    decreases |events|
  {
    if events == [] then m else Run(c, Next(c, m, events[0]), events[1..])
  }

  /** Intervals are added with their ends in order. */
  predicate Legal(e: Event) {
    e.Add? ==> e.draft.start <= e.draft.end
  }

  ghost predicate LegalRun(events: seq<Event>) {
    forall i :: 0 <= i < |events| ==> Legal(events[i])
  }

  // ----- the log that the parts make up

  /** The rows without those that are gone. */
  function Remaining(rows: seq<Row>, gone: seq<Row>): seq<Row> {
    if rows == [] then []
    else (if rows[0] in gone then [] else [rows[0]]) + Remaining(rows[1..], gone)
  }

  /** The row that is inserted but still at the head of the queue. */
  function InFlight(m: Meta): seq<Row> {
    if m.creating.Done? then [m.creating.row] else []
  }

  /** All rows ever inserted into the table. */
  function Made(m: Meta): seq<Row> {
    m.done + InFlight(m)
  }

  /** What the table holds of the rows whose insertion was reported. */
  function Settled(m: Meta): seq<Row> {
    Remaining(m.done, m.removed)
  }

  /** The log: settled rows, then rows still to be created. */
  function Log(m: Meta): seq<Row> {
    Settled(m) + m.queue
  }

  /** All rows ever, the ones deleted since included. */
  function History(m: Meta): seq<Row> {
    m.done + m.queue
  }

  ghost predicate LogOk(m: Meta) {
    && Chain(History(m))
    && (History(m) == [] <==> m.latest == None)
    && (History(m) != [] ==> m.latest == Some(History(m)[|History(m)| - 1]))
  }

  ghost predicate QueueOk(c: Config, m: Meta) {
    && |m.queue| <= c.createdCap
    && (m.queue != [] && |m.queue| == c.createdCap ==> m.queue[|m.queue| - 1].state == DROPPED)
    && (!m.creating.Idle? ==> m.queue != [] && m.queue[0] == m.creating.row)
  }

  /** The table holds what was inserted and not deleted, in order; what is deleted, cached or read by a refill
      was inserted. */
  ghost predicate TableOk(m: Meta) {
    && m.table == Remaining(Made(m), m.removed)
    && (forall r :: r in m.removed ==> r in Made(m))
    && (forall r :: r in m.earliest ==> r in Made(m))
    && (m.growing.Read? ==> forall r :: r in m.growing.rows ==> r in Made(m))
  }

  ghost predicate CountsOk(c: Config, m: Meta) {
    m.needDeleted <= |m.earliest| <= m.loadable <= c.earliestCap
  }

  ghost predicate DeleteOk(m: Meta) {
    && (!m.deleting.Idle? ==> m.needDeleted > 0 && m.earliest != [] && m.earliest[0] == m.deleting.row)
    && (m.deleting.Done? ==> m.removed != [] && m.removed[|m.removed| - 1] == m.deleting.row)
  }

  /** What holds whatever the jobs do in between each other. */
  ghost predicate Inv(c: Config, m: Meta) {
    LogOk(m) && QueueOk(c, m) && TableOk(m) && CountsOk(c, m) && DeleteOk(m)
  }

  // ----- what remains of rows

  lemma {:induction false} RemainingSplit(a: seq<Row>, b: seq<Row>, gone: seq<Row>)
    ensures Remaining(a + b, gone) == Remaining(a, gone) + Remaining(b, gone)
  {
    if a == [] {
      NothingBefore(b);
    } else {
      assert (a + b)[1..] == a[1..] + b;
      RemainingSplit(a[1..], b, gone);
    }
  }

  lemma {:induction false} RemainingAll(rows: seq<Row>, gone: seq<Row>)
    requires forall r :: r in rows ==> r !in gone
    ensures Remaining(rows, gone) == rows
  {
    if rows != [] {
      RemainingAll(rows[1..], gone);
      assert rows == [rows[0]] + rows[1..];
    }
  }

  lemma {:induction false} RemainingHas(rows: seq<Row>, gone: seq<Row>, r: Row)
    ensures r in Remaining(rows, gone) <==> r in rows && r !in gone
  {
    if rows != [] {
      RemainingHas(rows[1..], gone, r);
      assert r in rows <==> r == rows[0] || r in rows[1..];
    }
  }

  /** Deleting one more row. */
  lemma {:induction false} RemainingWithout(rows: seq<Row>, gone: seq<Row>, r: Row)
    requires forall x :: x in rows ==> (x.seqNo == r.seqNo <==> x == r)
    ensures Without(Remaining(rows, gone), r.seqNo) == Remaining(rows, gone + [r])
  {
    if rows != [] {
      RemainingWithout(rows[1..], gone, r);
      var rest := Remaining(rows[1..], gone);
      assert rows[0] in rows;
      assert rows[0] in gone + [r] <==> rows[0] in gone || rows[0] == r;
      NothingBefore(rest);
      NothingBefore(Without(rest, r.seqNo));
      NothingBefore(Remaining(rows[1..], gone + [r]));
      assert ([rows[0]] + rest)[1..] == rest;
    }
  }

  lemma {:induction false} RemainingChain(rows: seq<Row>, gone: seq<Row>)
    requires Chain(rows)
    ensures Chain(Remaining(rows, gone))
  {
    if rows != [] {
      hide Chain;
      var r, rest := rows[0], rows[1..];
      var later := Remaining(rest, gone);
      HeadOfChain(rows);
      RemainingChain(rest, gone);
      forall k | 0 <= k < |later| ensures r.seqNo < later[k].seqNo && r.end <= later[k].start {
        RemainingHas(rest, gone, later[k]);
      }
      ChainCons(r, later);
      NothingBefore(later);
    }
  }

  lemma HeadOfChain(rows: seq<Row>)
    requires Chain(rows) && rows != []
    ensures Chain(rows[1..]) && 0 < rows[0].seqNo && rows[0].start <= rows[0].end
    ensures forall r :: r in rows[1..] ==> rows[0].seqNo < r.seqNo && rows[0].end <= r.start
  {
    assert rows == [rows[0]] + rows[1..];
    ChainParts([rows[0]], rows[1..]);
  }

  lemma OneOfChain(rows: seq<Row>, r: Row)
    requires Chain(rows) && r in rows
    ensures forall x :: x in rows ==> (x.seqNo == r.seqNo <==> x == r)
  {
  }

  /** The rows inserted are the beginning of all rows. */
  lemma MadeIsPrefix(c: Config, m: Meta)
    requires QueueOk(c, m)
    ensures Made(m) <= History(m) && |m.done| <= |Made(m)| && Made(m)[..|m.done|] == m.done
    ensures History(m) == Made(m) + (if m.creating.Done? then m.queue[1..] else m.queue)
  {
    if m.creating.Done? {
      HeadAndTail(m.queue);
      Assoc(m.done, [m.queue[0]], m.queue[1..]);
    } else {
      NothingBehind(m.done);
    }
  }

  lemma MadeChain(c: Config, m: Meta)
    requires LogOk(m) && QueueOk(c, m)
    ensures Chain(Made(m)) && Chain(m.done)
    ensures forall r, x :: r in m.done && x in m.queue ==> r.seqNo < x.seqNo && r.end <= x.start
  {
    hide Chain, Made, History;
    LogFacts(m);
    MadeIsPrefix(c, m);
    ChainParts(Made(m), if m.creating.Done? then m.queue[1..] else m.queue);
    QueueBehind(m);
  }

  lemma QueueBehind(m: Meta)
    requires Chain(History(m))
    ensures Chain(m.done) && Chain(m.queue)
    ensures forall r, x :: r in m.done && x in m.queue ==> r.seqNo < x.seqNo && r.end <= x.start
  {
    hide Chain;
    ChainParts(m.done, m.queue);
  }

  lemma HeadAndTail<T>(s: seq<T>)
    requires s != []
    ensures [s[0]] + s[1..] == s
  {
  }

  lemma LogFacts(m: Meta)
    requires LogOk(m)
    ensures Chain(History(m)) && (History(m) != [] ==> m.latest == Some(History(m)[|History(m)| - 1]))
  {
  }

  lemma LogSame(m: Meta, m1: Meta)
    requires History(m1) == History(m) && m1.latest == m.latest
    ensures LogOk(m1) == LogOk(m)
  {
  }

  /** The table: the settled rows and, unless it is deleted already, the row in flight. */
  lemma TableIs(c: Config, m: Meta)
    requires Inv(c, m)
    ensures m.table == Settled(m) + Remaining(InFlight(m), m.removed)
    ensures Chain(m.table) && Chain(Settled(m))
  {
    hide LogOk, QueueOk, Chain, CountsOk, DeleteOk;
    MadeChain(c, m);
    RemainingSplit(m.done, InFlight(m), m.removed);
    RemainingChain(Made(m), m.removed);
    RemainingChain(m.done, m.removed);
  }

  // ----- a row, once added, stays

  /** The later rows go on from the earlier ones: none is lost or changed, but a placeholder may come to
      stand for a longer interval. */
  ghost predicate Grows(before: seq<Row>, later: seq<Row>) {
    && |before| <= |later|
    && forall i :: 0 <= i < |before| ==>
         && later[i] == before[i].(end := later[i].end)
         && before[i].end <= later[i].end
         && (before[i].state != DROPPED ==> later[i] == before[i])
  }

  lemma GrowsTransitive(a: seq<Row>, b: seq<Row>, d: seq<Row>)
    requires Grows(a, b) && Grows(b, d)
    ensures Grows(a, d)
  {
    forall i | 0 <= i < |a|
      ensures d[i] == a[i].(end := d[i].end) && a[i].end <= d[i].end && (a[i].state != DROPPED ==> d[i] == a[i])
    {
      assert b[i] == a[i].(end := b[i].end) && d[i] == b[i].(end := d[i].end);
    }
  }

  lemma ChainSnoc(rows: seq<Row>, r: Row)
    requires Chain(rows) && r.start <= r.end && r.seqNo > 0
    requires rows != [] ==> rows[|rows| - 1].seqNo < r.seqNo && rows[|rows| - 1].end <= r.start
    ensures Chain(rows + [r])
  {
    if rows != [] {
      var n := |rows| - 1;
      forall i | 0 <= i < |rows| ensures rows[i].seqNo < r.seqNo && rows[i].end <= r.start {
        assert rows[n].start <= rows[n].end;
        assert i < n ==> rows[i].seqNo < rows[n].seqNo && rows[i].end <= rows[n].start;
      }
    }
  }

  lemma ChainExtend(rows: seq<Row>, end: int)
    requires Chain(rows) && rows != [] && rows[|rows| - 1].end <= end
    ensures Chain(ExtendLast(rows, end))
  {
    var n := |rows| - 1;
    var longer := ExtendLast(rows, end);
    assert longer[n] == rows[n].(end := end);
    assert forall i :: 0 <= i < n ==> longer[i] == rows[i];
  }

  lemma ExtendBehind(a: seq<Row>, b: seq<Row>, end: int)
    requires b != []
    ensures ExtendLast(a + b, end) == a + ExtendLast(b, end)
  {
  }

  lemma LastOf(a: seq<Row>, b: seq<Row>)
    requires b != []
    ensures (a + b)[|a + b| - 1] == b[|b| - 1]
  {
  }

  /** What AddIndex does to the log: a row at its end, or a longer last row. */
  lemma AddExtendsHistory(c: Config, m: Meta, draft: Row)
    requires Sizes(c) && QueueOk(c, m) && draft.start <= draft.end
    ensures var r := Corrected(m, draft); var h := History(m);
            History(AddStep(c, m, draft)) ==
            (if |m.queue| + 1 < c.createdCap then h + [r]
             else if |m.queue| < c.createdCap then h + [Placeholder(r)]
             else ExtendLast(h, r.end))
  {
    hide Corrected, Shift;
    var r := Corrected(m, draft);
    if |m.queue| < c.createdCap {
      Assoc(m.done, m.queue, [if |m.queue| + 1 < c.createdCap then r else Placeholder(r)]);
    } else {
      ExtendBehind(m.done, m.queue, r.end);
    }
  }

  /** The corrected interval keeps its length and what the row says otherwise; it moves with the channel's
      offset, and further only as far as the end of the last one, which the offset then remembers. */
  lemma CorrectedFits(m: Meta, draft: Row)
    requires LogOk(m) && draft.start <= draft.end
    ensures var r := Corrected(m, draft); var h := History(m); var start := draft.start + m.offset;
            && 0 < r.seqNo && r.start <= r.end && r.end - r.start == draft.end - draft.start
            && r == draft.(seqNo := r.seqNo, start := r.start, end := r.end)
            && m.offset + Shift(m, draft) == r.start - draft.start
            && (h == [] ==> r.seqNo == 1 && r.start == start)
            && (h != [] ==>
                  && r.seqNo == h[|h| - 1].seqNo + 1 && h[|h| - 1].end <= r.start
                  && r.start == if start < h[|h| - 1].end then h[|h| - 1].end else start)
  {
    var h := History(m);
    if h != [] {
      assert m.latest == Some(h[|h| - 1]);
    }
  }

  lemma GrowsSnoc(rows: seq<Row>, r: Row)
    ensures Grows(rows, rows + [r])
  {
  }

  lemma GrowsExtend(rows: seq<Row>, end: int)
    requires rows != [] && rows[|rows| - 1].end <= end && rows[|rows| - 1].state == DROPPED
    ensures Grows(rows, ExtendLast(rows, end))
  {
  }

  lemma LogOkFrom(m: Meta, rows: seq<Row>)
    requires History(m) == rows && rows != [] && Chain(rows) && m.latest == Some(rows[|rows| - 1])
    ensures LogOk(m)
  {
  }

  lemma PushKeepsLog(c: Config, m: Meta, draft: Row)
    requires Sizes(c) && LogOk(m) && QueueOk(c, m) && draft.start <= draft.end && |m.queue| < c.createdCap
    ensures LogOk(AddStep(c, m, draft)) && Grows(History(m), History(AddStep(c, m, draft)))
  {
    hide LogOk, QueueOk, Chain, Shift, Corrected, Grows, History;
    LogFacts(m);
    CorrectedFits(m, draft);
    AddExtendsHistory(c, m, draft);
    var r := Corrected(m, draft);
    var last := if |m.queue| + 1 < c.createdCap then r else Placeholder(r);
    ChainSnoc(History(m), last);
    GrowsSnoc(History(m), last);
    LogOkFrom(AddStep(c, m, draft), History(m) + [last]);
  }

  lemma HistoryEndsInQueue(m: Meta)
    requires m.queue != []
    ensures History(m) != [] && History(m)[|History(m)| - 1] == m.queue[|m.queue| - 1]
  {
    LastOf(m.done, m.queue);
  }

  lemma MergeKeepsLog(c: Config, m: Meta, draft: Row)
    requires Sizes(c) && LogOk(m) && QueueOk(c, m) && draft.start <= draft.end && |m.queue| == c.createdCap
    ensures LogOk(AddStep(c, m, draft)) && Grows(History(m), History(AddStep(c, m, draft)))
  {
    hide LogOk, Chain, Shift, Corrected, Grows, History;
    LogFacts(m);
    CorrectedFits(m, draft);
    AddExtendsHistory(c, m, draft);
    HistoryEndsInQueue(m);
    var r := Corrected(m, draft);
    ChainExtend(History(m), r.end);
    GrowsExtend(History(m), r.end);
    LogOkFrom(AddStep(c, m, draft), ExtendLast(History(m), r.end));
  }

  lemma AddKeepsQueue(c: Config, m: Meta, draft: Row)
    requires Sizes(c) && QueueOk(c, m)
    ensures QueueOk(c, AddStep(c, m, draft))
  {
    hide Corrected, Shift;
  }

  lemma AddLeaves(c: Config, m: Meta, draft: Row)
    requires Sizes(c) && QueueOk(c, m)
    ensures var m1 := AddStep(c, m, draft);
            m1 == m.(queue := m1.queue, offset := m1.offset, latest := m1.latest)
  {
    hide Corrected, Shift;
  }

  lemma AddKeeps(c: Config, m: Meta, draft: Row)
    requires Sizes(c) && Inv(c, m) && draft.start <= draft.end
    ensures Inv(c, AddStep(c, m, draft)) && Grows(History(m), History(AddStep(c, m, draft)))
  {
    hide LogOk, Grows, History, QueueOk, AddStep;
    QueueFits(c, m);
    if |m.queue| < c.createdCap {
      PushKeepsLog(c, m, draft);
    } else {
      MergeKeepsLog(c, m, draft);
    }
    AddKeepsQueue(c, m, draft);
    AddLeaves(c, m, draft);
  }

  lemma QueueFits(c: Config, m: Meta)
    requires QueueOk(c, m)
    ensures |m.queue| <= c.createdCap
  {
  }

  lemma GrowsSame(rows: seq<Row>)
    ensures Grows(rows, rows)
  {
  }

  // ----- the other steps keep the invariant and all rows

  /** The rows that a step leaves are those there were, and none is taken back. */
  ghost predicate Goes(c: Config, m: Meta, m1: Meta) {
    Inv(c, m1) && History(m1) == History(m) && m.done <= m1.done && m.removed <= m1.removed
  }

  lemma InsertKeeps(c: Config, m: Meta)
    requires Inv(c, m) && m.creating.Picked?
    ensures Goes(c, m, Next(c, m, InsertPicked))
  {
    hide LogOk, Chain, Remaining, Without, AddStep, CompleteCreateStep, GrowLookStep, GrowReadStep, GrowPushStep;
    var m1 := Next(c, m, InsertPicked);
    var x := m.creating.row;
    MadeChain(c, m);
    NothingBehind(m.done);
    assert x in m.queue && x !in m.removed;
    RemainingSplit(m.done, [x], m.removed);
    RemainingAll([x], m.removed);
    LogSame(m, m1);
  }

  lemma CompleteCreateKeeps(c: Config, m: Meta)
    requires Inv(c, m) && m.creating.Done?
    ensures var m1 := Next(c, m, CompleteCreate);
            && Goes(c, m, m1) && m.queue != [] && m.queue[0] == m.creating.row && Made(m1) == Made(m)
            && m1.done == m.done + [m.queue[0]] && m1.queue == m.queue[1..]
  {
    hide LogOk, Chain, Remaining;
    var m1 := Next(c, m, CompleteCreate);
    HeadAndTail(m.queue);
    Assoc(m.done, [m.queue[0]], m.queue[1..]);
    NothingBehind(m1.done);
    assert m.creating.row in Made(m);
    LogSame(m, m1);
  }

  lemma RemoveKeeps(c: Config, m: Meta)
    requires Inv(c, m) && m.deleting.Picked?
    ensures Goes(c, m, Next(c, m, RemovePicked))
  {
    hide LogOk, QueueOk, Chain, Remaining, Without, Made, History;
    var m1 := Next(c, m, RemovePicked);
    assert m.deleting.row in m.earliest;
    MadeChain(c, m);
    OneOfChain(Made(m), m.deleting.row);
    RemainingWithout(Made(m), m.removed, m.deleting.row);
    SameRows(m, m1);
    SameQueue(c, m, m1);
  }

  lemma SameRows(m: Meta, m1: Meta)
    requires m1.done == m.done && m1.queue == m.queue && m1.latest == m.latest
    ensures History(m1) == History(m) && LogOk(m1) == LogOk(m)
    ensures m1.creating == m.creating ==> Made(m1) == Made(m) && InFlight(m1) == InFlight(m)
    ensures m1.creating.Done? == m.creating.Done? == false ==> Made(m1) == Made(m) && InFlight(m1) == InFlight(m)
  {
    LogSame(m, m1);
  }

  lemma SameQueue(c: Config, m: Meta, m1: Meta)
    requires QueueOk(c, m) && m1.queue == m.queue && m1.creating == m.creating
    ensures QueueOk(c, m1)
  {
  }

  lemma CompleteDeleteKeeps(c: Config, m: Meta)
    requires Inv(c, m) && m.deleting.Done?
    ensures Goes(c, m, Next(c, m, CompleteDelete))
  {
    hide LogOk, QueueOk, Remaining, Made, History;
    var m1 := Next(c, m, CompleteDelete);
    SameRows(m, m1);
    SameQueue(c, m, m1);
  }

  lemma PickKeeps(c: Config, m: Meta, e: Event)
    requires Inv(c, m) && (e.PickCreated? || e.Delete? || e.PickDeleted?)
    ensures Goes(c, m, Next(c, m, e))
  {
    hide LogOk, Remaining, Made, History;
    var m1 := Next(c, m, e);
    SameRows(m, m1);
  }

  lemma {:induction false} AfterHas(rows: seq<Row>, seqNo: nat, r: Row)
    requires r in After(rows, seqNo)
    ensures r in rows && r.seqNo > seqNo
  {
    if rows != [] && !(rows[0].seqNo > seqNo && r == rows[0]) {
      AfterHas(rows[1..], seqNo, r);
    }
  }

  lemma {:induction false} AcceptedHas(c: Checker, rows: seq<Row>, r: Row)
    requires r in Accepted(c, rows)
    ensures r in rows
    decreases rows
  {
    if rows != [] && !(CheckRow(c, rows[0]).1 && r == rows[0]) {
      AcceptedHas(CheckRow(c, rows[0]).0, rows[1..], r);
    }
  }

  lemma TableHas(m: Meta, r: Row)
    requires TableOk(m) && r in m.table
    ensures r in Made(m) && r !in m.removed
  {
    RemainingHas(Made(m), m.removed, r);
  }

  lemma ReadTouchesNothing(m: Meta)
    ensures GrowReadStep(m) == m.(growing := GrowReadStep(m).growing)
    ensures m.growing.Looked? ==> GrowReadStep(m).growing.Read?
    ensures forall r :: m.growing.Looked? && r in GrowReadStep(m).growing.rows ==> r in After(m.table, m.growing.startSeq)
  {
    hide After;
  }

  lemma GrowReadKeeps(c: Config, m: Meta)
    requires Inv(c, m)
    ensures Goes(c, m, GrowReadStep(m))
  {
    hide LogOk, QueueOk, Remaining, Made, History, First, After, GrowReadStep;
    var m1 := GrowReadStep(m);
    ReadTouchesNothing(m);
    SameRows(m, m1);
    SameQueue(c, m, m1);
    if m.growing.Looked? {
      forall r | r in m1.growing.rows ensures r in Made(m) {
        AfterHas(m.table, m.growing.startSeq, r);
        TableHas(m, r);
      }
    } else {
      ReadKeepsOthers(m);
    }
  }

  lemma ReadKeepsOthers(m: Meta)
    requires !m.growing.Looked?
    ensures GrowReadStep(m) == m
  {
  }

  lemma PushTouchesCache(c: Config, m: Meta)
    requires m.growing.Read?
    ensures var earliest := m.earliest + Pushable(c, m);
            GrowPushStep(c, m) == m.(earliest := earliest, loadable := |earliest|, growing := Rest)
    ensures |Pushable(c, m)| <= Room(c, m.earliest)
    ensures forall r :: r in Pushable(c, m) ==>
              r in Accepted(NewChecker(m.growing.afterTime, 0, m.growing.afterSeq, 0), m.growing.rows)
  {
    hide Accepted;
  }

  lemma GrowPushKeeps(c: Config, m: Meta)
    requires Inv(c, m)
    ensures Goes(c, m, GrowPushStep(c, m))
  {
    if m.growing.Read? {
      hide LogOk, QueueOk, Remaining, Made, History, Pushable, GrowPushStep, Accepted;
      var m1 := GrowPushStep(c, m);
      PushTouchesCache(c, m);
      SameRows(m, m1);
      SameQueue(c, m, m1);
      forall r | r in m1.earliest ensures r in Made(m1) {
        if r !in m.earliest {
          AcceptedHas(NewChecker(m.growing.afterTime, 0, m.growing.afterSeq, 0), m.growing.rows, r);
        }
      }
    }
  }

  lemma GrowLookKeeps(c: Config, m: Meta)
    requires Inv(c, m)
    ensures Goes(c, m, GrowLookStep(c, m))
  {
    hide LogOk, QueueOk, Remaining, Made, History, LastSeq, LastEnd;
    var m1 := GrowLookStep(c, m);
    SameRows(m, m1);
    SameQueue(c, m, m1);
  }

  /** Every step of every job, in any state the others may have left: it keeps the invariant, no row that was
      added is lost or changed, and only AddIndex adds any. */
  lemma StepKeeps(c: Config, m: Meta, e: Event)
    requires Sizes(c) && Inv(c, m) && Legal(e)
    ensures var m1 := Next(c, m, e);
            && Inv(c, m1) && Grows(History(m), History(m1)) && (!e.Add? ==> History(m1) == History(m))
            && m.done <= m1.done && m.removed <= m1.removed
  {
    hide Inv, Grows, History, AddStep, CompleteCreateStep, GrowLookStep, GrowReadStep, GrowPushStep, Without;
    GrowsSame(History(m));
    match e
    case Add(draft) => AddStays(c, m, draft);
    case InsertPicked => if m.creating.Picked? { InsertKeeps(c, m); }
    case CompleteCreate => if m.creating.Done? { CompleteCreateKeeps(c, m); }
    case RemovePicked => if m.deleting.Picked? { RemoveKeeps(c, m); }
    case CompleteDelete => if m.deleting.Done? { CompleteDeleteKeeps(c, m); }
    case GrowLook => GrowLookKeeps(c, m);
    case GrowRead => GrowReadKeeps(c, m);
    case GrowPush => GrowPushKeeps(c, m);
    case PickCreated => PickKeeps(c, m, e);
    case Delete => PickKeeps(c, m, e);
    case PickDeleted => PickKeeps(c, m, e);
  }

  lemma AddStays(c: Config, m: Meta, draft: Row)
    requires Sizes(c) && Inv(c, m) && draft.start <= draft.end
    ensures var m1 := AddStep(c, m, draft);
            Inv(c, m1) && Grows(History(m), History(m1)) && m1.done == m.done && m1.removed == m.removed
  {
    hide LogOk, TableOk, CountsOk, DeleteOk, Grows, History, AddStep;
    AddKeeps(c, m, draft);
    AddLeaves(c, m, draft);
  }

  // ----- what holds of every run

  lemma LegalTail(events: seq<Event>)
    requires LegalRun(events) && events != []
    ensures Legal(events[0]) && LegalRun(events[1..])
  {
    assert forall i :: 0 <= i < |events[1..]| ==> events[1..][i] == events[i + 1];
  }

  /** Every run of the jobs, however they are interleaved, keeps the invariant; no row that was added is lost
      or changed in it, and reported and deleted rows stay so. */
  lemma {:induction false} RunKeeps(c: Config, m: Meta, events: seq<Event>)
    requires Sizes(c) && Inv(c, m) && LegalRun(events)
    ensures var m1 := Run(c, m, events);
            Inv(c, m1) && Grows(History(m), History(m1)) && m.done <= m1.done && m.removed <= m1.removed
    decreases |events|
  {
    hide Inv, Next, Legal, LegalRun, Grows, History;
    if events == [] {
      GrowsSame(History(m));
    } else {
      var m1 := Next(c, m, events[0]);
      LegalTail(events);
      StepKeeps(c, m, events[0]);
      RunKeeps(c, m1, events[1..]);
      GrowsTransitive(History(m), History(m1), History(Run(c, m, events)));
    }
  }

  /** The state with the last index loaded. */
  function Unloaded(table: seq<Row>, offset: int): Meta {
    var latest := if table == [] then None else Some(table[|table| - 1]);
    Meta(table, [], Idle, latest, offset, [], 0, 0, Idle, Rest, table, [])
  }

  lemma UnloadedOk(c: Config, table: seq<Row>, offset: int)
    requires Chain(table)
    ensures Inv(c, Unloaded(table, offset))
  {
    hide Chain, Remaining;
    NothingBehind(table);
    RemainingAll(table, []);
  }

  /** The state after start: the last index loaded, and the cache of the earliest ones filled. */
  function Loaded(c: Config, table: seq<Row>, offset: int): Meta {
    GrowStep(c, Unloaded(table, offset))
  }

  lemma {:induction false} AfterZero(rows: seq<Row>)
    requires Chain(rows)
    ensures After(rows, 0) == rows
  {
    AfterIsSuffix(rows, 0, 0);
  }

  lemma {:induction false} UnboundedPass(rows: seq<Row>)
    requires Chain(rows)
    ensures Accepted(NewChecker(0, 0, 0, 0), rows) == rows
  {
    OrderedPass(NewChecker(0, 0, 0, 0), rows);
  }

  lemma FirstOfChain(n: nat, rows: seq<Row>)
    requires Chain(rows)
    ensures Chain(First(n, rows)) && First(n, rows) <= rows
  {
    hide Chain;
    var read := First(n, rows);
    assert rows == read + rows[|read|..];
    ChainParts(read, rows[|read|..]);
  }

  lemma FirstTwice(n: nat, rows: seq<Row>)
    ensures First(n, First(n, rows)) == First(n, rows)
  {
  }

  lemma LoadedIs(c: Config, table: seq<Row>, offset: int)
    requires Sizes(c) && Chain(table)
    ensures var earliest := First(c.earliestCap, table);
            var latest := if table == [] then None else Some(table[|table| - 1]);
            Loaded(c, table, offset)
            == Meta(table, [], Idle, latest, offset, earliest, |earliest|, 0, Idle, Rest, table, [])
  {
    hide After, Accepted, Chain;
    AfterZero(table);
    FirstOfChain(c.earliestCap, table);
    UnboundedPass(First(c.earliestCap, table));
    FirstTwice(c.earliestCap, table);
    NothingBefore(First(c.earliestCap, table));
  }

  lemma LoadedOk(c: Config, table: seq<Row>, offset: int)
    requires Sizes(c) && Chain(table)
    ensures Inv(c, Loaded(c, table, offset)) && Log(Loaded(c, table, offset)) == table
  {
    hide Loaded, Chain, Remaining;
    LoadedIs(c, table, offset);
    NothingBehind(table);
    RemainingAll(table, []);
    FirstOfChain(c.earliestCap, table);
  }

  /** No row is lost: in every run, each row reported as inserted is in the table, in its place, until it is
      deleted. */
  lemma RowsStay(c: Config, m: Meta, events: seq<Event>)
    requires Sizes(c) && Inv(c, m) && LegalRun(events)
    ensures var m1 := Run(c, m, events);
            && m.done <= m1.done && Chain(m1.table) && m1.table == Settled(m1) + Remaining(InFlight(m1), m1.removed)
            && forall r :: r in m1.done ==> (r in m1.table <==> r !in m1.removed)
  {
    hide LogOk, QueueOk, CountsOk, DeleteOk, Run, LegalRun, Chain, Grows, Remaining;
    RunKeeps(c, m, events);
    var m1 := Run(c, m, events);
    TableIs(c, m1);
    forall r | r in m1.done ensures r in m1.table <==> r !in m1.removed {
      RemainingHas(Made(m1), m1.removed, r);
    }
  }

  /** The last row of the log after an addition covers the interval added. */
  lemma AddedRow(c: Config, m: Meta, draft: Row)
    requires Sizes(c) && Inv(c, m) && draft.start <= draft.end
    ensures var r := Corrected(m, draft);
            var h := History(AddStep(c, m, draft));
            && h != [] && h[|h| - 1].start <= r.start && r.end <= h[|h| - 1].end
            && (|m.queue| + 1 < c.createdCap ==> h[|h| - 1] == r)
            && (|m.queue| + 1 == c.createdCap ==> h[|h| - 1] == Placeholder(r))
            && h[|h| - 1].state == (if |m.queue| + 1 < c.createdCap then draft.state else DROPPED)
  {
    hide LogOk, TableOk, CountsOk, DeleteOk, Corrected, History, AddStep, Chain;
    AddExtendsHistory(c, m, draft);
    CorrectedFits(m, draft);
    if |m.queue| == c.createdCap {
      LogFacts(m);
      HistoryEndsInQueue(m);
      LastInOrder(History(m));
    }
  }

  lemma LastInOrder(rows: seq<Row>)
    requires Chain(rows) && rows != []
    ensures rows[|rows| - 1].start <= rows[|rows| - 1].end
  {
  }

  /** An addition to a full queue. */
  predicate Merges(c: Config, m: Meta, e: Event) {
    e.Add? && |m.queue| >= c.createdCap
  }

  ghost predicate MergeFree(c: Config, m: Meta, events: seq<Event>)
    decreases |events|
  {
    events == [] || (!Merges(c, m, events[0]) && MergeFree(c, Next(c, m, events[0]), events[1..]))
  }

  lemma StepExtends(c: Config, m: Meta, e: Event)
    requires Sizes(c) && Inv(c, m) && Legal(e) && !Merges(c, m, e)
    ensures History(m) <= History(Next(c, m, e))
  {
    hide LogOk, TableOk, CountsOk, DeleteOk, History, Grows, Corrected;
    StepKeeps(c, m, e);
    if e.Add? {
      AddExtendsHistory(c, m, e.draft);
    }
  }

  /** Without merges the log only gets longer. */
  lemma {:induction false} RunExtends(c: Config, m: Meta, events: seq<Event>)
    requires Sizes(c) && Inv(c, m) && LegalRun(events) && MergeFree(c, m, events)
    ensures History(m) <= History(Run(c, m, events))
    decreases |events|
  {
    hide Inv, Next, Legal, LegalRun, Grows, History, Merges;
    if events != [] {
      LegalTail(events);
      StepKeeps(c, m, events[0]);
      StepExtends(c, m, events[0]);
      RunExtends(c, Next(c, m, events[0]), events[1..]);
    }
  }

  /** Every interval that AddIndex corrected stays covered by the row it went into. A row that was not
      dropped stays as it was added; the first one dropped leaves a row that is marked so and points to no
      file, and the others lengthen it. Apart from its end, any row with room stays as it was added, and
      with its end as well until a merge. */
  lemma AddedStaysCovered(c: Config, m: Meta, draft: Row, events: seq<Event>)
    requires Sizes(c) && Inv(c, m) && draft.start <= draft.end
    requires LegalRun(events)
    ensures var r := Corrected(m, draft);
            var k := |History(AddStep(c, m, draft))| - 1;
            var later := History(Run(c, AddStep(c, m, draft), events));
            && 0 <= k < |later| && later[k].start <= r.start && r.end <= later[k].end
            && (|m.queue| + 1 < c.createdCap ==> later[k] == r.(end := later[k].end))
            && (|m.queue| + 1 < c.createdCap && (draft.state != DROPPED || MergeFree(c, AddStep(c, m, draft), events)) ==>
                  later[k] == r)
            && (|m.queue| + 1 >= c.createdCap ==> later[k].state == DROPPED)
            && (|m.queue| + 1 == c.createdCap ==>
                  && later[k] == r.(end := later[k].end, fileSeq := 0, fileOffset := 0, size := 0, state := DROPPED))
  {
    hide Inv, History, AddStep, Run, LegalRun, Shift, MergeFree;
    AddKeeps(c, m, draft);
    AddedRow(c, m, draft);
    RunKeeps(c, AddStep(c, m, draft), events);
    if MergeFree(c, AddStep(c, m, draft), events) {
      RunExtends(c, AddStep(c, m, draft), events);
    }
  }

  /** The row that the table got is the row that leaves the queue, whatever was added, merged or deleted while
      the database call was under way. */
  lemma InsertedIsPopped(c: Config, m: Meta, events: seq<Event>)
    requires Sizes(c) && Inv(c, m) && LegalRun(events) && Run(c, m, events).creating.Done?
    ensures var m1 := Run(c, m, events); var m2 := Next(c, m1, CompleteCreate);
            && m1.queue != [] && m1.queue[0] == m1.creating.row && m1.table == m2.table
            && m2.queue == m1.queue[1..] && m2.done == m1.done + [m1.queue[0]]
            && (m1.queue[0] in m1.table <==> m1.queue[0] !in m1.removed)
            && (m1.queue[0] !in m1.removed ==> m1.table == Settled(m1) + [m1.queue[0]] && Log(m2) == Log(m1))
  {
    hide LogOk, QueueOk, CountsOk, DeleteOk, Run, LegalRun, Grows, Chain, Remaining;
    RunKeeps(c, m, events);
    var m1 := Run(c, m, events);
    var x := m1.creating.row;
    CompleteCreateKeeps(c, m1);
    TableIs(c, m1);
    RemainingHas(Made(m1), m1.removed, x);
    if x !in m1.removed {
      RemainingAll([x], m1.removed);
      RemainingSplit(m1.done, [x], m1.removed);
      HeadAndTail(m1.queue);
      Assoc(Settled(m1), [x], m1.queue[1..]);
    }
  }

  /** A full queue always ends in a placeholder, so the merge never meets another row. */
  lemma FullQueueEndsInPlaceholder(c: Config, m: Meta, events: seq<Event>)
    requires Sizes(c) && Inv(c, m) && LegalRun(events)
    ensures var queue := Run(c, m, events).queue;
            |queue| == c.createdCap ==> queue[|queue| - 1].state == DROPPED
  {
    hide LogOk, TableOk, CountsOk, DeleteOk, Run, LegalRun, Grows;
    RunKeeps(c, m, events);
  }
}
