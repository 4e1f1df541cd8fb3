/** FindIndexes of storage/meta/db-meta-manager.go: a locked look at the queue, and a later read of the
    table while rows go on moving from one to the other. */
module IndexQueries {
  import opened Sequences
  import opened IndexRows
  import opened IndexMeta

  /** What the look at the queue decides: the answer, or to read the table up to a time and put rows of
      the queue behind. */
  datatype Plan = Answered(rows: seq<Row>) | ReadTable(end: int, extras: seq<Row>)

  function PlanOf(queue: seq<Row>, start: int, end: int, limit: int): Plan {
    if start >= end || limit == 0 then Answered([])
    else if queue == [] || end <= queue[0].start then ReadTable(end, [])
    else if start >= queue[0].start then Answered(First(limit, Overlap(queue, start, end)))
    else ReadTable(queue[0].start, First(limit, Overlap(queue, start, end)))
  }

  /** The order filter that lets only rows before the queue's pass. */
  function CheckerOf(plan: Plan): Checker
    requires plan.ReadTable?
  {
    if plan.extras == [] then NewChecker(0, 0, 0, 0)
    else NewChecker(0, plan.extras[0].start, 0, plan.extras[0].seqNo)
  }

  /** The answer put together from what the table holds when it is read. */
  function AnswerFrom(table: seq<Row>, start: int, limit: int, plan: Plan): seq<Row>
    requires plan.ReadTable?
  {
    var read := First(limit, Overlap(table, start, plan.end));
    First(limit, Accepted(CheckerOf(plan), read) + plan.extras)
  }

  /** The whole query, if the table is read later than the queue. */
  function FindThrough(c: Config, m: Meta, events: seq<Event>, start: int, end: int, limit: int): seq<Row> {
    var plan := PlanOf(m.queue, start, end, limit);
    if plan.Answered? then plan.rows else AnswerFrom(Run(c, m, events).table, start, limit, plan)
  }

  /** The rows that a query is about: those in the table that are older than the queue, and the queue. */
  function Visible(table: seq<Row>, queue: seq<Row>): seq<Row> {
    if queue == [] then table else Below(table, queue[0].seqNo) + queue
  }

  // ----- facts about ordered rows

  lemma FirstOfBoth(limit: int, a: seq<Row>, b: seq<Row>)
    ensures First(limit, First(limit, a) + First(limit, b)) == First(limit, a + b)
  {
    if limit < 0 {
    } else if limit <= |a| {
      assert First(limit, a) == a[..limit];
      assert (a + b)[..limit] == a[..limit];
      assert (a[..limit] + First(limit, b))[..limit] == a[..limit];
    } else if limit < |b| {
      assert (a + b[..limit])[..limit] == (a + b)[..limit];
    }
  }

  /** Where ordered rows meet a later row: those before it end before it starts. */
  ghost predicate Meets(table: seq<Row>, head: Row) {
    forall i :: 0 <= i < |table| ==>
      && (table[i].seqNo < head.seqNo ==> table[i].start < head.start && table[i].end <= head.start)
      && (table[i].seqNo >= head.seqNo ==> table[i].start >= head.start)
  }

  lemma BelowCount(rows: seq<Row>, seqNo: nat) returns (n: nat)
    requires Chain(rows)
    ensures n <= |rows| && Below(rows, seqNo) == rows[..n]
    ensures forall i :: 0 <= i < |rows| ==> (i < n <==> rows[i].seqNo < seqNo)
  {
    n := 0;
    while n < |rows| && rows[n].seqNo < seqNo
      invariant n <= |rows|
      invariant forall i :: 0 <= i < n ==> rows[i].seqNo < seqNo
    {
      n := n + 1;
    }
    BelowIsPrefix(rows, n, seqNo);
  }

  /** Read up to the start of the queue, the table gives what its older rows give. */
  lemma OverlapBelow(table: seq<Row>, head: Row, start: int, end: int)
    requires Chain(table) && Meets(table, head)
    ensures head.start <= end ==> Overlap(table, start, head.start) == Overlap(Below(table, head.seqNo), start, end)
    ensures end <= head.start ==> Overlap(table, start, end) == Overlap(Below(table, head.seqNo), start, end)
  {
    var n := BelowCount(table, head.seqNo);
    var earlier, recent := table[..n], table[n..];
    assert table == earlier + recent;
    assert forall i :: 0 <= i < |earlier| ==> earlier[i] == table[i];
    assert forall i :: 0 <= i < |recent| ==> recent[i] == table[n + i];
    var limit := if head.start <= end then head.start else end;
    OverlapSplit(earlier, recent, start, limit);
    OverlapNone(recent, start, limit);
    NothingBehind(Overlap(earlier, start, limit));
    OverlapSame(earlier, start, limit, end);
  }

  /** The rows read are in order and before the queue, so the filter keeps all of them. */
  lemma ReadKept(table: seq<Row>, start: int, end: int, limit: int, checker: Checker)
    requires Chain(table)
    requires checker == NewChecker(0, 0, 0, 0)
             || exists head: Row :: checker == NewChecker(0, head.start, 0, head.seqNo) && Meets(table, head) && end <= head.start
    ensures var read := First(limit, Overlap(table, start, end)); Accepted(checker, read) == read
  {
    var all := Overlap(table, start, end);
    var read := First(limit, all);
    OverlapChain(table, start, end);
    assert all == read + all[|read|..];
    ChainParts(read, all[|read|..]);
    forall k | 0 <= k < |read|
      ensures (checker.endSeq != 0 ==> read[k].seqNo < checker.endSeq) && (checker.endTime != 0 ==> read[k].end <= checker.endTime)
    {
      OverlapMember(table, start, end, k);
      assert read[k] in table && read[k].start < end;
    }
    OrderedPass(checker, read);
  }

  /** The queue's part of an answer starts with the queue's first row. */
  lemma ExtendsHead(queue: seq<Row>, start: int, end: int, limit: int)
    requires Chain(queue) && queue != [] && start < queue[0].start < end && limit != 0
    ensures var extras := First(limit, Overlap(queue, start, end)); extras != [] && extras[0] == queue[0]
  {
    assert Hit(queue[0], start, end);
  }

  lemma NoneBefore(queue: seq<Row>, start: int, end: int)
    requires Chain(queue) && queue != [] && end <= queue[0].start
    ensures Overlap(queue, start, end) == []
  {
    assert forall i :: 0 <= i < |queue| ==> queue[0].start <= queue[i].start;
    OverlapNone(queue, start, end);
  }

  /** The two-step answer over any table that meets the queue. */
  lemma TwoStepAnswer(table: seq<Row>, queue: seq<Row>, start: int, end: int, limit: int)
    requires Chain(table) && Chain(queue) && start < end && limit != 0
    requires queue != [] ==> Meets(table, queue[0])
    requires PlanOf(queue, start, end, limit).ReadTable?
    ensures AnswerFrom(table, start, limit, PlanOf(queue, start, end, limit))
            == First(limit, Overlap(Visible(table, queue), start, end))
  {
    hide Chain, Meets, Overlap, Accepted, Below, CheckRow;
    var plan := PlanOf(queue, start, end, limit);
    if queue == [] {
      ReadKept(table, start, end, limit, NewChecker(0, 0, 0, 0));
      FirstOfBoth(limit, Overlap(table, start, end), []);
      NothingBehind(Overlap(table, start, end));
    } else {
      var head := queue[0];
      var earlier := Below(table, head.seqNo);
      OverlapBelow(table, head, start, end);
      OverlapSplit(earlier, queue, start, end);
      FirstOfBoth(limit, Overlap(earlier, start, end), Overlap(queue, start, end));
      if end <= head.start {
        NoneBefore(queue, start, end);
        ReadKept(table, start, end, limit, NewChecker(0, 0, 0, 0));
      } else {
        ExtendsHead(queue, start, end, limit);
        ReadKept(table, start, head.start, limit, NewChecker(0, head.start, 0, head.seqNo));
      }
    }
  }

  // ----- the rows move while the query is under way

  lemma TableInHistory(c: Config, m: Meta)
    requires Inv(c, m)
    ensures Chain(History(m)) && Chain(m.table)
    ensures forall i :: 0 <= i < |m.table| ==> m.table[i] in History(m)
    ensures m.queue != [] ==> |m.done| < |History(m)| && History(m)[|m.done|] == m.queue[0]
  {
    hide LogOk, QueueOk, CountsOk, DeleteOk, Chain, Made;
    TableIs(c, m);
    LogFacts(m);
    MadeIsPrefix(c, m);
    forall i | 0 <= i < |m.table| ensures m.table[i] in History(m) {
      TableHas(m, m.table[i]);
    }
  }

  /** Whatever happens between the two steps, the table's rows keep their place relative to the queue the
      query has seen. */
  lemma TableMeets(c: Config, m: Meta, events: seq<Event>)
    requires Sizes(c) && Inv(c, m) && LegalRun(events) && m.queue != [] && Strict(History(m))
    ensures Meets(Run(c, m, events).table, m.queue[0])
  {
    hide Inv, LegalRun, Run, History, Chain, Strict, Grows;
    RunKeeps(c, m, events);
    TableInHistory(c, m);
    TableInHistory(c, Run(c, m, events));
    PartMeets(History(m), History(Run(c, m, events)), Run(c, m, events).table, |m.done|);
  }

  /** Rows of a grown log meet a row that the log had before. */
  lemma PartMeets(h: seq<Row>, h2: seq<Row>, table: seq<Row>, k: nat)
    requires k < |h| && Grows(h, h2) && Chain(h2) && Strict(h)
    requires forall i :: 0 <= i < |table| ==> table[i] in h2
    ensures Meets(table, h[k])
  {
    forall i | 0 <= i < |table|
      ensures table[i].seqNo < h[k].seqNo ==> table[i].start < h[k].start && table[i].end <= h[k].start
      ensures table[i].seqNo >= h[k].seqNo ==> table[i].start >= h[k].start
    {
      var j :| 0 <= j < |h2| && h2[j] == table[i];
      assert h2[k].seqNo == h[k].seqNo && h2[k].start == h[k].start;
      if j < k {
        assert h2[j].start == h[j].start && h[j].end <= h2[j].end;
      }
    }
  }

  /** The table and the queue, read in two steps, answer like one log read at once: the first rows that
      overlap the interval, each once, out of the rows that were older than the queue and are still in
      the table, and the rows of the queue. A query that finds the queue empty answers from the table as
      it is read. */
  lemma FindIsFilter(c: Config, m: Meta, events: seq<Event>, start: int, end: int, limit: int)
    requires Sizes(c) && Inv(c, m) && LegalRun(events) && Strict(History(m)) && start < end
    ensures FindThrough(c, m, events, start, end, limit)
            == First(limit, Overlap(Visible(Run(c, m, events).table, m.queue), start, end))
  {
    hide Inv, LegalRun, Run, Chain, Strict, Meets, Overlap, AnswerFrom, Below;
    var m2 := Run(c, m, events);
    RunKeeps(c, m, events);
    TableInHistory(c, m2);
    QueueChain(c, m);
    if m.queue != [] {
      TableMeets(c, m, events);
    }
    if limit == 0 {
    } else if PlanOf(m.queue, start, end, limit).ReadTable? {
      TwoStepAnswer(m2.table, m.queue, start, end, limit);
    } else {
      NothingOlder(m2.table, m.queue, start, end);
    }
  }

  lemma QueueChain(c: Config, m: Meta)
    requires Inv(c, m)
    ensures Chain(m.queue)
  {
    QueueBehind(m);
  }

  /** From the start of the queue on, the older rows have nothing to give. */
  lemma NothingOlder(table: seq<Row>, queue: seq<Row>, start: int, end: int)
    requires Chain(table) && queue != [] && Meets(table, queue[0]) && start >= queue[0].start
    ensures Overlap(Visible(table, queue), start, end) == Overlap(queue, start, end)
  {
    var n := BelowCount(table, queue[0].seqNo);
    var earlier := table[..n];
    assert forall i :: 0 <= i < n ==> earlier[i] == table[i];
    OverlapNone(earlier, start, end);
    OverlapSplit(earlier, queue, start, end);
    NothingBefore(Overlap(queue, start, end));
  }

  /** At the moment of the look, what is visible is the log. */
  lemma VisibleIsLog(c: Config, m: Meta)
    requires Inv(c, m)
    ensures Visible(m.table, m.queue) == Log(m)
  {
    if m.queue == [] {
      TableIs(c, m);
      NothingBehind(Settled(m));
    } else {
      RowsGrow(c, m, m);
    }
  }

  /** As long as the same rows are deleted, the settled rows, and no others, stand in the table in front of the
      queue. */
  lemma RowsGrow(c: Config, m: Meta, m2: Meta)
    requires Inv(c, m) && Inv(c, m2) && Grows(History(m), History(m2)) && m.done <= m2.done
    requires m.queue != [] && m2.removed == m.removed
    ensures Visible(m2.table, m.queue) == Log(m)
  {
    hide LogOk, QueueOk, CountsOk, DeleteOk, Chain, Below, Remaining, Grows, Made;
    var head := m.queue[0];
    MadeChain(c, m);
    MadeIsPrefix(c, m2);
    var later := Made(m2)[|m.done|..];
    assert Made(m2) == m.done + later;
    RemainingSplit(m.done, later, m.removed);
    LaterRows(m, m2, later);
    forall i | 0 <= i < |m2.table| ensures i < |Settled(m)| <==> m2.table[i].seqNo < head.seqNo {
      if i < |Settled(m)| {
        RemainingHas(m.done, m.removed, m2.table[i]);
      } else {
        RemainingHas(later, m.removed, m2.table[i]);
      }
    }
    BelowIsPrefix(m2.table, |Settled(m)|, head.seqNo);
  }

  /** What was inserted behind the rows reported at the look is the queue it saw, and what came later. */
  lemma LaterRows(m: Meta, m2: Meta, later: seq<Row>)
    requires LogOk(m2) && Grows(History(m), History(m2)) && m.queue != [] && m.done + later <= History(m2)
    ensures forall r :: r in later ==> r.seqNo >= m.queue[0].seqNo
  {
    var n := |m.done|;
    assert History(m)[n] == m.queue[0];
    forall r | r in later ensures r.seqNo >= m.queue[0].seqNo {
      var i :| 0 <= i < |later| && later[i] == r;
      assert History(m2)[n + i] == (m.done + later)[n + i] == r;
    }
  }

  // ----- while nothing is deleted

  ghost predicate NothingDeleted(events: seq<Event>) {
    forall i :: 0 <= i < |events| ==> !events[i].RemovePicked?
  }

  lemma {:induction false} RunRemovesNone(c: Config, m: Meta, events: seq<Event>)
    requires NothingDeleted(events)
    ensures Run(c, m, events).removed == m.removed
    decreases |events|
  {
    hide AddStep;
    if events != [] {
      assert forall i :: 0 <= i < |events[1..]| ==> events[1..][i] == events[i + 1];
      StepRemovesNone(c, m, events[0]);
      RunRemovesNone(c, Next(c, m, events[0]), events[1..]);
    }
  }

  lemma StepRemovesNone(c: Config, m: Meta, e: Event)
    requires !e.RemovePicked?
    ensures Next(c, m, e).removed == m.removed
  {
    hide Accepted, After, First, Corrected, Shift;
  }

  /** With no row deleted in between, the two-step query of a log with rows still in the queue gives the
      naive filter of the whole log as it was at the first step. */
  lemma FindIsFilterOfLog(c: Config, m: Meta, events: seq<Event>, start: int, end: int, limit: int)
    requires Sizes(c) && Inv(c, m) && LegalRun(events) && Strict(History(m)) && start < end
    requires NothingDeleted(events) && m.queue != []
    ensures FindThrough(c, m, events, start, end, limit) == First(limit, Overlap(Log(m), start, end))
  {
    hide Inv, Sizes, Run, LegalRun, Strict, NothingDeleted, FindThrough, Visible, Log, History, Overlap, First, Grows;
    FindIsFilter(c, m, events, start, end, limit);
    RunKeeps(c, m, events);
    RunRemovesNone(c, m, events);
    RowsGrow(c, m, Run(c, m, events));
  }
}
