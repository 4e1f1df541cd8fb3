/** What a caller of the index half of storage/meta/db-meta-manager.go sees of single calls: the times that are
    stored after jumps of the clock, and what one deletion does. */
module IndexLaws {
  import opened Options
  import opened IndexRows
  import opened IndexMeta
  import opened IndexCache

  // ----- additions

  /** The row that AddIndex stores: the next number, and the interval moved by the channel's offset, or to the end of
      the last row if that is later. The second last place of the queue stays for a dropped row, which points to no
      file and is in state 1; after that the last row is only made longer. */
  lemma StoredRow(c: Config, m: Meta, d: Row)
    requires Sizes(c) && Inv(c, m) && d.start <= d.end
    ensures var h, h1 := History(m), History(Next(c, m, Add(d)));
            var last := if h == [] then d.(seqNo := 0, end := d.start + m.offset) else h[|h| - 1];
            var start := if d.start + m.offset < last.end then last.end else d.start + m.offset;
            var r := d.(seqNo := last.seqNo + 1, start := start, end := start + (d.end - d.start));
            if |m.queue| + 1 < c.createdCap then h1 == h + [r]
            else if |m.queue| < c.createdCap then h1 == h + [r.(fileSeq := 0, fileOffset := 0, size := 0, state := 1)]
            else h != [] && h1 == h[..|h| - 1] + [last.(end := r.end)]
  {
    hide TableOk, CountsOk, DeleteOk, Chain, AddStep, History;
    AddExtendsHistory(c, m, d);
    CorrectedFits(m, d);
    if |m.queue| >= c.createdCap {
      HistoryEndsInQueue(m);
    }
  }

  /** The channel remembers how far the row was moved. */
  lemma OffsetIsShift(c: Config, m: Meta, d: Row)
    requires Sizes(c) && Inv(c, m) && d.start <= d.end
    ensures Next(c, m, Add(d)).offset == Corrected(m, d).start - d.start
    ensures |m.queue| < c.createdCap ==>
              var h1 := History(Next(c, m, Add(d))); h1 != [] && Next(c, m, Add(d)).offset == h1[|h1| - 1].start - d.start
  {
    hide TableOk, CountsOk, DeleteOk, Chain, History;
    AddExtendsHistory(c, m, d);
    CorrectedFits(m, d);
  }

  /** Two intervals added one after the other keep their distance, however the clock had jumped before. */
  lemma DistanceKept(c: Config, m: Meta, d1: Row, d2: Row)
    requires Sizes(c) && Inv(c, m) && d1.start <= d1.end <= d2.start <= d2.end && |m.queue| + 1 < c.createdCap
    ensures var h := History(Next(c, Next(c, m, Add(d1)), Add(d2)));
            && |h| >= 2 && h[|h| - 1].start - h[|h| - 2].start == d2.start - d1.start
            && h[|h| - 1].end - h[|h| - 1].start == d2.end - d2.start
  {
    hide Inv, Chain, AddStep, History;
    var m1 := Next(c, m, Add(d1));
    AddKeeps(c, m, d1);
    QueueOfInv(c, m);
    QueueGrows(c, m, d1);
    OffsetIsShift(c, m, d1);
    StoredRow(c, m, d1);
    StoredRow(c, m1, d2);
  }

  lemma QueueGrows(c: Config, m: Meta, d: Row)
    requires |m.queue| + 1 < c.createdCap
    ensures |Next(c, m, Add(d)).queue| == |m.queue| + 1
  {
  }

  // ----- deletions

  /** DeleteIndex marks one more cached row, as long as there is one that is not marked. */
  lemma DeleteMarks(c: Config, m: Meta)
    requires Inv(c, m)
    ensures var m1 := Next(c, m, Delete);
            m1 == m.(needDeleted := if m.needDeleted < |m.earliest| then m.needDeleted + 1 else m.needDeleted)
  {
    hide LogOk, QueueOk, TableOk, DeleteOk;
  }

  /** After it, FirstIndex goes on to the row behind the one that it gave before. */
  lemma DeleteMovesFirst(c: Config, m: Meta)
    requires Inv(c, m) && m.needDeleted + 1 < |m.earliest|
    ensures FirstOf(c, m) == (Some(m.earliest[m.needDeleted]), true)
    ensures Next(c, m, Delete).needDeleted <= |Next(c, m, Delete).earliest|
    ensures FirstOf(c, Next(c, m, Delete)) == (Some(m.earliest[m.needDeleted + 1]), true)
  {
    hide LogOk, QueueOk, TableOk, DeleteOk;
  }

  /** One round of the deletion job, with nothing in between, takes the first row out of the table and the cache. */
  lemma DeletionRound(c: Config, m: Meta)
    requires Sizes(c) && InOrder(c, m) && m.deleting.Idle? && m.needDeleted > 0
    ensures var m1 := Next(c, Next(c, Next(c, m, PickDeleted), RemovePicked), CompleteDelete);
            && m.table != [] && m.earliest != [] && m.earliest[0] == m.table[0]
            && m1 == m.(table := m.table[1..], earliest := m.earliest[1..], needDeleted := m.needDeleted - 1,
                        removed := m.removed + [m.table[0]])
  {
    hide Inv, Fifo, CacheOk, GrowingOk, Cacheable, Held, Chain, AddStep, CompleteCreateStep, GrowLookStep, GrowReadStep,
      GrowPushStep, Without;
    OfOrder(c, m);
    CountsOfInv(c, m);
    var m1 := Next(c, m, PickDeleted);
    PickOrder(c, m, PickDeleted);
    var m2 := Next(c, m1, RemovePicked);
    RemoveParts(c, m1);
    DeleteHead(c, m1);
    RemoveOrder(c, m1);
    DropHead(c, m2);
  }

  /** Without a row to delete, the job does nothing. */
  lemma NothingToDelete(c: Config, m: Meta)
    requires m.deleting.Idle? && m.needDeleted == 0
    ensures Next(c, m, PickDeleted) == m
  {
  }

  /** One round of the insertion job moves the head of the queue to the end of the table. */
  lemma InsertionRound(c: Config, m: Meta)
    requires Sizes(c) && Inv(c, m) && m.creating.Idle? && m.queue != []
    ensures var m1 := Next(c, Next(c, Next(c, m, PickCreated), InsertPicked), CompleteCreate);
            && m1.table == m.table + [m.queue[0]] && m1.queue == m.queue[1..] && m1.done == m.done + [m.queue[0]]
            && m1.creating.Idle? && m1.removed == m.removed && m1.needDeleted == m.needDeleted
            && m1.earliest == if m.loadable < c.earliestCap then m.earliest + [m.queue[0]] else m.earliest
  {
    hide Inv, AddStep, GrowLookStep, GrowReadStep, GrowPushStep, Without;
  }

  /** One refill, with nothing in between, asks for what the cache has room for, behind its last row, and pushes what
      the table holds there. */
  lemma RefillRound(c: Config, m: Meta)
    requires InOrder(c, m) && m.growing.Rest? && m.creating.Idle? && |m.earliest| < c.earliestCap
    ensures var m1 := Next(c, Next(c, Next(c, m, GrowLook), GrowRead), GrowPush);
            m1 == m.(earliest := First(c.earliestCap, Held(m)), loadable := |First(c.earliestCap, Held(m))|)
  {
    hide Inv, Fifo, CacheOk, GrowingOk, Held, GrowLookStep, GrowReadStep, GrowPushStep, Pushable, First;
    GrowFills(c, m);
    GrowTouchesCache(c, m);
  }
}
