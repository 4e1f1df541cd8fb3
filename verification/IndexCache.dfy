/** The cache of the earliest rows in storage/meta/db-meta-manager.go: while it is the beginning of the table,
    rows are deleted in their order and FirstIndex is right. A refill reads the table outside of the lock, so
    that what the other jobs report meanwhile decides whether it stays so. */
module IndexCache {
  import opened Options
  import opened Sequences
  import opened IndexRows
  import opened IndexMeta

  /** The row that is deleted from the table but still at the head of the cache. */
  function Gone(m: Meta): seq<Row> {
    if m.deleting.Done? then [m.deleting.row] else []
  }

  /** What the cache is about: the settled rows, and the one just deleted. */
  function Cacheable(m: Meta): seq<Row> {
    Gone(m) + Settled(m)
  }

  /** The same with the row in flight, which a refill reads as well. */
  function Held(m: Meta): seq<Row> {
    Gone(m) + m.table
  }

  /** What the table holds behind the cached rows. */
  function Lacking(m: Meta): seq<Row> {
    if |m.earliest| <= |Held(m)| then Held(m)[|m.earliest|..] else []
  }

  /** Rows are deleted in their order. */
  ghost predicate Fifo(m: Meta) {
    m.removed + Settled(m) == m.done && (m.creating.Done? ==> m.creating.row !in m.removed)
  }

  ghost predicate CacheOk(c: Config, m: Meta) {
    m.earliest <= Cacheable(m) && (m.loadable < c.earliestCap ==> m.earliest == Cacheable(m))
  }

  /** Where a refill starts is the end of a reported row. */
  ghost predicate Anchor(m: Meta, startSeq: nat, startTime: int) {
    (startSeq == 0 && startTime == 0) || exists r :: r in m.done && r.seqNo == startSeq && r.end == startTime
  }

  /** A refill under way will read, or has read, rows that follow the cached ones. */
  ghost predicate GrowingOk(c: Config, m: Meta) {
    match m.growing
    case Rest => true
    case Looked(startSeq, startTime, need) =>
      Anchor(m, startSeq, startTime) && need <= Room(c, m.earliest) && After(m.table, startSeq) == Lacking(m)
    case Read(afterSeq, afterTime, rows) =>
      Accepted(NewChecker(afterTime, 0, afterSeq, 0), rows) == rows
      && |rows| <= Room(c, m.earliest) && rows <= Lacking(m)
  }

  ghost predicate InOrder(c: Config, m: Meta) {
    Inv(c, m) && Fifo(m) && CacheOk(c, m) && GrowingOk(c, m)
  }

  // ----- the steps that keep the cache in order

  function Min(a: int, b: int): int {
    if a <= b then a else b
  }

  /** How many rows the cache is about: the insertions reported, less the deletions reported. */
  function Standing(m: Meta): int {
    |m.done| - |m.removed| + |Gone(m)|
  }

  /** With what is pushed, the cache has as many rows as there are, as far as it can hold them. */
  predicate PushFits(c: Config, m: Meta) {
    |m.earliest| + |Pushable(c, m)| == Min(c.earliestCap, Standing(m))
  }

  /** What the cache asks of a step. While a refill is under way no row is reported into a cache that counts as
      whole, unless the refill has read nothing; and what is pushed fits. */
  predicate Allowed(c: Config, m: Meta, e: Event) {
    match e
    case CompleteCreate =>
      m.creating.Done? ==> m.growing.Rest? || m.loadable == c.earliestCap || (m.growing.Read? && m.growing.rows == [])
    case GrowPush => m.growing.Read? ==> PushFits(c, m)
    case _ => true
  }

  lemma FifoRows(c: Config, m: Meta)
    requires Inv(c, m) && Fifo(m)
    ensures m.table == Settled(m) + InFlight(m) && Held(m) == Cacheable(m) + InFlight(m)
    ensures Standing(m) == |Cacheable(m)|
    ensures Chain(Held(m)) && Chain(Settled(m)) && forall r :: r in Cacheable(m) ==> r in m.done
  {
    hide LogOk, QueueOk, TableOk, CountsOk, Settled, Chain, Remaining, Made;
    TableIs(c, m);
    RemainingAll(InFlight(m), m.removed);
    Assoc(Gone(m), Settled(m), InFlight(m));
    assert |m.removed| + |Settled(m)| == |m.done| by {
      assert |m.removed + Settled(m)| == |m.done|;
    }
    HeldChain(c, m);
    forall r | r in Cacheable(m) ensures r in m.done {
      assert r in m.removed + Settled(m);
    }
  }

  lemma HeldChain(c: Config, m: Meta)
    requires Inv(c, m) && Fifo(m) && m.table == Settled(m) + InFlight(m)
    ensures Chain(Held(m))
  {
    hide LogOk, QueueOk, TableOk, CountsOk, Settled, Chain, Remaining;
    MadeChain(c, m);
    Assoc(m.removed, Settled(m), InFlight(m));
    if m.deleting.Done? {
      var n := |m.removed| - 1;
      assert m.removed == m.removed[..n] + [m.deleting.row];
      Assoc(m.removed[..n], [m.deleting.row], m.table);
      ChainParts(m.removed[..n], Held(m));
    } else {
      ChainParts(m.removed, m.table);
      NothingBefore(m.table);
    }
  }

  /** How the cache lies in the rows it is about. */
  lemma CacheLies(c: Config, m: Meta)
    requires InOrder(c, m)
    ensures |m.earliest| <= |Cacheable(m)| <= |Held(m)| && m.earliest == Cacheable(m)[..|m.earliest|] == Held(m)[..|m.earliest|]
    ensures Held(m) == m.earliest + Lacking(m) && |Gone(m)| <= |m.earliest|
    ensures |m.earliest| <= Standing(m) && |m.earliest| <= c.earliestCap
  {
    hide LogOk, QueueOk, TableOk, Fifo, GrowingOk, Cacheable, Held, Standing;
    FifoRows(c, m);
  }

  /** What the table holds behind the end of the cached rows, where at most the first row is not in the
      table any more. */
  lemma AfterCached(all: seq<Row>, gone: nat, cached: nat)
    requires Chain(all) && gone <= 1 && gone <= cached <= |all|
    ensures After(all[gone..], LastSeq(all[..cached])) == all[cached..]
  {
    var table := all[gone..];
    var seqNo := LastSeq(all[..cached]);
    forall i | 0 <= i < |table| ensures i < cached - gone <==> table[i].seqNo <= seqNo {
      assert table[i] == all[gone + i];
      if cached > 0 {
        assert seqNo == all[cached - 1].seqNo;
      }
    }
    AfterIsSuffix(table, cached - gone, seqNo);
  }

  /** Rows of the table behind an anchor pass the filter that starts there. */
  lemma BehindAnchorPass(c: Config, m: Meta, startSeq: nat, startTime: int, rows: seq<Row>)
    requires Inv(c, m) && Anchor(m, startSeq, startTime) && Chain(rows)
    requires forall r :: r in rows ==> r in Made(m) && r.seqNo > startSeq
    ensures Accepted(NewChecker(startTime, 0, startSeq, 0), rows) == rows
  {
    hide LogOk, QueueOk, TableOk, CountsOk, DeleteOk, Chain, Made;
    MadeChain(c, m);
    if !(startSeq == 0 && startTime == 0) {
      var a :| a in m.done && a.seqNo == startSeq && a.end == startTime;
      forall r | r in rows ensures startTime <= r.start {
        DoneIsMade(m, a);
        Behind(Made(m), a, r);
      }
    }
    assert Within(NewChecker(startTime, 0, startSeq, 0), rows);
    OrderedPass(NewChecker(startTime, 0, startSeq, 0), rows);
  }

  lemma DoneIsMade(m: Meta, r: Row)
    requires r in m.done
    ensures r in Made(m)
  {
  }

  lemma Behind(rows: seq<Row>, a: Row, r: Row)
    requires Chain(rows) && a in rows && r in rows && a.seqNo < r.seqNo
    ensures a.end <= r.start
  {
  }

  // ----- a refill

  lemma LookKeeps(c: Config, m: Meta)
    requires InOrder(c, m)
    ensures InOrder(c, GrowLookStep(c, m))
  {
    hide Inv, Cacheable, Held, LastSeq, LastEnd, After, Fifo;
    GrowLookKeeps(c, m);
    if m.growing.Rest? && |m.earliest| < c.earliestCap {
      LookIs(c, m);
      LookedOk(c, m);
      SameParts(m, GrowLookStep(c, m));
    }
  }

  lemma LookIs(c: Config, m: Meta)
    requires m.growing.Rest? && |m.earliest| < c.earliestCap
    ensures GrowLookStep(c, m) == m.(growing := Looked(LastSeq(m.earliest), LastEnd(m.earliest), Room(c, m.earliest)))
  {
  }

  lemma LookedOk(c: Config, m: Meta)
    requires InOrder(c, m)
    ensures Anchor(m, LastSeq(m.earliest), LastEnd(m.earliest)) && After(m.table, LastSeq(m.earliest)) == Lacking(m)
  {
    hide LogOk, QueueOk, TableOk, GrowingOk, Cacheable, Held, After, Fifo, Chain;
    CacheLies(c, m);
    FifoRows(c, m);
    TableBehindGone(m);
    AfterCached(Held(m), |Gone(m)|, |m.earliest|);
    if m.earliest != [] {
      var r := m.earliest[|m.earliest| - 1];
      assert r == Cacheable(m)[|m.earliest| - 1];
      assert r in m.done;
    }
  }

  lemma TableBehindGone(m: Meta)
    ensures Held(m)[|Gone(m)|..] == m.table && |Gone(m)| <= 1
  {
  }

  /** What belongs to the rows alone. */
  lemma SameParts(m: Meta, m1: Meta)
    requires m1.table == m.table && m1.done == m.done && m1.removed == m.removed && m1.deleting == m.deleting
    ensures Gone(m1) == Gone(m) && Cacheable(m1) == Cacheable(m) && Held(m1) == Held(m) && Standing(m1) == Standing(m)
    ensures m1.earliest == m.earliest ==> Lacking(m1) == Lacking(m)
    ensures m1.creating == m.creating ==> Fifo(m1) == Fifo(m)
    ensures forall s: nat, t :: Anchor(m1, s, t) == Anchor(m, s, t)
  {
  }

  lemma ReadKeeps(c: Config, m: Meta)
    requires InOrder(c, m)
    ensures InOrder(c, GrowReadStep(m))
    ensures m.growing.Looked? ==> GrowReadStep(m).growing.Read? && GrowReadStep(m).growing.rows == First(m.growing.need, Lacking(m))
  {
    hide Inv, CacheOk, Cacheable, Held, Lacking, Fifo, Accepted, After, Anchor, Chain, First;
    GrowReadKeeps(c, m);
    ReadTouchesNothing(m);
    SameParts(m, GrowReadStep(m));
    SameCache(c, m, GrowReadStep(m));
    if m.growing.Looked? {
      ReadPasses(c, m);
    }
  }

  lemma SameCache(c: Config, m: Meta, m1: Meta)
    requires CacheOk(c, m) && m1.earliest == m.earliest && m1.loadable == m.loadable && Cacheable(m1) == Cacheable(m)
    ensures CacheOk(c, m1)
  {
  }

  lemma ReadPasses(c: Config, m: Meta)
    requires InOrder(c, m) && m.growing.Looked?
    ensures var (s, t, need) := (m.growing.startSeq, m.growing.startTime, m.growing.need);
            var rows := First(need, Lacking(m));
            GrowReadStep(m).growing == Read(s, t, rows)
            && Accepted(NewChecker(t, 0, s, 0), rows) == rows && |rows| <= Room(c, m.earliest) && rows <= Lacking(m)
  {
    hide LogOk, QueueOk, TableOk, CountsOk, DeleteOk, CacheOk, Fifo, Cacheable, Held, Lacking, After, Accepted, Chain, Anchor, Made;
    var (s, t, need) := (m.growing.startSeq, m.growing.startTime, m.growing.need);
    var rows := First(need, Lacking(m));
    FifoRows(c, m);
    LackingChain(c, m);
    FirstOfChain(need, Lacking(m));
    forall r | r in rows ensures r in Made(m) && r.seqNo > s {
      assert r in Lacking(m);
      AfterHas(m.table, s, r);
      TableHas(m, r);
    }
    BehindAnchorPass(c, m, s, t, rows);
  }

  lemma LackingChain(c: Config, m: Meta)
    requires Inv(c, m) && Fifo(m)
    ensures Chain(Lacking(m))
  {
    hide Inv, Fifo, Held, Chain;
    FifoRows(c, m);
    if |m.earliest| <= |Held(m)| {
      assert Held(m) == Held(m)[..|m.earliest|] + Lacking(m);
      ChainParts(Held(m)[..|m.earliest|], Lacking(m));
    } else {
      NoneChain();
    }
  }

  lemma NoneChain()
    ensures Chain([])
  {
  }

  /** A refill keeps the cache in order exactly if it brings it to as many rows as there are, up to its
      capacity, whatever was reported since it looked and since it read. */
  lemma GrowPushIff(c: Config, m: Meta)
    requires InOrder(c, m) && m.growing.Read?
    ensures Pushable(c, m) == m.growing.rows
    ensures InOrder(c, GrowPushStep(c, m)) <==> PushFits(c, m)
  {
    hide Inv, CacheOk, Cacheable, Held, Lacking, Fifo, Accepted, Chain, Pushable, GrowPushStep, Standing;
    PushesAll(c, m);
    CacheLies(c, m);
    FifoRows(c, m);
    PushTouchesCache(c, m);
    GrowPushKeeps(c, m);
    var m1 := GrowPushStep(c, m);
    SameParts(m, m1);
    PrefixesByLength(Held(m), m.earliest, m.growing.rows, Lacking(m), Cacheable(m));
    CacheIs(c, m1);
  }

  lemma PushesAll(c: Config, m: Meta)
    requires m.growing.Read? && GrowingOk(c, m)
    ensures Pushable(c, m) == m.growing.rows && m.growing.rows <= Lacking(m)
    ensures |m.growing.rows| <= Room(c, m.earliest)
  {
    hide Accepted, Lacking;
  }

  lemma CacheIs(c: Config, m: Meta)
    ensures CacheOk(c, m) <==> m.earliest <= Cacheable(m) && (m.loadable < c.earliestCap ==> m.earliest == Cacheable(m))
  {
  }

  /** Of two prefixes, the shorter one is a prefix of the other. */
  lemma PrefixesByLength(all: seq<Row>, cached: seq<Row>, more: seq<Row>, behind: seq<Row>, part: seq<Row>)
    requires all == cached + behind && more <= behind && part <= all
    ensures cached + more <= part <==> |cached| + |more| <= |part|
    ensures cached + more == part <==> |cached| + |more| == |part|
  {
    assert cached + more <= all;
    if |cached| + |more| <= |part| {
      assert cached + more == all[..|cached| + |more|] == part[..|cached| + |more|];
    }
  }

  // ----- the other steps

  lemma AddOrder(c: Config, m: Meta, draft: Row)
    requires Sizes(c) && InOrder(c, m) && draft.start <= draft.end
    ensures InOrder(c, AddStep(c, m, draft))
  {
    hide Inv, CacheOk, GrowingOk, Fifo, AddStep, Grows, History;
    var m1 := AddStep(c, m, draft);
    AddStays(c, m, draft);
    QueueOfInv(c, m);
    AddLeaves(c, m, draft);
    SameParts(m, m1);
    SameCache(c, m, m1);
    GrowingSame(c, m, m1);
  }

  lemma QueueOfInv(c: Config, m: Meta)
    requires Inv(c, m)
    ensures QueueOk(c, m)
  {
  }

  lemma GrowingSame(c: Config, m: Meta, m1: Meta)
    requires GrowingOk(c, m) && m1.growing == m.growing && m1.table == m.table && m1.done == m.done
    requires |m1.earliest| <= |m.earliest| && Lacking(m1) == Lacking(m)
    ensures GrowingOk(c, m1)
  {
    hide Accepted, After, Lacking;
  }

  lemma PickOrder(c: Config, m: Meta, e: Event)
    requires InOrder(c, m) && (e.PickCreated? || e.Delete? || e.PickDeleted?)
    ensures InOrder(c, Next(c, m, e))
  {
    hide Inv, CacheOk, GrowingOk;
    var m1 := Next(c, m, e);
    PickKeeps(c, m, e);
    CountsOfInv(c, m);
    SamePick(m, m1);
    SameCache(c, m, m1);
    GrowingSame(c, m, m1);
  }

  lemma CountsOfInv(c: Config, m: Meta)
    requires Inv(c, m)
    ensures m.needDeleted <= |m.earliest| <= m.loadable <= c.earliestCap
    ensures !m.deleting.Idle? ==> m.needDeleted > 0 && m.earliest != [] && m.earliest[0] == m.deleting.row
    ensures !m.creating.Idle? ==> m.queue != [] && m.queue[0] == m.creating.row
  {
    hide LogOk, TableOk;
  }

  lemma SamePick(m: Meta, m1: Meta)
    requires m1.table == m.table && m1.done == m.done && m1.removed == m.removed && m1.earliest == m.earliest
    requires m1.deleting == m.deleting || (!m1.deleting.Done? && !m.deleting.Done?)
    requires m1.creating == m.creating || (!m1.creating.Done? && !m.creating.Done?)
    ensures Gone(m1) == Gone(m) && Cacheable(m1) == Cacheable(m) && Lacking(m1) == Lacking(m) && Fifo(m1) == Fifo(m)
  {
  }

  lemma {:induction false} AfterSnoc(rows: seq<Row>, r: Row, seqNo: nat)
    requires r.seqNo > seqNo
    ensures After(rows + [r], seqNo) == After(rows, seqNo) + [r]
  {
    if rows == [] {
      NothingBefore([r]);
      NothingBehind([r]);
      assert After([r], seqNo) == [r] + After([], seqNo);
    } else {
      assert (rows + [r])[0] == rows[0] && (rows + [r])[1..] == rows[1..] + [r];
      AfterSnoc(rows[1..], r, seqNo);
      Assoc(if rows[0].seqNo > seqNo then [rows[0]] else [], After(rows[1..], seqNo), [r]);
    }
  }

  /** The row that is inserted goes behind everything, and behind what a refill has seen. */
  lemma InsertOrder(c: Config, m: Meta)
    requires InOrder(c, m) && m.creating.Picked?
    ensures InOrder(c, Next(c, m, InsertPicked))
  {
    hide LogOk, TableOk, Remaining, Made, After, Accepted, Without, AddStep, CompleteCreateStep, GrowLookStep, GrowReadStep,
      GrowPushStep, Fifo;
    var m1 := Next(c, m, InsertPicked);
    var x := m.creating.row;
    InsertKeeps(c, m);
    CacheLies(c, m);
    InsertParts(c, m);
    if m.growing.Looked? {
      AfterSnoc(m.table, x, m.growing.startSeq);
    }
    hide Inv, CacheOk;
    assert Lacking(m1) == Lacking(m) + [x] by {
      assert Held(m1) == Held(m) + [x];
    }
  }

  lemma InsertParts(c: Config, m: Meta)
    requires InOrder(c, m) && m.creating.Picked?
    ensures var m1 := Next(c, m, InsertPicked); var x := m.creating.row;
            && m1 == m.(table := m.table + [x], creating := Done(x))
            && Settled(m1) == Settled(m) && Cacheable(m1) == Cacheable(m) && Held(m1) == Held(m) + [x] && Fifo(m1)
            && (m.growing.Looked? ==> x.seqNo > m.growing.startSeq)
  {
    hide LogOk, Remaining, After, Accepted, Chain;
    MadeChain(c, m);
    NothingBehind(m.done);
    Assoc(Gone(m), m.table, [m.creating.row]);
    assert m.creating.row in m.queue;
    RowsPositive(c, m);
  }

  lemma RowsPositive(c: Config, m: Meta)
    requires LogOk(m)
    ensures forall r :: r in m.queue ==> r.seqNo > 0
  {
    QueueBehind(m);
  }

  /** A report keeps the cache in order exactly if no refill could take the row for one it lacks. */
  lemma ReportOrderIff(c: Config, m: Meta)
    requires InOrder(c, m) && m.creating.Done?
    ensures var m1 := Next(c, m, CompleteCreate);
            && Inv(c, m1) && Standing(m1) == Standing(m) + 1
            && (InOrder(c, m1) <==> m.growing.Rest? || m.loadable == c.earliestCap || (m.growing.Read? && m.growing.rows == []))
  {
    hide Inv, Accepted, After, Remaining, Made, Chain, GrowingOk;
    CompleteCreateKeeps(c, m);
    CountsOfInv(c, m);
    CacheLies(c, m);
    FifoRows(c, m);
    ReportParts(c, m);
    var m1 := Next(c, m, CompleteCreate);
    var x := m.creating.row;
    hide Cacheable, Held, Settled, Next;
    if m.loadable == c.earliestCap {
      assert m1.earliest == m.earliest;
      GrowingMore(c, m, m1);
    } else {
      assert Lacking(m) == [x] && Lacking(m1) == [];
      GrowingWhole(c, m, m1, x);
    }
  }

  /** The completion moves the row from the table's end to the settled rows. */
  lemma ReportParts(c: Config, m: Meta)
    requires InOrder(c, m) && m.creating.Done?
    ensures var m1 := Next(c, m, CompleteCreate); var x := m.creating.row;
            && Settled(m1) == Settled(m) + [x] && Cacheable(m1) == Cacheable(m) + [x] && Held(m1) == Held(m) && Fifo(m1)
            && Standing(m1) == Standing(m) + 1 && CacheOk(c, m1)
            && m1.table == m.table && m1.growing == m.growing && m.done <= m1.done
            && m1.earliest == if m.loadable < c.earliestCap then m.earliest + [x] else m.earliest
  {
    hide LogOk, TableOk, Remaining, After, Accepted, Chain, GrowingOk;
    var x := m.creating.row;
    RemainingSplit(m.done, [x], m.removed);
    RemainingAll([x], m.removed);
    Assoc(m.removed, Settled(m), [x]);
    Assoc(Gone(m), Settled(m), [x]);
    assert m.earliest <= Cacheable(m) + [x];
  }

  lemma GrowingMore(c: Config, m: Meta, m1: Meta)
    requires GrowingOk(c, m) && m1.growing == m.growing && m1.table == m.table && m.done <= m1.done
    requires m1.earliest == m.earliest && Lacking(m1) == Lacking(m)
    ensures GrowingOk(c, m1)
  {
    hide Accepted, After, Lacking;
  }

  /** Once the last row is cached, a refill that saw it lacking would push it again. */
  lemma GrowingWhole(c: Config, m: Meta, m1: Meta, x: Row)
    requires GrowingOk(c, m) && m1.growing == m.growing && m1.table == m.table && m.done <= m1.done
    requires Lacking(m) == [x] && Lacking(m1) == []
    ensures GrowingOk(c, m1) <==> m.growing.Rest? || (m.growing.Read? && m.growing.rows == [])
  {
    hide Accepted, After, Lacking;
  }

  /** The row to delete is the first of the settled rows. */
  lemma DeleteHead(c: Config, m: Meta)
    requires InOrder(c, m) && m.deleting.Picked?
    ensures var x := m.deleting.row;
            && m.table != [] && m.table[0] == x && m.table[1..] == Settled(m)[1..] + InFlight(m)
            && Settled(m) != [] && Settled(m)[0] == x && x in m.done && Cacheable(m) == Settled(m) && Held(m) == m.table
            && (m.creating.Done? ==> m.creating.row != x)
  {
    hide LogOk, TableOk, Settled, Chain, GrowingOk, Made;
    FifoRows(c, m);
    MadeChain(c, m);
    NothingBefore(Settled(m));
    NothingBefore(m.table);
    assert m.earliest[0] == Settled(m)[0];
    assert Settled(m)[0] in Cacheable(m);
    assert m.creating.Done? ==> m.creating.row in m.queue;
  }

  lemma RemoveSettles(c: Config, m: Meta)
    requires InOrder(c, m) && m.deleting.Picked?
    ensures Settled(m) != [] && m.table != []
    ensures Remaining(m.done, m.removed + [m.deleting.row]) == Settled(m)[1..]
    ensures Without(m.table, m.deleting.row.seqNo) == m.table[1..]
  {
    hide LogOk, QueueOk, TableOk, CountsOk, DeleteOk, Fifo, CacheOk, Remaining, Chain, GrowingOk, Without;
    DeleteHead(c, m);
    TableIs(c, m);
    MadeChain(c, m);
    WithoutHead(m.table);
    WithoutHead(Settled(m));
    OneOfChain(m.done, m.deleting.row);
    RemainingWithout(m.done, m.removed, m.deleting.row);
  }

  lemma RemoveParts(c: Config, m: Meta)
    requires InOrder(c, m) && m.deleting.Picked?
    ensures m.table != []
    ensures var m1 := Next(c, m, RemovePicked); var x := m.deleting.row;
            && m1 == m.(table := m.table[1..], deleting := Done(x), removed := m.removed + [x])
            && Settled(m) == [x] + Settled(m1) && Fifo(m1)
            && Cacheable(m1) == Cacheable(m) && Held(m1) == Held(m)
  {
    hide Inv, Remaining, CacheOk, GrowingOk, Without, AddStep, CompleteCreateStep, GrowLookStep, GrowReadStep, GrowPushStep;
    var x := m.deleting.row;
    OfOrder(c, m);
    DeleteHead(c, m);
    RemoveSettles(c, m);
    HeadAndTail(Settled(m));
    HeadAndTail(m.table);
    Assoc(m.removed, [x], Settled(m)[1..]);
  }

  lemma RemoveOrder(c: Config, m: Meta)
    requires InOrder(c, m) && m.deleting.Picked?
    ensures InOrder(c, Next(c, m, RemovePicked))
  {
    hide Inv, Fifo, Cacheable, Held, Accepted, After, Next;
    var m1 := Next(c, m, RemovePicked);
    RemoveKeeps(c, m);
    RemoveParts(c, m);
    CountsOfInv(c, m);
    CacheLies(c, m);
    TableIs(c, m);
    if m.growing.Looked? {
      AfterTail(m.table, m.growing.startSeq, Lacking(m));
      TableLacks(c, m);
    }
  }

  /** The first row of the table is cached, so that a refill starts behind it. */
  lemma TableLacks(c: Config, m: Meta)
    requires InOrder(c, m) && m.deleting.Picked?
    ensures |Lacking(m)| < |m.table|
  {
    hide LogOk, QueueOk, TableOk, Fifo, GrowingOk, Settled;
    CacheLies(c, m);
  }

  lemma AfterTail(rows: seq<Row>, seqNo: nat, behind: seq<Row>)
    requires After(rows, seqNo) == behind && rows != []
    ensures |behind| < |rows| && Chain(rows) ==> After(rows[1..], seqNo) == behind
  {
    if |behind| < |rows| && Chain(rows) && rows[0].seqNo > seqNo {
      AfterIsSuffix(rows, 0, seqNo);
    }
  }

  lemma DropHead(c: Config, m: Meta)
    requires InOrder(c, m) && m.deleting.Done?
    ensures var m1 := Next(c, m, CompleteDelete);
            && m.needDeleted > 0 && m.earliest != []
            && m1 == m.(earliest := m.earliest[1..], needDeleted := m.needDeleted - 1, deleting := Idle)
            && Cacheable(m1) == Cacheable(m)[1..] && Held(m1) == Held(m)[1..] && Fifo(m1) && Lacking(m1) == Lacking(m)
            && Standing(m1) == Standing(m) - 1 && CacheOk(c, m1)
  {
    hide Inv, Settled, GrowingOk, Held, Cacheable;
    CacheLies(c, m);
    CountsOfInv(c, m);
    WithoutGone(m, Next(c, m, CompleteDelete));
    PrefixTail(m.earliest, Cacheable(m));
  }

  lemma WithoutGone(m: Meta, m1: Meta)
    requires m.deleting.Done? && m1.deleting.Idle?
    requires m1.table == m.table && m1.done == m.done && m1.removed == m.removed && m1.creating == m.creating
    ensures Cacheable(m1) == Cacheable(m)[1..] && Held(m1) == Held(m)[1..] && Fifo(m1) == Fifo(m)
    ensures Cacheable(m) != [] && Held(m) != [] && Standing(m1) == Standing(m) - 1
  {
    hide Remaining;
    TailOf(m.deleting.row, Settled(m));
    TailOf(m.deleting.row, m.table);
    NothingBefore(Settled(m1));
    NothingBefore(m1.table);
  }

  lemma TailOf(r: Row, rows: seq<Row>)
    ensures ([r] + rows)[1..] == rows
  {
  }

  lemma PrefixTail<T>(a: seq<T>, b: seq<T>)
    requires a != [] && a <= b
    ensures a[1..] <= b[1..] && (a == b ==> a[1..] == b[1..])
  {
  }

  lemma DropOrder(c: Config, m: Meta)
    requires InOrder(c, m) && m.deleting.Done?
    ensures InOrder(c, Next(c, m, CompleteDelete))
  {
    hide Inv, Fifo, CacheOk, GrowingOk, Cacheable, Held, Lacking, Next;
    CompleteDeleteKeeps(c, m);
    CountsOfInv(c, m);
    DropHead(c, m);
    GrowingSame(c, m, Next(c, m, CompleteDelete));
  }

  /** Exactly the steps that the cache allows keep it in order, in whatever order the jobs take them. */
  lemma StepKeepsIff(c: Config, m: Meta, e: Event)
    requires Sizes(c) && InOrder(c, m) && Legal(e)
    ensures InOrder(c, Next(c, m, e)) <==> Allowed(c, m, e)
  {
    hide InOrder, PushFits, AddStep, CompleteCreateStep, GrowLookStep, GrowReadStep, GrowPushStep, Without;
    match e
    case Add(draft) => AddOrder(c, m, draft);
    case InsertPicked => if m.creating.Picked? { InsertOrder(c, m); }
    case CompleteCreate => ReportCases(c, m);
    case RemovePicked => if m.deleting.Picked? { RemoveOrder(c, m); }
    case CompleteDelete => if m.deleting.Done? { DropOrder(c, m); }
    case GrowLook => LookKeeps(c, m);
    case GrowRead => ReadKeeps(c, m);
    case GrowPush => PushCases(c, m);
    case PickCreated => PickOrder(c, m, e);
    case Delete => PickOrder(c, m, e);
    case PickDeleted => PickOrder(c, m, e);
  }

  lemma ReportCases(c: Config, m: Meta)
    requires InOrder(c, m)
    ensures InOrder(c, Next(c, m, CompleteCreate)) <==> Allowed(c, m, CompleteCreate)
  {
    hide InOrder;
    if m.creating.Done? {
      ReportOrderIff(c, m);
    }
  }

  lemma PushCases(c: Config, m: Meta)
    requires InOrder(c, m)
    ensures InOrder(c, GrowPushStep(c, m)) <==> Allowed(c, m, GrowPush)
  {
    hide InOrder, PushFits;
    if m.growing.Read? {
      GrowPushIff(c, m);
    } else {
      assert GrowPushStep(c, m) == m;
    }
  }

  // ----- runs

  ghost predicate AllowedRun(c: Config, m: Meta, events: seq<Event>)
    decreases |events|
  {
    events == [] || (Allowed(c, m, events[0]) && AllowedRun(c, Next(c, m, events[0]), events[1..]))
  }

  /** The cache is in order before every step of a run and after it. */
  ghost predicate StaysInOrder(c: Config, m: Meta, events: seq<Event>)
    decreases |events|
  {
    InOrder(c, m) && (events == [] || StaysInOrder(c, Next(c, m, events[0]), events[1..]))
  }

  /** The runs that keep the cache the beginning of the table, and whole where it says so, are exactly those of
      such steps. */
  lemma {:induction false} RunInOrderIff(c: Config, m: Meta, events: seq<Event>)
    requires Sizes(c) && InOrder(c, m) && LegalRun(events)
    ensures StaysInOrder(c, m, events) <==> AllowedRun(c, m, events)
    ensures AllowedRun(c, m, events) ==> InOrder(c, Run(c, m, events))
    decreases |events|
  {
    hide InOrder, Next, Legal, LegalRun, Allowed;
    if events != [] {
      LegalTail(events);
      StepKeepsIff(c, m, events[0]);
      if Allowed(c, m, events[0]) {
        RunInOrderIff(c, Next(c, m, events[0]), events[1..]);
      } else {
        NotInOrder(c, Next(c, m, events[0]), events[1..]);
      }
    }
  }

  lemma NotInOrder(c: Config, m: Meta, events: seq<Event>)
    requires !InOrder(c, m)
    ensures !StaysInOrder(c, m, events)
  {
  }

  /** A schedule of the jobs under which refills are left alone: no insertion and no deletion is reported
      between the look and the push of one, and none reads while an inserted row waits for its report. Rows may be
      added, inserted and deleted meanwhile. */
  predicate Clear(m: Meta, e: Event) {
    match e
    case CompleteCreate => m.creating.Done? ==> m.growing.Rest?
    case CompleteDelete => m.deleting.Done? ==> m.growing.Rest?
    case GrowRead => m.growing.Looked? ==> !m.creating.Done?
    case _ => true
  }

  ghost predicate ClearRun(c: Config, m: Meta, events: seq<Event>)
    decreases |events|
  {
    events == [] || (Clear(m, events[0]) && ClearRun(c, Next(c, m, events[0]), events[1..]))
  }

  /** A refill asks for as many rows as there is room, and once it has read, its push fits. */
  predicate Exact(c: Config, m: Meta) {
    (m.growing.Looked? ==> m.growing.need == Room(c, m.earliest)) && (m.growing.Read? ==> PushFits(c, m))
  }

  lemma ClearStep(c: Config, m: Meta, e: Event)
    requires Sizes(c) && InOrder(c, m) && Legal(e) && Clear(m, e) && Exact(c, m)
    ensures Allowed(c, m, e) && Exact(c, Next(c, m, e))
  {
    hide InOrder, PushFits, AddStep, CompleteCreateStep, GrowLookStep, GrowReadStep, GrowPushStep, Without;
    match e
    case Add(draft) =>
      OfOrder(c, m);
      QueueOfInv(c, m);
      AddLeaves(c, m, draft);
      FitsSame(c, m, AddStep(c, m, draft));
    case InsertPicked => FitsSame(c, m, Next(c, m, e));
    case CompleteCreate => if m.creating.Done? { ReportRests(c, m); }
    case RemovePicked => FitsSame(c, m, Next(c, m, e));
    case CompleteDelete =>
    case GrowLook => LookExact(c, m);
    case GrowRead => ReadExact(c, m);
    case GrowPush => PushRests(c, m);
    case PickCreated => FitsSame(c, m, Next(c, m, e));
    case Delete => FitsSame(c, m, Next(c, m, e));
    case PickDeleted => FitsSame(c, m, Next(c, m, e));
  }

  lemma OfOrder(c: Config, m: Meta)
    requires InOrder(c, m)
    ensures Inv(c, m) && Fifo(m) && CacheOk(c, m) && GrowingOk(c, m)
  {
  }

  lemma FitsSame(c: Config, m: Meta, m1: Meta)
    requires m1.growing == m.growing && m1.earliest == m.earliest && Standing(m1) == Standing(m)
    ensures Exact(c, m1) == Exact(c, m)
  {
    hide Accepted, Standing;
  }

  lemma ReportRests(c: Config, m: Meta)
    requires m.growing.Rest?
    ensures Next(c, m, CompleteCreate).growing.Rest?
  {
  }

  lemma PushRests(c: Config, m: Meta)
    requires Exact(c, m)
    ensures Exact(c, GrowPushStep(c, m))
  {
    hide Pushable;
  }

  lemma LookExact(c: Config, m: Meta)
    requires Exact(c, m)
    ensures Exact(c, GrowLookStep(c, m))
  {
    hide PushFits, LastSeq, LastEnd;
  }

  /** A read with no row in flight gives what the cache lacks. */
  lemma ReadExact(c: Config, m: Meta)
    requires InOrder(c, m) && Exact(c, m) && (m.growing.Looked? ==> !m.creating.Done?)
    ensures Exact(c, GrowReadStep(m))
  {
    if m.growing.Looked? {
      hide InOrder, Lacking, Cacheable, Held, First, Pushable, GrowReadStep, Standing;
      var m1 := GrowReadStep(m);
      ReadKeeps(c, m);
      OfOrder(c, m);
      OfOrder(c, m1);
      ReadTouchesNothing(m);
      PushesAll(c, m1);
      CacheLies(c, m);
      FifoRows(c, m);
      SameParts(m, m1);
      NothingBehind(Cacheable(m));
      FirstCount(m.growing.need, Lacking(m));
    } else {
      ReadKeepsOthers(m);
    }
  }

  lemma FirstCount(n: nat, rows: seq<Row>)
    ensures |First(n, rows)| == Min(n, |rows|)
  {
  }

  /** Every run under that schedule keeps the cache the beginning of the table, and whole where it says so. */
  lemma {:induction false} ClearRunKeeps(c: Config, m: Meta, events: seq<Event>)
    requires Sizes(c) && InOrder(c, m) && Exact(c, m) && LegalRun(events) && ClearRun(c, m, events)
    ensures AllowedRun(c, m, events) && InOrder(c, Run(c, m, events)) && Exact(c, Run(c, m, events))
    decreases |events|
  {
    hide InOrder, Next, Legal, LegalRun, Clear, Allowed, Exact;
    if events != [] {
      LegalTail(events);
      ClearStep(c, m, events[0]);
      StepKeepsIff(c, m, events[0]);
      ClearRunKeeps(c, Next(c, m, events[0]), events[1..]);
    }
  }

  lemma LoadedInOrder(c: Config, table: seq<Row>, offset: int)
    requires Sizes(c) && Chain(table)
    ensures InOrder(c, Loaded(c, table, offset)) && Exact(c, Loaded(c, table, offset))
  {
    hide Inv, Loaded, Chain, Remaining;
    LoadedOk(c, table, offset);
    LoadedIs(c, table, offset);
    RemainingAll(table, []);
    NothingBefore(table);
    FirstOfChain(c.earliestCap, table);
  }

  // ----- FirstIndex

  /** The table's rows that are not waiting to be deleted. */
  function Live(rows: seq<Row>, pending: seq<Row>): seq<Row> {
    if rows == [] then []
    else (if rows[0] in pending then [] else [rows[0]]) + Live(rows[1..], pending)
  }

  lemma {:induction false} LiveIsSuffix(rows: seq<Row>, n: nat, pending: seq<Row>)
    requires n <= |rows|
    requires forall i :: 0 <= i < n ==> rows[i] in pending
    requires forall i :: n <= i < |rows| ==> rows[i] !in pending
    ensures Live(rows, pending) == rows[n..]
  {
    if rows != [] {
      LiveIsSuffix(rows[1..], if n == 0 then 0 else n - 1, pending);
    }
  }

  /** FirstIndex: a row, or none, and whether the answer is known from the cache. */
  function FirstOf(c: Config, m: Meta): (Option<Row>, bool)
    requires m.needDeleted <= |m.earliest|
  {
    if m.needDeleted != |m.earliest| then (Some(m.earliest[m.needDeleted]), true)
    else if m.loadable == c.earliestCap then (None, false)
    else (None, true)
  }

  lemma LiveRows(all: seq<Row>, gone: nat, n: nat)
    requires Chain(all) && gone <= n <= |all|
    ensures Live(all[gone..], all[..n]) == all[n..]
  {
    var rows := all[gone..];
    assert forall i :: 0 <= i < |rows| ==> rows[i] == all[gone + i];
    assert forall i :: 0 <= i < n ==> all[..n][i] == all[i];
    forall i | 0 <= i < |rows| ensures rows[i] in all[..n] <==> i < n - gone {
      if i < n - gone {
        assert rows[i] == all[..n][gone + i];
      }
    }
    LiveIsSuffix(rows, n - gone, all[..n]);
  }

  /** FirstIndex gives the table's first row that is not waiting to be deleted; it reports that there is
      none only if there is none, and does not know only if the cache may lack rows of the table. */
  lemma FirstIsFirstLive(c: Config, m: Meta)
    requires InOrder(c, m)
    ensures m.needDeleted <= |m.earliest|
    ensures var live := Live(Settled(m), m.earliest[..m.needDeleted]);
            match FirstOf(c, m)
            case (Some(r), known) => known && live != [] && live[0] == r
            case (None, true) => live == []
            case (None, false) => m.loadable == c.earliestCap && m.needDeleted == |m.earliest|
  {
    hide LogOk, QueueOk, TableOk, Fifo, GrowingOk, Chain, Live, Settled;
    CacheLies(c, m);
    CacheableChain(c, m);
    var all := Cacheable(m);
    NothingBefore(Settled(m));
    assert all[|Gone(m)|..] == Settled(m);
    assert all[..m.needDeleted] == m.earliest[..m.needDeleted];
    LiveRows(all, |Gone(m)|, m.needDeleted);
  }

  lemma CacheableChain(c: Config, m: Meta)
    requires Inv(c, m) && Fifo(m)
    ensures Chain(Cacheable(m))
  {
    hide Inv, Fifo, Held, Cacheable, Chain;
    FifoRows(c, m);
    ChainParts(Cacheable(m), InFlight(m));
  }

  /** In every run from the start under the schedule that leaves refills alone, the cache is the beginning of
      the table and FirstIndex answers right. */
  lemma FirstIndexInRuns(c: Config, table: seq<Row>, offset: int, events: seq<Event>)
    requires Sizes(c) && Chain(table) && LegalRun(events) && ClearRun(c, Loaded(c, table, offset), events)
    ensures var m := Run(c, Loaded(c, table, offset), events);
            && m.earliest <= Cacheable(m) && (m.loadable < c.earliestCap ==> m.earliest == Cacheable(m))
            && m.removed + Settled(m) == m.done && m.needDeleted <= |m.earliest|
            && var live := Live(Settled(m), m.earliest[..m.needDeleted]);
               match FirstOf(c, m)
               case (Some(r), known) => known && live != [] && live[0] == r
               case (None, true) => live == []
               case (None, false) => m.loadable == c.earliestCap && m.needDeleted == |m.earliest|
  {
    hide Inv, GrowingOk, Exact, Loaded, Run, LegalRun, ClearRun, AllowedRun, Live, Settled, Cacheable;
    LoadedInOrder(c, table, offset);
    ClearRunKeeps(c, Loaded(c, table, offset), events);
    FirstIsFirstLive(c, Run(c, Loaded(c, table, offset), events));
  }

  // ----- a refill with nothing in between

  lemma GrowParts(c: Config, m: Meta)
    requires InOrder(c, m) && m.growing.Rest? && |m.earliest| < c.earliestCap
    ensures var rows := First(Room(c, m.earliest), Lacking(m)); var m1 := GrowReadStep(GrowLookStep(c, m));
            && InOrder(c, m1) && m1 == m.(growing := m1.growing) && m1.growing.Read? && m1.growing.rows == rows
            && GrowStep(c, m) == GrowPushStep(c, m1) && Pushable(c, m1) == rows
  {
    hide Inv, Fifo, CacheOk, Cacheable, Held, Lacking, Pushable, First, GrowLookStep, GrowReadStep, GrowPushStep;
    LookIs(c, m);
    LookKeeps(c, m);
    var looked := GrowLookStep(c, m);
    ReadKeeps(c, looked);
    ReadTouchesNothing(looked);
    SameParts(m, looked);
    PushesAll(c, GrowReadStep(looked));
  }

  lemma FirstBehind(all: seq<Row>, cached: nat, cap: nat)
    requires cached <= |all| && cached <= cap
    ensures all[..cached] + First(cap - cached, all[cached..]) == First(cap, all)
  {
  }

  /** A refill with nothing in between leaves in the cache the first rows of the table, up to its capacity. */
  lemma GrowFills(c: Config, m: Meta)
    requires InOrder(c, m) && m.growing.Rest?
    ensures GrowStep(c, m).earliest == First(c.earliestCap, Held(m))
  {
    hide Inv, Fifo, CacheOk, GrowingOk, Cacheable, Held, Pushable, GrowPushStep, Standing;
    CacheLies(c, m);
    if |m.earliest| < c.earliestCap {
      GrowParts(c, m);
      PushTouchesCache(c, GrowReadStep(GrowLookStep(c, m)));
      FirstBehind(Held(m), |m.earliest|, c.earliestCap);
    } else {
      NoGrow(c, m);
    }
  }

  /** It keeps the cache in order exactly if no inserted row waits for its report, or the cache is full without
      it. */
  lemma GrowKeepsIff(c: Config, m: Meta)
    requires InOrder(c, m) && m.growing.Rest?
    ensures InOrder(c, GrowStep(c, m)) <==> (m.creating.Done? ==> |Cacheable(m)| >= c.earliestCap)
  {
    hide Inv, Fifo, CacheOk, GrowingOk, Cacheable, Held, Pushable, GrowPushStep, GrowReadStep, GrowLookStep, First, Standing,
      Settled;
    CacheLies(c, m);
    OfOrder(c, m);
    FifoRows(c, m);
    if |m.earliest| < c.earliestCap {
      GrowParts(c, m);
      var m1 := GrowReadStep(GrowLookStep(c, m));
      GrowPushIff(c, m1);
      SameParts(m, m1);
      FirstCount(Room(c, m.earliest), Lacking(m));
    } else {
      NoGrow(c, m);
    }
  }

  lemma NoGrow(c: Config, m: Meta)
    requires m.growing.Rest? && |m.earliest| >= c.earliestCap
    ensures GrowStep(c, m) == m
  {
  }

  /** A refill that comes between a row's insertion into the table and its report leaves the cache in
      order, once the row is reported, exactly if the cache cannot hold all of the table: otherwise it reads the
      row, and the report pushes it a second time. */
  lemma GrowInBetweenIff(c: Config, m: Meta)
    requires Sizes(c) && InOrder(c, m) && m.creating.Done? && m.growing.Rest?
    ensures var m2 := Next(c, GrowStep(c, m), CompleteCreate);
            CacheOk(c, m2) <==> |Cacheable(m)| + 1 >= c.earliestCap
  {
    hide Inv, Fifo, CacheOk, GrowingOk, Held, First, Standing, Settled, Cacheable, GrowStep;
    GrowFills(c, m);
    CacheLies(c, m);
    OfOrder(c, m);
    FifoRows(c, m);
    CountsOfInv(c, m);
    ReportParts(c, m);
    GrowTouchesCache(c, m);
    var x := m.creating.row;
    var all := Cacheable(m) + [x];
    var m2 := Next(c, GrowStep(c, m), CompleteCreate);
    SettledAlone(m2, Next(c, m, CompleteCreate));
    FirstPrefix(c.earliestCap, all);
    CacheIs(c, m2);
  }

  lemma SettledAlone(m: Meta, m1: Meta)
    requires m.done == m1.done && m.removed == m1.removed && m.deleting == m1.deleting
    ensures Cacheable(m) == Cacheable(m1)
  {
  }

  lemma GrowTouchesCache(c: Config, m: Meta)
    requires m.growing.Rest?
    ensures var m1 := GrowStep(c, m);
            && m1 == m.(earliest := m1.earliest, loadable := m1.loadable)
            && (|m.earliest| < c.earliestCap ==> m1.loadable == |m1.earliest|)
            && (|m.earliest| >= c.earliestCap ==> m1 == m)
  {
    hide Accepted, After, First;
  }

  lemma FirstPrefix(n: nat, rows: seq<Row>)
    ensures First(n, rows) <= rows && (|rows| <= n ==> First(n, rows) == rows) && |First(n, rows)| <= n
    ensures |First(n, rows)| < n ==> First(n, rows) == rows
  {
  }

  /** The first row of an empty table, inserted and not yet reported. */
  function FirstInserted(r: Row): Meta {
    Meta([r], [r], Done(r), Some(r), 0, [], 0, 0, Idle, Rest, [], [])
  }

  const EMPTY := Meta([], [], Idle, None, 0, [], 0, 0, Idle, Rest, [], [])

  lemma FirstAdded(c: Config, draft: Row)
    requires c.createdCap > 1
    ensures AddStep(c, EMPTY, draft) == EMPTY.(queue := [draft.(seqNo := 1)], latest := Some(draft.(seqNo := 1)))
  {
  }

  lemma FirstIsInserted(c: Config, draft: Row)
    requires Sizes(c) && c.createdCap > 1
    ensures Next(c, Next(c, Next(c, Loaded(c, [], 0), Add(draft)), PickCreated), InsertPicked)
            == FirstInserted(draft.(seqNo := 1))
  {
    hide Loaded, AddStep, GrowLookStep, GrowReadStep, GrowPushStep, CompleteCreateStep, Without;
    LoadedIs(c, [], 0);
    assert Loaded(c, [], 0) == EMPTY;
    FirstAdded(c, draft);
  }

  lemma FirstRefill(c: Config, r: Row)
    requires Sizes(c) && r.start <= r.end && r.seqNo == 1
    ensures GrowStep(c, FirstInserted(r)) == FirstInserted(r).(earliest := [r], loadable := 1)
  {
    assert After([r], 0) == [r];
    assert Accepted(NewChecker(0, 0, 0, 0), [r]) == [r];
  }

  /** From the start with an empty table: the first row is cached twice. */
  lemma RowIsCachedTwice(draft: Row)
    requires draft.start <= draft.end
    ensures var c := Config(16, 16); var r := draft.(seqNo := 1);
            var m := Next(c, Next(c, Next(c, Loaded(c, [], 0), Add(draft)), PickCreated), InsertPicked);
            Next(c, GrowStep(c, m), CompleteCreate).earliest == [r, r]
  {
    hide Loaded, GrowStep;
    var c := Config(16, 16);
    var r := draft.(seqNo := 1);
    FirstIsInserted(c, draft);
    FirstRefill(c, r);
    hide AddStep;
  }

  // ----- reports while a refill is under way

  /** A deletion reported between the read and the push of a refill that would fit makes room for a row that was
      not asked for. The cache then ends up short of its capacity and counts as whole, although the table has
      more, exactly if there were more rows than the cache can hold. */
  lemma DeletionBeforePushIff(c: Config, m: Meta)
    requires InOrder(c, m) && m.growing.Read? && m.deleting.Done? && PushFits(c, m)
    ensures var m1 := Next(c, m, CompleteDelete);
            InOrder(c, GrowPushStep(c, m1)) <==> Standing(m) <= c.earliestCap
  {
    hide Inv, Fifo, CacheOk, GrowingOk, Cacheable, Held, Lacking, Pushable, GrowPushStep, Standing, Next;
    var m1 := Next(c, m, CompleteDelete);
    OfOrder(c, m);
    CountsOfInv(c, m);
    DropOrder(c, m);
    DropHead(c, m);
    GrowPushIff(c, m);
    GrowPushIff(c, m1);
  }

  /** An insertion reported between the read and the push of a refill that would fit, into a cache that may lack
      rows, is missing from the cache exactly if there were not enough rows to fill it. */
  lemma ReportBeforePushIff(c: Config, m: Meta)
    requires Sizes(c) && InOrder(c, m) && m.growing.Read? && m.creating.Done? && m.loadable == c.earliestCap && PushFits(c, m)
    ensures var m1 := Next(c, m, CompleteCreate);
            InOrder(c, GrowPushStep(c, m1)) <==> Standing(m) >= c.earliestCap
  {
    hide Inv, Fifo, CacheOk, GrowingOk, Cacheable, Held, Lacking, Pushable, GrowPushStep, Standing, Next;
    var m1 := Next(c, m, CompleteCreate);
    ReportOrderIff(c, m);
    ReportParts(c, m);
    GrowPushIff(c, m);
    GrowPushIff(c, m1);
  }
}
