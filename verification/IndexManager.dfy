/** The index half of DBMetaManager (storage/meta/db-meta-manager.go) as an object: each method is one
    locked section or one database call of the source and takes the step of IndexMeta that names it. */
module IndexManagers {
  import opened Options
  import opened Sequences
  import opened IndexRows
  import opened IndexMeta
  import opened IndexCache
  import opened IndexQueries

  const DEFAULT_EARLIEST: nat := 64
  const DEFAULT_CREATED: nat := 1024
  const MIN_CACHE: nat := 16

  function CacheSize(size: int, default: nat): nat {
    if size == 0 then default else if size < MIN_CACHE then MIN_CACHE else size
  }

  /** Without sizes, the cache takes 64 rows and the queue 1024, and neither less than 16. */
  lemma SizesAre(size: int)
    ensures CacheSize(size, DEFAULT_EARLIEST) == if size == 0 then 64 else if size < 16 then 16 else size
    ensures CacheSize(size, DEFAULT_CREATED) == if size == 0 then 1024 else if size < 16 then 16 else size
  {
  }

  class IndexManager {
    const config: Config
    /** The database table, in sequence order. */
    var table: seq<Row>
    var needCreated: seq<Row>
    var creating: Phase
    var latest: Option<Row>
    var timeOffset: int
    var earliest: seq<Row>
    var loadable: nat
    var needDeleted: nat
    var deleting: Phase
    var growing: Growing
    /** The rows whose insertion was reported, and those deleted from the table. */
    ghost var done: seq<Row>
    ghost var removed: seq<Row>

    ghost function Abs(): Meta
      reads this
    {
      Meta(table, needCreated, creating, latest, timeOffset, earliest, loadable, needDeleted, deleting, growing,
           done, removed)
    }

    ghost predicate Valid()
      reads this
    {
      Sizes(config) && Inv(config, Abs())
    }

    /** The cache is the beginning of the table. */
    ghost predicate CacheInOrder()
      reads this
    {
      InOrder(config, Abs())
    }

    constructor (earliestSize: int, createdSize: int, rows: seq<Row>, offset: int)
      requires Chain(rows)
      ensures Valid() && CacheInOrder() && Log(Abs()) == rows && Abs() == Loaded(config, rows, offset)
      ensures config == Config(CacheSize(earliestSize, DEFAULT_EARLIEST), CacheSize(createdSize, DEFAULT_CREATED))
    {
      config := Config(CacheSize(earliestSize, DEFAULT_EARLIEST), CacheSize(createdSize, DEFAULT_CREATED));
      table, needCreated, creating, timeOffset := rows, [], Idle, offset;
      latest := if rows == [] then None else Some(rows[|rows| - 1]);
      earliest, loadable, needDeleted, deleting, growing, done, removed := [], 0, 0, Idle, Rest, rows, [];
      new;
      hide Inv, InOrder, Chain, Remaining;
      assert Abs() == Unloaded(rows, offset);
      UnloadedOk(config, rows, offset);
      LoadedOk(config, rows, offset);
      LoadedInOrder(config, rows, offset);
      GrowEarliestIndexes();
    }

    /** The row with its number and its corrected interval; moves the channel's offset along. */
    method Correct(draft: Row) returns (index: Row)
      modifies this`timeOffset
      ensures index == Corrected(old(Abs()), draft) && timeOffset == old(timeOffset) + Shift(old(Abs()), draft)
    {
      index := draft.(seqNo := 1);
      if latest.Some? {
        index := index.(seqNo := index.seqNo + latest.value.seqNo);
      }
      index := index.(start := index.start + timeOffset, end := index.end + timeOffset);
      var offset := 0;
      if latest.Some? && index.start < latest.value.end {
        offset := latest.value.end - index.start;
        timeOffset := timeOffset + offset;
      }
      if offset > 0 {
        index := index.(start := index.start + offset, end := index.end + offset);
      }
    }

    method AddIndex(draft: Row)
      requires Valid() && draft.start <= draft.end
      modifies this
      ensures Valid() && Abs() == Next(config, old(Abs()), Add(draft))
      ensures old(CacheInOrder()) ==> CacheInOrder()
    {
      hide LogOk, TableOk, DeleteOk, Corrected, Shift, InOrder;
      BothKeep(config, Abs(), Add(draft));
      var index := Correct(draft);
      if |needCreated| + 1 >= config.createdCap {
        var n := |needCreated|;
        if n == config.createdCap {
          var tail := needCreated[n - 1];
          if tail.state != DROPPED {
            // the source panics here; a full queue always ends in a placeholder
            assert false;
          }
          tail := tail.(end := index.end);
          needCreated := needCreated[..n - 1] + [tail];
          latest := Some(tail);
          return;
        }
        index := index.(fileSeq := 0, fileOffset := 0, size := 0, state := DROPPED);
      }
      latest := Some(index);
      needCreated := needCreated + [index];
    }

    // ----- createIndex

    method PickCreated() returns (ok: bool)
      requires Valid() && creating.Idle?
      modifies this`creating
      ensures Valid() && Abs() == Next(config, old(Abs()), Event.PickCreated)
      ensures old(CacheInOrder()) ==> CacheInOrder()
      ensures (ok <==> needCreated != []) && (ok <==> creating.Picked?) && (ok <==> !creating.Idle?)
    {
      hide LogOk, TableOk, Grows, History, InOrder;
      BothKeep(config, Abs(), Event.PickCreated);
      ok := |needCreated| > 0;
      if ok {
        creating := Picked(needCreated[0]);
      }
    }

    method InsertPicked()
      requires Valid() && creating.Picked?
      modifies this`table, this`creating
      ensures Valid() && Abs() == Next(config, old(Abs()), Event.InsertPicked)
      ensures old(CacheInOrder()) ==> CacheInOrder()
    {
      hide LogOk, QueueOk, TableOk, DeleteOk, Grows, History, InOrder;
      BothKeep(config, Abs(), Event.InsertPicked);
      table := table + [creating.row];
      creating := Done(creating.row);
    }

    method CompleteCreate()
      requires Valid() && creating.Done?
      modifies this`needCreated, this`creating, this`earliest, this`loadable, this`done
      ensures Valid() && Abs() == Next(config, old(Abs()), Event.CompleteCreate)
      ensures old(CacheInOrder()) ==> (CacheInOrder() <==> old(Allowed(config, Abs(), Event.CompleteCreate)))
    {
      hide LogOk, TableOk, Grows, History, InOrder;
      BothKeep(config, Abs(), Event.CompleteCreate);
      var index := needCreated[0];
      needCreated := needCreated[1..];
      done := done + [index];
      if loadable < config.earliestCap {
        earliest := earliest + [index];
        loadable := loadable + 1;
      }
      creating := Idle;
    }

    /** createIndex with no other task in between: the whole queue goes to the table. */
    method CreateIndex()
      requires Valid() && creating.Idle?
      modifies this`table, this`needCreated, this`creating, this`earliest, this`loadable, this`done
      ensures Valid() && creating.Idle? && needCreated == []
      ensures table == old(Log(Abs()))
    {
      hide Inv, Next, Log;
      while true
        invariant Valid() && creating.Idle? && Log(Abs()) == old(Log(Abs()))
        decreases |needCreated|
      {
        if needCreated != [] {
          CreateOne(config, Abs());
        }
        var ok := PickCreated();
        if !ok {
          break;
        }
        InsertPicked();
        CompleteCreate();
      }
      LogOfTable(config, Abs());
    }

    // ----- deleteIndex

    method DeleteIndex()
      requires Valid()
      modifies this`needDeleted
      ensures Valid() && Abs() == Next(config, old(Abs()), Delete)
      ensures old(CacheInOrder()) ==> CacheInOrder()
    {
      hide LogOk, QueueOk, TableOk, Grows, History, InOrder;
      BothKeep(config, Abs(), Delete);
      if needDeleted == |earliest| {
        return;
      }
      needDeleted := needDeleted + 1;
    }

    method PickDeleted() returns (ok: bool)
      requires Valid() && deleting.Idle?
      modifies this`deleting
      ensures Valid() && Abs() == Next(config, old(Abs()), Event.PickDeleted)
      ensures old(CacheInOrder()) ==> CacheInOrder()
      ensures ok <==> needDeleted > 0
    {
      hide LogOk, QueueOk, TableOk, Grows, History, InOrder;
      BothKeep(config, Abs(), Event.PickDeleted);
      CountsOfInv(config, Abs());
      ok := needDeleted != 0;
      if ok {
        deleting := Picked(earliest[0]);
      }
    }

    method RemovePicked()
      requires Valid() && deleting.Picked?
      modifies this`table, this`deleting, this`removed
      ensures Valid() && Abs() == Next(config, old(Abs()), Event.RemovePicked)
      ensures old(CacheInOrder()) ==> CacheInOrder()
    {
      hide LogOk, QueueOk, TableOk, DeleteOk, Grows, History, Without, InOrder;
      BothKeep(config, Abs(), Event.RemovePicked);
      var gone := deleting.row;
      table := Without(table, gone.seqNo);
      deleting := Done(gone);
      removed := removed + [gone];
    }

    /** Reports the deletion; says whether the cache should be refilled. */
    method CompleteDelete() returns (grow: bool)
      requires Valid() && deleting.Done?
      modifies this`earliest, this`needDeleted, this`deleting
      ensures Valid() && Abs() == Next(config, old(Abs()), Event.CompleteDelete)
      ensures old(CacheInOrder()) ==> CacheInOrder()
      ensures grow <==> loadable == config.earliestCap && |earliest| < config.earliestCap / 2
    {
      hide LogOk, QueueOk, TableOk, Grows, History, InOrder;
      BothKeep(config, Abs(), Event.CompleteDelete);
      earliest := earliest[1..];
      needDeleted := needDeleted - 1;
      deleting := Idle;
      grow := loadable == config.earliestCap && |earliest| < config.earliestCap / 2;
    }

    // ----- the cache

    /** The first locked part of growEarliestIndexes. */
    method GrowLook()
      requires Valid() && growing.Rest?
      modifies this`growing
      ensures Valid() && Abs() == Next(config, old(Abs()), Event.GrowLook)
      ensures old(CacheInOrder()) ==> CacheInOrder()
    {
      hide LogOk, QueueOk, TableOk, DeleteOk, Grows, History, InOrder;
      BothKeep(config, Abs(), Event.GrowLook);
      var need := config.earliestCap - |earliest|;
      if need == 0 {
        return;
      }
      var startSeq, startTime := 0, 0;
      if |earliest| > 0 {
        startSeq := earliest[|earliest| - 1].seqNo;
        startTime := earliest[|earliest| - 1].end;
      }
      growing := Looked(startSeq, startTime, need);
    }

    /** Its read of the table. */
    method GrowRead()
      requires Valid() && growing.Looked?
      modifies this`growing
      ensures Valid() && Abs() == Next(config, old(Abs()), Event.GrowRead)
      ensures old(CacheInOrder()) ==> CacheInOrder()
    {
      hide Inv, After, First, Grows, History, InOrder;
      BothKeep(config, Abs(), Event.GrowRead);
      growing := Read(growing.startSeq, growing.startTime, First(growing.need, After(table, growing.startSeq)));
    }

    /** Its second locked part: the rows that pass the order filter go into the cache until it is full. */
    method GrowPush()
      requires Valid() && growing.Read?
      modifies this`earliest, this`loadable, this`growing
      ensures Valid() && Abs() == Next(config, old(Abs()), Event.GrowPush)
      ensures old(CacheInOrder()) ==> (CacheInOrder() <==> old(PushFits(config, Abs())))
    {
      hide Inv, CheckRow, Accepted, Grows, History, InOrder, PushFits;
      BothKeep(config, Abs(), Event.GrowPush);
      CountsOfInv(config, Abs());
      PushRows();
    }

    /** The loop of the second locked part. */
    method PushRows()
      requires |earliest| <= config.earliestCap && growing.Read?
      modifies this`earliest, this`loadable, this`growing
      ensures Abs() == GrowPushStep(config, old(Abs()))
    {
      hide CheckRow, Accepted;
      var indexes := growing.rows;
      var indexChecker := new IndexChecker(growing.afterTime, 0, growing.afterSeq, 0);
      ghost var start := indexChecker.Abs();
      ghost var before := earliest;
      ghost var room := Room(config, before);
      AcceptedNothing(start);
      NothingBehind(before);
      var i := 0;
      while i < |indexes|
        invariant 0 <= i <= |indexes| && fresh(indexChecker) && growing == old(growing)
        invariant indexChecker.Abs() == CheckerAfter(start, indexes[..i])
        invariant earliest == before + First(room, Accepted(start, indexes[..i]))
      {
        AcceptedSnoc(start, indexes[..i], indexes[i]);
        assert indexes[..i + 1] == indexes[..i] + [indexes[i]];
        FirstSnoc(before, room, Accepted(start, indexes[..i]), indexes[i]);
        var ok := indexChecker.Check(indexes[i]);
        if ok && |earliest| < config.earliestCap {
          earliest := earliest + [indexes[i]];
        }
        NothingBehind(Accepted(start, indexes[..i]));
        i := i + 1;
      }
      assert indexes[..i] == indexes;
      loadable, growing := |earliest|, Rest;
    }

    /** The whole refill, with no other job in between. */
    method GrowEarliestIndexes()
      requires Valid() && growing.Rest?
      modifies this`earliest, this`loadable, this`growing
      ensures Valid() && Abs() == GrowStep(config, old(Abs()))
      ensures old(CacheInOrder()) ==> (CacheInOrder() <==> (creating.Done? ==> |Cacheable(Abs())| >= config.earliestCap))
    {
      hide Inv, LastSeq, LastEnd, After, First, Accepted, InOrder;
      GrowKeeps(config, Abs());
      GrowLook();
      if growing.Looked? {
        GrowRead();
        GrowPush();
      }
    }

    method FirstIndex() returns (index: Option<Row>, loaded: bool)
      requires Valid()
      ensures (index, loaded) == FirstOf(config, Abs())
      ensures CacheInOrder() ==>
                var live := Live(Settled(Abs()), earliest[..needDeleted]);
                && (index.Some? ==> loaded && live != [] && live[0] == index.value)
                && (index.None? && loaded ==> live == [])
    {
      hide Inv, InOrder, Live, Settled;
      CountsOfInv(config, Abs());
      if CacheInOrder() {
        FirstIsFirstLive(config, Abs());
      }
      if needDeleted != |earliest| {
        return Some(earliest[needDeleted]), true;
      } else if loadable == config.earliestCap {
        return None, false;
      }
      return None, true;
    }

    // ----- FindIndexes

    /** The part under the index lock: two binary searches over the queue. */
    method LookAtQueue(start: int, end: int, limit: int) returns (plan: Plan)
      requires Valid()
      ensures plan == PlanOf(needCreated, start, end, limit)
    {
      hide Inv, First, Chain;
      if start >= end || limit == 0 {
        return Answered([]);
      }
      QueueChain(config, Abs());
      var queue := needCreated;
      Sorted(queue);
      if |queue| > 0 && end > queue[0].start {
        var startsBehind := (i: nat) => i < |queue| && queue[i].start >= end;
        var ei := Search(|queue|, startsBehind);
        forall i | 0 <= i < |queue| ensures i < ei <==> queue[i].start < end {
          assert startsBehind(i) <==> queue[i].start >= end;
        }
        if start >= queue[0].start {
          var endsBehind := (i: nat) => i < |queue| && queue[i].end > start;
          var si := Search(|queue|, endsBehind);
          forall i | 0 <= i < |queue| ensures i < si <==> queue[i].end <= start {
            assert endsBehind(i) <==> queue[i].end > start;
          }
          RangeOf(queue, si, ei, start, end);
          var l := ei - si;
          FirstOfRange(queue, si, ei, limit);
          if l == 0 {
            return Answered([]);
          }
          if limit > 0 && l > limit {
            ei := ei - (l - limit);
          }
          return Answered(queue[si..ei]);
        }
        RangeOf(queue, 0, ei, start, end);
        FirstOfRange(queue, 0, ei, limit);
        if limit > 0 && ei > limit {
          ei := limit;
        }
        return ReadTable(queue[0].start, queue[..ei]);
      }
      return ReadTable(end, []);
    }

    /** The part after the database has answered: the order filter, the rows of the queue behind, and
        the limit once more. */
    method PutTogether(read: seq<Row>, limit: int, plan: Plan) returns (indexes: seq<Row>)
      requires plan.ReadTable? && limit != 0
      ensures indexes == First(limit, Accepted(CheckerOf(plan), read) + plan.extras)
    {
      var endSeq, endTime := 0, 0;
      if |plan.extras| > 0 {
        endSeq := plan.extras[0].seqNo;
        endTime := plan.extras[0].start;
      }
      var indexChecker := new IndexChecker(0, endTime, 0, endSeq);
      indexes := indexChecker.Keep(read);
      hide Accepted;
      if limit > 0 {
        if |indexes| > limit {
          return indexes[..limit];
        }
        if |indexes| + |plan.extras| > limit {
          return indexes + plan.extras[..limit - |indexes|];
        }
      }
      return indexes + plan.extras;
    }

    /** The whole query, with no other task in between. */
    method FindIndexes(start: int, end: int, limit: int) returns (indexes: seq<Row>)
      requires Valid() && Strict(History(Abs()))
      ensures indexes == if start < end then First(limit, Overlap(Log(Abs()), start, end)) else []
    {
      var plan := LookAtQueue(start, end, limit);
      if start < end {
        FindIsFilter(config, Abs(), [], start, end, limit);
        VisibleIsLog(config, Abs());
      }
      hide Inv, Overlap, Strict, Accepted, CheckerOf;
      if plan.Answered? {
        return plan.rows;
      }
      indexes := PutTogether(First(limit, Overlap(table, start, plan.end)), limit, plan);
    }
  }

  lemma BothKeep(c: Config, m: Meta, e: Event)
    requires Sizes(c) && Inv(c, m) && Legal(e)
    ensures Inv(c, Next(c, m, e)) && (InOrder(c, m) ==> (InOrder(c, Next(c, m, e)) <==> Allowed(c, m, e)))
  {
    hide Inv, InOrder, Next, Allowed;
    StepKeeps(c, m, e);
    if InOrder(c, m) {
      StepKeepsIff(c, m, e);
    }
  }

  lemma GrowKeeps(c: Config, m: Meta)
    requires Inv(c, m) && m.growing.Rest?
    ensures Cacheable(GrowStep(c, m)) == Cacheable(m)
    ensures InOrder(c, m) ==> (InOrder(c, GrowStep(c, m)) <==> (m.creating.Done? ==> |Cacheable(m)| >= c.earliestCap))
  {
    hide Inv, InOrder, Settled;
    GrowTouchesCache(c, m);
    SettledAlone(GrowStep(c, m), m);
    if InOrder(c, m) {
      GrowKeepsIff(c, m);
    }
  }

  /** One round of createIndex moves the head of the queue to the end of the table. */
  lemma CreateOne(c: Config, m: Meta)
    requires Sizes(c) && Inv(c, m) && m.creating.Idle? && m.queue != []
    ensures var m1 := Next(c, m, PickCreated);
            var m2 := Next(c, m1, InsertPicked);
            var m3 := Next(c, m2, CompleteCreate);
            && m1.creating.Picked? && m2.creating.Done? && m3.creating.Idle?
            && |m3.queue| < |m.queue| && Log(m3) == Log(m)
  {
    hide LogOk, TableOk, CountsOk, DeleteOk, Grows, History, Chain, Remaining;
    StepKeeps(c, m, PickCreated);
    var m1 := Next(c, m, PickCreated);
    StepKeeps(c, m1, InsertPicked);
    var m2 := Next(c, m1, InsertPicked);
    CompleteCreateKeeps(c, m2);
    NotRemoved(c, m1);
    RemainingSplit(m2.done, [m2.queue[0]], m2.removed);
    RemainingAll([m2.queue[0]], m2.removed);
    HeadAndTail(m2.queue);
    Assoc(Settled(m2), [m2.queue[0]], m2.queue[1..]);
  }

  /** A row that is not inserted is not deleted. */
  lemma NotRemoved(c: Config, m: Meta)
    requires Inv(c, m) && !m.creating.Done? && m.queue != []
    ensures m.queue[0] !in m.removed
  {
    hide LogOk, Chain, Remaining;
    MadeChain(c, m);
    NothingBehind(m.done);
    assert m.queue[0] in m.queue;
  }

  lemma LogOfTable(c: Config, m: Meta)
    requires Inv(c, m) && m.creating.Idle? && m.queue == []
    ensures Log(m) == m.table
  {
    TableIs(c, m);
    NothingBehind(Settled(m));
  }

  lemma AcceptedNothing(c: Checker)
    ensures Accepted(c, []) == []
  {
  }

  /** One more row goes behind the others, if there is room. */
  lemma FirstSnoc(before: seq<Row>, room: nat, rows: seq<Row>, r: Row)
    ensures before + First(room, rows + [r])
            == before + First(room, rows) + if |First(room, rows)| < room then [r] else []
  {
    if |rows| < room {
      Assoc(before, rows, [r]);
    } else {
      assert (rows + [r])[..room] == rows[..room];
      NothingBehind(before + First(room, rows));
    }
  }

  lemma Sorted(rows: seq<Row>)
    requires Chain(rows)
    ensures forall i, j :: 0 <= i < j < |rows| ==> rows[i].start <= rows[j].start && rows[i].end <= rows[j].end
    ensures forall i :: 0 <= i < |rows| ==> rows[i].start <= rows[i].end
  {
  }

  lemma FirstOfRange(rows: seq<Row>, si: nat, ei: nat, limit: int)
    requires si <= ei <= |rows| && limit != 0
    ensures First(limit, rows[si..ei]) == if limit > 0 && ei - si > limit then rows[si..si + limit] else rows[si..ei]
  {
  }

  /** The binary searches' positions bound the rows that overlap. */
  lemma RangeOf(queue: seq<Row>, si: nat, ei: nat, start: int, end: int)
    requires Chain(queue) && start < end && si <= |queue| && ei <= |queue|
    requires forall i :: 0 <= i < si ==> queue[i].end <= start
    requires forall i :: si <= i < |queue| ==> queue[i].end > start
    requires forall i :: 0 <= i < ei ==> queue[i].start < end
    requires forall i :: ei <= i < |queue| ==> queue[i].start >= end
    ensures si <= ei && Overlap(queue, start, end) == queue[si..ei]
  {
    assert ei < |queue| ==> queue[ei].start <= queue[ei].end && queue[ei].end > start;
    OverlapIsRange(queue, si, ei, start, end);
  }
}
