/** The reader of storage/index-getter.go as an object: each method is one locked section or one channel
    operation of the source and takes the step of IndexGetters that names it. */
module CachedIndexGetters {
  import opened Options
  import opened Sequences
  import opened IndexRows
  import opened IndexGetters

  const DEFAULT_BUFFER: nat := 64
  const DEFAULT_CACHE: nat := 4096
  const MIN_CACHE: nat := 64

  function BufferSize(size: int): nat {
    if size <= 0 then DEFAULT_BUFFER else size
  }

  function CacheSize(size: int, buffer: nat): nat {
    var asked := if size == 0 then DEFAULT_CACHE else size;
    var raised := if asked < MIN_CACHE then MIN_CACHE else asked;
    if raised < buffer then buffer else raised
  }

  /** Without a size, the buffer takes 64 rows and the cache 4096; a cache takes at least 64 rows and a buffer. */
  lemma SizesAre(buffer: int, cache: int)
    ensures BufferSize(buffer) == if buffer > 0 then buffer else 64
    ensures var b := BufferSize(buffer); var n := CacheSize(cache, b);
            && n >= 64 && n >= b && (cache == 0 && b <= 4096 ==> n == 4096)
            && (cache != 0 ==> n == cache || n == 64 || n == b) && (cache >= 64 && cache >= b ==> n == cache)
  {
  }

  class CachedIndexGetter {
    const w: World
    var cache: seq<Row>
    var cur: nat
    var curTime: int
    var eof: bool
    var addable: bool
    var accessible: bool
    var producer: Producer
    var consumer: Consumer
    ghost var popped: nat
    ghost var base: nat
    ghost var delivered: seq<Row>
    ghost var ends: nat

    ghost function Abs(): Getter
      reads this
    {
      Getter(cache, cur, curTime, eof, addable, accessible, producer, consumer, popped, base, delivered, ends)
    }

    ghost predicate Valid()
      reads this
    {
      Proper(w) && Inv(w, Abs())
    }

    constructor (table: seq<Row>, startTime: int, endTime: int, bufferSize: int, cacheSize: int)
      requires Chain(table) && Strict(table)
      ensures Valid() && Abs() == Start(w)
      ensures w == World(table, startTime, endTime, CacheSize(cacheSize, BufferSize(bufferSize)), BufferSize(bufferSize))
    {
      w := World(table, startTime, endTime, CacheSize(cacheSize, BufferSize(bufferSize)), BufferSize(bufferSize));
      cache, cur, curTime, eof := [], 0, startTime, false;
      addable, accessible, producer, consumer := true, false, Selecting, Away;
      popped, base, delivered, ends := 0, 0, [], 0;
      new;
      StartOk(w);
    }

    // ----- the producer

    /** Takes the token that asks for rows. */
    method Take()
      requires Valid() && producer.Selecting? && addable
      modifies this`addable, this`producer
      ensures Valid() && Abs() == Next(w, old(Abs()), Event.Take)
    {
      StepKeeps(w, Abs(), Event.Take);
      hide Inv;
      addable, producer := false, Planning;
    }

    /** Decides, under the lock, where to read and how much; a room below the threshold is left alone. */
    method Plan()
      requires Valid() && producer.Planning?
      modifies this`producer
      ensures Valid() && Abs() == Next(w, old(Abs()), Event.Plan)
    {
      hide Inv;
      CacheBounds(w, Abs());
      StepKeeps(w, Abs(), Event.Plan);
      var last, start, limit := None, curTime, 0;
      if !eof {
        if |cache| > 0 {
          last := Some(cache[|cache| - 1]);
          start := cache[|cache| - 1].end;
        }
        limit := w.cacheCap - |cache|;
      }
      var threshold := w.cacheCap / 2;
      if threshold > w.bufferCap {
        threshold := w.bufferCap;
      }
      if limit < threshold {
        producer := Selecting;
        return;
      }
      if limit > w.bufferCap {
        limit := w.bufferCap;
      }
      producer := Fetching(start, limit, last);
    }

    /** Queries the table, outside of the lock. */
    method Fetch()
      requires Valid() && producer.Fetching?
      modifies this`producer
      ensures Valid() && Abs() == Next(w, old(Abs()), Event.Fetch)
    {
      hide Inv, Query;
      StepKeeps(w, Abs(), Event.Fetch);
      var indexes := First(producer.limit, Query(w, producer.start));
      producer := Pushing(producer.start, producer.limit, producer.last, indexes);
    }

    /** Pushes what was read, unless the cache has moved on; a short answer is the end. */
    method Push()
      requires Valid() && producer.Pushing?
      modifies this`cache, this`eof, this`producer
      ensures Valid() && Abs() == Next(w, old(Abs()), Event.Push)
    {
      hide Inv, Accepted, CheckRow, PushStep, Pushed;
      StepKeeps(w, Abs(), Event.Push);
      PushCases(w, Abs());
      var p := producer;
      var moved := if |cache| > 0 then cache[|cache| - 1].end != p.from else curTime != p.from;
      if moved {
        producer := Selecting;
        return;
      }
      PushChecked(p.tail, p.rows);
      if p.asked > |p.rows| {
        eof := true;
      }
      producer := Announcing;
    }

    /** The rows that pass the order filter go into the cache. */
    method PushChecked(last: Option<Row>, indexes: seq<Row>)
      modifies this`cache
      ensures cache == old(cache) + Accepted(CheckerBehind(last), indexes)
    {
      hide Accepted, CheckRow;
      var checkSeq, checkTime := 0, 0;
      if last.Some? {
        checkSeq := last.value.seqNo;
        checkTime := last.value.end;
      }
      var indexChecker := new IndexChecker(checkTime, 0, checkSeq, 0);
      ghost var start := indexChecker.Abs();
      ghost var before := cache;
      NothingBehind(before);
      AcceptedNone(start);
      var i := 0;
      while i < |indexes|
        invariant 0 <= i <= |indexes| && fresh(indexChecker)
        invariant indexChecker.Abs() == CheckerAfter(start, indexes[..i])
        invariant cache == before + Accepted(start, indexes[..i])
      {
        AcceptedSnoc(start, indexes[..i], indexes[i]);
        assert indexes[..i + 1] == indexes[..i] + [indexes[i]];
        Assoc(before, Accepted(start, indexes[..i]), [indexes[i]]);
        var ok := indexChecker.Check(indexes[i]);
        if ok {
          cache := cache + [indexes[i]];
        }
        i := i + 1;
      }
      assert indexes[..i] == indexes;
    }

    /** Tells the consumer, unless it has been told already. */
    method Announce()
      requires Valid() && producer.Announcing?
      modifies this`accessible, this`producer
      ensures Valid() && Abs() == Next(w, old(Abs()), Event.Announce)
    {
      hide Inv;
      StepKeeps(w, Abs(), Event.Announce);
      accessible, producer := true, Selecting;
    }

    // ----- the consumer

    /** Get begins. */
    method Call()
      requires Valid() && consumer.Away?
      modifies this`consumer
      ensures Valid() && Abs() == Next(w, old(Abs()), Event.Call)
    {
      hide Inv;
      StepKeeps(w, Abs(), Event.Call);
      consumer := Trying;
    }

    /** Takes the token that announces rows, and looks again. */
    method Wake()
      requires Valid() && consumer.Waiting? && accessible
      modifies this`accessible, this`consumer
      ensures Valid() && Abs() == Next(w, old(Abs()), Event.Wake)
    {
      hide Inv;
      StepKeeps(w, Abs(), Event.Wake);
      accessible, consumer := false, Trying;
    }

    /** The locked section of Get: a row, the end, or neither. */
    method Try() returns (index: Option<Row>, ended: bool)
      requires Valid() && consumer.Trying?
      modifies this`cache, this`cur, this`curTime, this`consumer, this`popped, this`delivered, this`ends
      ensures Valid() && Abs() == Next(w, old(Abs()), Event.Try)
      ensures index.Some? <==> old(cur < |cache|)
      ensures index.Some? ==> delivered == old(delivered) + [index.value]
      ensures index.None? ==> delivered == old(delivered) && (ended <==> eof)
    {
      hide Inv, PlanStep, FetchStep, PushStep, SeekStep;
      CacheBounds(w, Abs());
      StepKeeps(w, Abs(), Event.Try);
      if |cache| == cur {
        if eof {
          consumer, ends := Away, ends + 1;
        } else {
          consumer := Waiting;
        }
        return None, eof;
      }
      var row := Deliver();
      return Some(row), false;
    }

    /** Takes the next row, and drops a row of history when there is half a cache of it. */
    method Deliver() returns (row: Row)
      requires cur < |cache|
      modifies this`cache, this`cur, this`curTime, this`consumer, this`popped, this`delivered
      ensures Abs() == TryStep(w, old(Abs())) && delivered == old(delivered) + [row]
    {
      row := cache[cur];
      curTime := row.end;
      if cur < w.cacheCap / 2 {
        cur := cur + 1;
      } else {
        cache := cache[1..];
        popped := popped + 1;
      }
      consumer := Asking;
      delivered := delivered + [row];
    }

    /** Asks the producer for more rows, unless it has been asked already. */
    method Ask()
      requires Valid() && consumer.Asking?
      modifies this`addable, this`consumer
      ensures Valid() && Abs() == Next(w, old(Abs()), Event.Ask)
    {
      hide Inv;
      StepKeeps(w, Abs(), Event.Ask);
      addable, consumer := true, Away;
    }

    /** popCache: history beyond half of the cache goes. */
    method PopCache() returns (any: bool)
      requires cur <= |cache|
      modifies this`cache, this`cur, this`popped
      ensures var most := w.cacheCap / 2; var pops := if old(cur) > most then old(cur) - most else 0;
              && cur == old(cur) - pops && cache == old(cache[pops..]) && popped == old(popped) + pops
              && (any <==> pops > 0)
    {
      var maxHistory := w.cacheCap / 2;
      any := false;
      while cur > maxHistory
        invariant cur <= old(cur) && old(cur) - cur <= |old(cache)|
        invariant cache == old(cache)[old(cur) - cur..] && popped == old(popped) + (old(cur) - cur)
        invariant cur >= maxHistory || cur == old(cur)
        invariant any <==> cur < old(cur)
      {
        any := true;
        cache := cache[1..];
        cur := cur - 1;
        popped := popped + 1;
      }
    }

    /** The cache is emptied, or was empty: the rows to come begin at a time. */
    ghost method StartFrom(n: nat)
      modifies this`popped, this`base, this`delivered, this`ends
      ensures popped == n && base == n && delivered == [] && ends == 0
    {
      popped, base, delivered, ends := n, n, [], 0;
    }

    /** The cursor goes to a place in the cache. */
    method MoveTo(at: nat) returns (any: bool)
      requires consumer.Away? && at <= |cache|
      modifies this`cache, this`cur, this`popped, this`base, this`delivered, this`ends
      ensures Abs() == MoveCursor(w, old(Abs()), curTime, at).(consumer := Away)
      ensures any <==> at > w.cacheCap / 2
    {
      ghost var start := popped + at;
      cur := at;
      any := PopCache();
      base, delivered, ends := start, [], 0;
    }

    /** The locked section of Seek, and what is signalled behind it; in order afterwards exactly if the seek
        loses nothing. */
    method Seek(at: int)
      requires Valid() && consumer.Away?
      modifies this`cache, this`cur, this`curTime, this`eof, this`accessible, this`consumer
      modifies this`popped, this`base, this`delivered, this`ends
      ensures Abs() == Next(w, old(Abs()), Event.Seek(at))
      ensures Valid() <==> old(SeekOk(w, Abs(), at))
    {
      hide Inv, Chain, Strict, Ended, Clamp, MoveCursor, Whole, Query, SeekEndStep, SeekOk, SeekStep, InCache, StartAt;
      CacheBounds(w, Abs());
      SeekKeepsIff(w, Abs(), at);
      SeekBranches(w, Abs(), at);
      CachedChain(w, Abs());
      var t := Clamp(w, at);
      if curTime == t {
        return;
      }
      curTime := t;
      if t == w.endTime {
        SeekEnd();
      } else if |cache| > 0 {
        SeekCached();
      } else {
        StartFrom(Ended(Whole(w), t));
      }
    }

    /** The branch of Seek for a time before the end, with rows cached. */
    method SeekCached()
      requires cur <= |cache| && consumer.Away? && cache != [] && Chain(cache) && Strict(cache)
      modifies this`cache, this`cur, this`eof, this`consumer, this`popped, this`base, this`delivered, this`ends
      ensures Abs() == SeekCachedStep(w, old(Abs()), curTime)
    {
      hide Chain, Strict, Ended, MoveCursor, Whole;
      if curTime < cache[0].start || curTime >= cache[|cache| - 1].end {
        cache, cur, eof := [], 0, false;
        StartFrom(Ended(Whole(w), curTime));
        consumer := Asking;
      } else {
        var n := SearchEnded(cache, curTime);
        MovedTo(w, Abs(), curTime, n);
        var any := MoveTo(n);
        if any && !eof {
          consumer := Asking;
        }
      }
    }

    /** The branch of Seek for the end of the interval. */
    method SeekEnd()
      requires cur <= |cache| && consumer.Away? && curTime == w.endTime
      modifies this`cache, this`cur, this`eof, this`accessible, this`popped, this`base, this`delivered, this`ends
      ensures Abs() == SeekEndStep(w, old(Abs()))
    {
      if eof {
        MovedTo(w, Abs(), w.endTime, |cache|);
        var any := MoveTo(|cache|);
        return;
      }
      if |cache| == 0 {
        accessible := true;
      }
      cache, cur, eof := [], 0, true;
      StartFrom(|Whole(w)|);
    }
  }

  /** Binary search for the first row that ends behind a time. */
  method SearchEnded(rows: seq<Row>, t: int) returns (n: nat)
    requires Chain(rows) && Strict(rows)
    ensures n == Ended(rows, t)
  {
    EndsInOrder(rows);
    hide Chain, Strict, Ended;
    var endsBehind := (i: nat) => i < |rows| && rows[i].end > t;
    n := Search(|rows|, endsBehind);
    forall i | 0 <= i < |rows| ensures i < n <==> rows[i].end <= t {
      assert endsBehind(i) <==> rows[i].end > t;
    }
    CountIs(rows, t, n);
  }

  lemma EndsInOrder(rows: seq<Row>)
    requires Chain(rows)
    ensures forall i, j :: 0 <= i < j < |rows| ==> rows[i].end <= rows[j].end
  {
  }

  lemma CacheBounds(w: World, g: Getter)
    requires Inv(w, g)
    ensures g.cur <= |g.cache| <= w.cacheCap && g.cur <= w.cacheCap / 2
  {
  }

  lemma AcceptedNone(c: Checker)
    ensures Accepted(c, []) == []
  {
  }

  /** All rows that pass fit into the cache. */
  lemma PushCases(w: World, g: Getter)
    requires Proper(w) && Inv(w, g) && g.producer.Pushing?
    ensures var p := g.producer;
            PushStep(w, g) ==
            if NextStart(g) != p.from then g.(producer := Selecting)
            else g.(cache := g.cache + Accepted(CheckerBehind(p.tail), p.rows), eof := g.eof || p.asked > |p.rows|,
                    producer := Announcing)
  {
    hide Accepted, Query, DeliveredIs, Awake, CacheIs, PositionOk, Whole;
    if NextStart(g) == g.producer.from {
      PushIs(w, g);
    }
  }

  /** The branches of Seek, each after the current time is set. */
  lemma SeekBranches(w: World, g: Getter, at: int)
    ensures var t := Clamp(w, at); var g1 := g.(curTime := t);
            SeekStep(w, g, at)
            == if g.curTime == t then g
               else if t == w.endTime then SeekEndStep(w, g1)
               else if g.cache != [] then SeekCachedStep(w, g1, t)
               else g1.(cur := 0, popped := Ended(Whole(w), t), base := Ended(Whole(w), t), delivered := [], ends := 0)
  {
    hide Ended, Whole, Clamp, MoveCursor, InCache;
    MoveAgain(w, g, Clamp(w, at));
    InCacheAgain(g, Clamp(w, at));
  }

  lemma MoveAgain(w: World, g: Getter, t: int)
    ensures forall u: int, n: nat | n <= |g.cache| :: MoveCursor(w, g.(curTime := t), u, n) == MoveCursor(w, g, u, n)
  {
  }

  lemma InCacheAgain(g: Getter, t: int)
    ensures InCache(g.(curTime := t), t) == InCache(g, t)
  {
  }

  lemma MovedTo(w: World, g: Getter, t: int, at: nat)
    requires at <= |g.cache| && g.consumer.Away?
    ensures MoveCursor(w, g, t, at)
            == MoveCursor(w, g.(curTime := t), t, at).(consumer := if at > w.cacheCap / 2 && !g.eof then Asking else Away)
  {
  }
}
