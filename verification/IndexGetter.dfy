/** The prefetching reader of storage/index-getter.go: a producer fills a cache from the index table, a
    consumer takes rows from it, and two one-slot channels wake them. */
module IndexGetters {
  import opened Options
  import opened IndexRows

  /** The reader's parameters over a fixed table: the interval asked for, and the capacities of the cache
      and of the buffer that one query fills. */
  datatype World = World(table: seq<Row>, startTime: int, endTime: int, cacheCap: nat, bufferCap: nat)

  ghost predicate Proper(w: World) {
    Chain(w.table) && Strict(w.table) && w.cacheCap >= 64 && 1 <= w.bufferCap <= w.cacheCap
  }

  /** A query of the table. */
  function Query(w: World, start: int): seq<Row> {
    if start < w.endTime then Overlap(w.table, start, w.endTime) else []
  }

  /** The whole-range query. */
  function Whole(w: World): seq<Row> {
    Query(w, w.startTime)
  }

  datatype Producer =
    | Selecting
    | Planning
    | Fetching(start: int, limit: nat, last: Option<Row>)
    | Pushing(from: int, asked: nat, tail: Option<Row>, rows: seq<Row>)
    | Announcing

  /** Outside of Get, at its lock, about to ask for more rows, or waiting for some. */
  datatype Consumer = Away | Trying | Asking | Waiting

  datatype Getter = Getter(cache: seq<Row>, cur: nat, curTime: int, eof: bool, addable: bool, accessible: bool,
                           producer: Producer, consumer: Consumer,
                           popped: nat, base: nat, delivered: seq<Row>, ends: nat)

  datatype Event = Take | Plan | Fetch | Push | Announce | Call | Try | Ask | Wake | Seek(t: int)

  function Start(w: World): Getter {
    Getter([], 0, w.startTime, false, true, false, Selecting, Away, 0, 0, [], 0)
  }

  // ----- the producer's steps

  function Threshold(w: World): nat {
    if w.cacheCap / 2 > w.bufferCap then w.bufferCap else w.cacheCap / 2
  }

  function TailOf(g: Getter): Option<Row> {
    if g.cache == [] then None else Some(g.cache[|g.cache| - 1])
  }

  function NextStart(g: Getter): int {
    if g.cache == [] then g.curTime else g.cache[|g.cache| - 1].end
  }

  function PlanStep(w: World, g: Getter): Getter {
    var room := if g.eof || |g.cache| > w.cacheCap then 0 else w.cacheCap - |g.cache|;
    if room < Threshold(w) then g.(producer := Selecting)
    else g.(producer := Fetching(NextStart(g), if room > w.bufferCap then w.bufferCap else room, TailOf(g)))
  }

  function FetchStep(w: World, g: Getter): Getter
    requires g.producer.Fetching?
  {
    var p := g.producer;
    g.(producer := Pushing(p.start, p.limit, p.last, First(p.limit, Query(w, p.start))))
  }

  function CheckerBehind(last: Option<Row>): Checker {
    if last.Some? then NewChecker(last.value.end, 0, last.value.seqNo, 0) else NewChecker(0, 0, 0, 0)
  }

  /** Rows go into the cache until it is full. */
  function Pushed(cache: seq<Row>, cap: nat, rows: seq<Row>): seq<Row> {
    cache + if |cache| + |rows| <= cap then rows else if |cache| <= cap then rows[..cap - |cache|] else []
  }

  function PushStep(w: World, g: Getter): Getter
    requires g.producer.Pushing?
  {
    var p := g.producer;
    if NextStart(g) != p.from then g.(producer := Selecting)
    else g.(cache := Pushed(g.cache, w.cacheCap, Accepted(CheckerBehind(p.tail), p.rows)),
            eof := g.eof || p.asked > |p.rows|, producer := Announcing)
  }

  // ----- the consumer's steps

  function TryStep(w: World, g: Getter): Getter {
    if |g.cache| <= g.cur then
      (if g.eof then g.(consumer := Away, ends := g.ends + 1) else g.(consumer := Waiting))
    else
      var row := g.cache[g.cur];
      var g1 := g.(curTime := row.end, delivered := g.delivered + [row], consumer := Asking);
      if g.cur < w.cacheCap / 2 then g1.(cur := g.cur + 1) else g1.(cache := g.cache[1..], popped := g.popped + 1)
  }

  function Clamp(w: World, t: int): int {
    if t < w.startTime then w.startTime else if t > w.endTime then w.endTime else t
  }

  /** The test of Seek for a time within the cache. */
  predicate InCache(g: Getter, t: int) {
    g.cache != [] && g.cache[0].start <= t < g.cache[|g.cache| - 1].end
  }

  /** How many cached rows end by a time. */
  function Ended(rows: seq<Row>, t: int): (n: nat)
    ensures n <= |rows|
  {
    if rows == [] || rows[0].end > t then 0 else 1 + Ended(rows[1..], t)
  }

  /** The cursor goes to a place in the cache, and history beyond half of the cache goes. */
  function MoveCursor(w: World, g: Getter, t: int, cur: nat): Getter
    requires cur <= |g.cache|
  {
    var pops := if cur > w.cacheCap / 2 then cur - w.cacheCap / 2 else 0;
    g.(curTime := t, cur := cur - pops, cache := g.cache[pops..], popped := g.popped + pops,
       base := g.popped + cur, delivered := [], ends := 0,
       consumer := if pops > 0 && !g.eof then Asking else Away)
  }

  /** The cache is empty, and the rows to come begin at a time. */
  function StartAt(g: Getter, t: int, n: nat): Getter {
    g.(curTime := t, cur := 0, cache := [], popped := n, base := n, delivered := [], ends := 0)
  }

  function SeekEndStep(w: World, g: Getter): Getter {
    if g.eof then MoveCursor(w, g, w.endTime, |g.cache|)
    else
      var g1 := StartAt(g, w.endTime, |Whole(w)|).(eof := true);
      if g.cache == [] then g1.(accessible := true) else g1
  }

  /** Within the cached rows, or elsewhere. */
  function SeekCachedStep(w: World, g: Getter, t: int): Getter {
    if InCache(g, t) then MoveCursor(w, g, t, Ended(g.cache, t))
    else StartAt(g, t, Ended(Whole(w), t)).(eof := false, consumer := Asking)
  }

  /** Seek: to the end of the interval, with nothing cached, or with rows cached. */
  function SeekStep(w: World, g: Getter, at: int): Getter {
    var t := Clamp(w, at);
    if g.curTime == t then g
    else if t == w.endTime then SeekEndStep(w, g)
    else if g.cache == [] then StartAt(g, t, Ended(Whole(w), t))
    else SeekCachedStep(w, g, t)
  }

  predicate Enabled(w: World, g: Getter, e: Event) {
    match e
    case Take => g.producer.Selecting? && g.addable
    case Plan => g.producer.Planning?
    case Fetch => g.producer.Fetching?
    case Push => g.producer.Pushing?
    case Announce => g.producer.Announcing?
    case Call => g.consumer.Away?
    case Try => g.consumer.Trying?
    case Ask => g.consumer.Asking?
    case Wake => g.consumer.Waiting? && g.accessible
    case Seek(_) => g.consumer.Away?
  }

  function Next(w: World, g: Getter, e: Event): Getter
    requires Enabled(w, g, e)
  {
    match e
    case Take => g.(addable := false, producer := Planning)
    case Plan => PlanStep(w, g)
    case Fetch => FetchStep(w, g)
    case Push => PushStep(w, g)
    case Announce => g.(accessible := true, producer := Selecting)
    case Call => g.(consumer := Trying)
    case Try => TryStep(w, g)
    case Ask => g.(addable := true, consumer := Away)
    case Wake => g.(accessible := false, consumer := Trying)
    case Seek(t) => SeekStep(w, g, t)
  }

  // ----- the invariant

  /** The cache is a stretch of the whole-range query, with at most half of it history. */
  ghost predicate CacheIs(w: World, g: Getter) {
    && g.popped + |g.cache| <= |Whole(w)|
    && g.cache == Whole(w)[g.popped..g.popped + |g.cache|]
    && |g.cache| <= w.cacheCap && g.cur <= |g.cache| && g.cur <= w.cacheCap / 2
    && (g.eof ==> g.popped + |g.cache| == |Whole(w)|)
  }

  /** What was delivered since the last seek. */
  ghost predicate DeliveredIs(w: World, g: Getter) {
    && g.base <= g.popped + g.cur <= |Whole(w)|
    && g.delivered == Whole(w)[g.base..g.popped + g.cur]
    && (g.ends > 0 ==> g.eof)
  }

  /** What the order filter starts from ends where the query starts. */
  ghost predicate LastOk(w: World, start: int, last: Option<Row>) {
    last.Some? ==> last.value in Whole(w) && start == last.value.end
  }

  /** A query fits the cache and the buffer, even if a seek has made it useless. */
  ghost predicate ProducerOk(w: World, g: Getter) {
    match g.producer
    case Fetching(start, limit, last) =>
      LastOk(w, start, last) && 1 <= limit <= w.cacheCap - |g.cache| && limit <= w.bufferCap
    case Pushing(start, limit, last, rows) =>
      LastOk(w, start, last) && 1 <= limit <= w.cacheCap - |g.cache| && limit <= w.bufferCap
      && rows == First(limit, Query(w, start))
    case _ => true
  }

  /** A query is about to be made, or one that fits behind the cache is under way. */
  predicate UnderWay(g: Getter) {
    match g.producer
    case Planning => true
    case Fetching(start, _, _) => start == NextStart(g)
    case Pushing(from, _, _, _) => from == NextStart(g)
    case _ => false
  }

  /** Nobody waits for a signal that does not come. */
  ghost predicate Awake(g: Getter) {
    && (|g.cache| == g.cur && !g.eof && !g.consumer.Asking? ==> g.addable || UnderWay(g))
    && (g.consumer.Waiting? && (g.cur < |g.cache| || g.eof) ==> g.accessible || g.producer.Announcing?)
  }

  /** The rows still to be delivered are those of the query from the current time. */
  ghost predicate PositionOk(w: World, g: Getter) {
    g.popped + g.cur <= |Whole(w)| && Query(w, g.curTime) == Whole(w)[g.popped + g.cur..]
  }

  ghost predicate Inv(w: World, g: Getter) {
    CacheIs(w, g) && DeliveredIs(w, g) && PositionOk(w, g) && ProducerOk(w, g) && Awake(g)
  }

  // ----- what a query behind the cache gives

  /** In strictly ordered rows, the rows that end by a time come first. */
  lemma EndedIsCount(rows: seq<Row>, t: int)
    requires Chain(rows) && Strict(rows)
    ensures forall i :: 0 <= i < |rows| ==> (i < Ended(rows, t) <==> rows[i].end <= t)
  {
    if rows != [] {
      var rest := rows[1..];
      assert forall i :: 0 <= i < |rest| ==> rest[i] == rows[i + 1];
      if rows[0].end <= t {
        EndedIsCount(rest, t);
        assert forall i :: 1 <= i < |rows| ==> rows[i] == rest[i - 1];
      } else {
        assert forall i :: 1 <= i < |rows| ==> rows[0].end <= rows[i].start < rows[i].end;
      }
    }
  }

  /** How many rows start before a time. */
  function Started(rows: seq<Row>, t: int): (n: nat)
    ensures n <= |rows|
  {
    if rows == [] || rows[0].start >= t then 0 else 1 + Started(rows[1..], t)
  }

  lemma StartedIsCount(rows: seq<Row>, t: int)
    requires Chain(rows) && Strict(rows)
    ensures forall i :: 0 <= i < |rows| ==> (i < Started(rows, t) <==> rows[i].start < t)
  {
    if rows != [] {
      var rest := rows[1..];
      assert forall i :: 0 <= i < |rest| ==> rest[i] == rows[i + 1];
      if rows[0].start < t {
        StartedIsCount(rest, t);
        assert forall i :: 1 <= i < |rows| ==> rows[i] == rest[i - 1];
      } else {
        assert forall i :: 1 <= i < |rows| ==> rows[0].start < rows[0].end <= rows[i].start;
      }
    }
  }

  lemma QueryIsRange(w: World, start: int)
    requires Proper(w) && start < w.endTime
    ensures var si, ei := Ended(w.table, start), Started(w.table, w.endTime);
            si <= ei && Query(w, start) == w.table[si..ei]
  {
    var si, ei := Ended(w.table, start), Started(w.table, w.endTime);
    EndedIsCount(w.table, start);
    StartedIsCount(w.table, w.endTime);
    assert ei < |w.table| ==> w.table[ei].start >= w.endTime && w.table[ei].end > start;
    hide Chain, Strict, Ended, Started, Overlap;
    OverlapIsRange(w.table, si, ei, start, w.endTime);
  }

  lemma CountIs(rows: seq<Row>, t: int, n: nat)
    requires Chain(rows) && Strict(rows) && n <= |rows|
    requires n > 0 ==> rows[n - 1].end <= t
    requires n < |rows| ==> rows[n].end > t
    ensures Ended(rows, t) == n
  {
    EndedIsCount(rows, t);
    var m := Ended(rows, t);
    assert m < |rows| ==> rows[m].end > t;
    assert m > 0 ==> rows[m - 1].end <= t;
  }

  lemma RangeChain(rows: seq<Row>, si: nat, ei: nat)
    requires Chain(rows) && Strict(rows) && si <= ei <= |rows|
    ensures Chain(rows[si..ei]) && Strict(rows[si..ei])
  {
    assert forall i :: 0 <= i < ei - si ==> rows[si..ei][i] == rows[si + i];
  }

  lemma WholeIsRange(w: World) returns (si: nat, ei: nat)
    requires Proper(w)
    ensures si <= ei <= |w.table| && Whole(w) == w.table[si..ei]
    ensures Chain(Whole(w)) && Strict(Whole(w))
    ensures w.startTime < w.endTime ==> si == Ended(w.table, w.startTime) && ei == Started(w.table, w.endTime)
  {
    if w.startTime < w.endTime {
      QueryIsRange(w, w.startTime);
      si, ei := Ended(w.table, w.startTime), Started(w.table, w.endTime);
    } else {
      si, ei := 0, 0;
    }
    RangeChain(w.table, si, ei);
  }

  /** The edge between ended rows and others, found in a stretch, is one of all rows. */
  lemma StretchEdge(rows: seq<Row>, si: nat, ei: nat, n: nat, t: int)
    requires si <= ei <= |rows| && n <= ei - si
    requires n > 0 ==> rows[si..ei][n - 1].end <= t
    requires n < ei - si ==> rows[si..ei][n].end > t
    requires si > 0 ==> rows[si - 1].end <= t
    requires ei < |rows| ==> rows[ei].end > t
    ensures si + n > 0 ==> rows[si + n - 1].end <= t
    ensures si + n < |rows| ==> rows[si + n].end > t
  {
  }

  /** A later start of the interval leaves the rows of the query that end behind it. */
  lemma QueryFrom(w: World, t: int, n: nat)
    requires Proper(w) && w.startTime <= t < w.endTime && n <= |Whole(w)|
    requires n > 0 ==> Whole(w)[n - 1].end <= t
    requires n < |Whole(w)| ==> Whole(w)[n].end > t
    ensures Query(w, t) == Whole(w)[n..]
  {
    hide Overlap, Ended, Started, Chain, Strict, Query;
    var si, ei := WholeIsRange(w);
    QueryIsRange(w, t);
    EndsBefore(w.table, w.startTime, si);
    StartsBehind(w.table, w.endTime, ei);
    StretchEdge(w.table, si, ei, n, t);
    CountIs(w.table, t, si + n);
    StretchTail(w.table, si, ei, n);
  }

  lemma EndsBefore(rows: seq<Row>, t: int, n: nat)
    requires Chain(rows) && Strict(rows) && n == Ended(rows, t)
    ensures n <= |rows| && (n > 0 ==> rows[n - 1].end <= t)
  {
    EndedIsCount(rows, t);
  }

  lemma StartsBehind(rows: seq<Row>, t: int, n: nat)
    requires Chain(rows) && Strict(rows) && n == Started(rows, t)
    ensures n <= |rows| && (n < |rows| ==> t <= rows[n].start < rows[n].end)
  {
    StartedIsCount(rows, t);
  }

  lemma MemberHits(w: World, k: nat)
    requires Proper(w) && k < |Whole(w)|
    ensures w.startTime < w.endTime && Whole(w)[k].start < w.endTime && Whole(w)[k].end > w.startTime
  {
    OverlapMember(w.table, w.startTime, w.endTime, k);
  }

  /** Asked again behind a row of it, the query gives the rows behind that row. */
  lemma QueryBehind(w: World, b: nat)
    requires Proper(w) && 0 < b <= |Whole(w)|
    ensures Query(w, Whole(w)[b - 1].end) == Whole(w)[b..]
  {
    hide Overlap;
    var q := Whole(w);
    var t := q[b - 1].end;
    var si, ei := WholeIsRange(w);
    MemberHits(w, b - 1);
    assert b < |q| ==> q[b].start >= t && q[b].end > q[b].start;
    if b < |q| {
      MemberHits(w, b);
    }
    if t < w.endTime {
      QueryFrom(w, t, b);
    }
  }

  // ----- the steps keep the invariant

  lemma StartOk(w: World)
    requires Proper(w)
    ensures Inv(w, Start(w))
  {
    assert Whole(w)[0..0] == [] && Whole(w)[0..] == Whole(w);
  }

  lemma WholeChain(w: World)
    requires Proper(w)
    ensures Chain(Whole(w)) && Strict(Whole(w))
  {
    var si, ei := WholeIsRange(w);
  }

  /** The producer's next query gives the rows behind the cache. */
  lemma NextQuery(w: World, g: Getter)
    requires Proper(w) && CacheIs(w, g) && PositionOk(w, g)
    ensures Query(w, NextStart(g)) == Whole(w)[g.popped + |g.cache|..]
  {
    hide Query, Proper;
    if g.cache != [] {
      assert g.cache[|g.cache| - 1] == Whole(w)[g.popped + |g.cache| - 1];
      QueryBehind(w, g.popped + |g.cache|);
    }
  }

  lemma FirstStretch(limit: int, q: seq<Row>, b: nat)
    requires b <= |q|
    ensures var n := |First(limit, q[b..])|; b + n <= |q| && First(limit, q[b..]) == q[b..b + n]
  {
  }

  lemma WithinBehind(q: seq<Row>, b: nat, e: nat)
    requires Chain(q) && 0 < b <= e <= |q|
    ensures Within(CheckerBehind(Some(q[b - 1])), q[b..e])
  {
    assert forall i :: 0 <= i < e - b ==> q[b..e][i] == q[b + i];
  }

  /** What a query gives passes the order filter that starts where the query does. */
  lemma QueriedPass(w: World, start: int, last: Option<Row>, limit: nat)
    requires Proper(w) && LastOk(w, start, last)
    ensures var rows := First(limit, Query(w, start)); Accepted(CheckerBehind(last), rows) == rows
  {
    hide Chain, Strict, CheckRow, Proper, First, Within, Whole, Query, Accepted;
    var rows := First(limit, Query(w, start));
    if last.Some? {
      var i :| 0 <= i < |Whole(w)| && Whole(w)[i] == last.value;
      var b := i + 1;
      WholeChain(w);
      QueryBehind(w, b);
      FirstStretch(limit, Whole(w), b);
      RangeChain(Whole(w), b, b + |rows|);
      WithinBehind(Whole(w), b, b + |rows|);
    } else {
      QueryChain(w, start);
      FirstStretch(limit, Query(w, start), 0);
      RangeChain(Query(w, start), 0, |rows|);
      assert Query(w, start)[0..] == Query(w, start);
      AnythingPasses(rows);
    }
    OrderedPass(CheckerBehind(last), rows);
  }

  lemma AnythingPasses(rows: seq<Row>)
    ensures Within(CheckerBehind(None), rows)
  {
  }

  lemma QueryChain(w: World, start: int)
    requires Proper(w)
    ensures Chain(Query(w, start)) && Strict(Query(w, start))
  {
    if start < w.endTime {
      hide Chain, Strict;
      QueryIsRange(w, start);
      RangeChain(w.table, Ended(w.table, start), Started(w.table, w.endTime));
    }
  }

  lemma StretchGrows<T>(q: seq<T>, a: nat, b: nat, n: nat)
    requires a <= b <= b + n <= |q|
    ensures q[a..b] + q[b..][..n] == q[a..b + n]
  {
  }

  /** Pushed rows are the ones that the query gives behind the cached ones, and they fit. */
  lemma PushIs(w: World, g: Getter)
    requires Proper(w) && CacheIs(w, g) && PositionOk(w, g) && ProducerOk(w, g)
    requires g.producer.Pushing? && g.producer.from == NextStart(g)
    ensures var b := g.popped + |g.cache|;
            var rows := First(g.producer.asked, Whole(w)[b..]);
            && rows == g.producer.rows == Accepted(CheckerBehind(g.producer.tail), g.producer.rows)
            && |rows| <= g.producer.asked && rows == Whole(w)[b..][..|rows|] && |g.cache| + |rows| <= w.cacheCap
            && PushStep(w, g) == g.(cache := g.cache + rows, eof := g.eof || g.producer.asked > |rows|, producer := Announcing)
  {
    hide Whole, Query, Accepted, Proper, PositionOk, LastOk;
    NextQuery(w, g);
    QueriedPass(w, g.producer.from, g.producer.tail, g.producer.asked);
  }

  /** A query that no longer fits is dropped. */
  lemma StalePushKeeps(w: World, g: Getter)
    requires Inv(w, g) && g.producer.Pushing? && g.producer.from != NextStart(g)
    ensures Inv(w, PushStep(w, g))
  {
    hide CacheIs, DeliveredIs, PositionOk, Query, Whole, Accepted, LastOk;
    SameCache(w, g, PushStep(w, g));
  }

  lemma PushKeeps(w: World, g: Getter)
    requires Proper(w) && Inv(w, g) && g.producer.Pushing?
    ensures Inv(w, PushStep(w, g))
  {
    hide Proper, PushStep, Inv;
    if g.producer.from == NextStart(g) {
      FreshPushKeeps(w, g);
    } else {
      StalePushKeeps(w, g);
    }
  }

  lemma FreshPushKeeps(w: World, g: Getter)
    requires Proper(w) && Inv(w, g) && g.producer.Pushing? && g.producer.from == NextStart(g)
    ensures Inv(w, PushStep(w, g))
  {
    hide Whole, Query, Accepted, Proper, PushStep, LastOk, First;
    PushIs(w, g);
    var b := g.popped + |g.cache|;
    var rows := First(g.producer.asked, Whole(w)[b..]);
    ShortIsAll(g.producer.asked, Whole(w)[b..]);
    StretchGrows(Whole(w), g.popped, b, |rows|);
  }

  lemma ShortIsAll(n: nat, rows: seq<Row>)
    ensures |First(n, rows)| <= |rows| && (|First(n, rows)| < n ==> First(n, rows) == rows)
  {
  }

  lemma CacheFits(w: World, g: Getter)
    requires CacheIs(w, g)
    ensures |g.cache| <= w.cacheCap && g.cur <= w.cacheCap / 2 && g.cur <= |g.cache|
  {
  }

  lemma TailIsLast(w: World, g: Getter)
    requires CacheIs(w, g)
    ensures LastOk(w, NextStart(g), TailOf(g))
  {
    hide Whole;
    if g.cache != [] {
      var b := g.popped + |g.cache|;
      assert Whole(w)[b - 1] == g.cache[|g.cache| - 1];
    }
  }

  /** With an empty tail there is always room enough for a query. */
  lemma PlanKeeps(w: World, g: Getter)
    requires Proper(w) && Inv(w, g) && g.producer.Planning?
    ensures Inv(w, PlanStep(w, g))
  {
    hide Whole, CacheIs, DeliveredIs, PositionOk, Query, LastOk;
    CacheFits(w, g);
    TailIsLast(w, g);
    SameCache(w, g, PlanStep(w, g));
  }

  lemma FetchKeeps(w: World, g: Getter)
    requires Proper(w) && Inv(w, g) && g.producer.Fetching?
    ensures Inv(w, FetchStep(w, g))
  {
    hide Whole, Query, CacheIs, DeliveredIs, PositionOk, LastOk;
    SameCache(w, g, FetchStep(w, g));
  }

  lemma SameCache(w: World, g: Getter, g1: Getter)
    requires g1.cache == g.cache && g1.popped == g.popped && g1.cur == g.cur && g1.curTime == g.curTime
    requires g1.eof == g.eof && g1.base == g.base && g1.delivered == g.delivered && (g1.ends == g.ends || g.eof)
    ensures CacheIs(w, g1) == CacheIs(w, g) && PositionOk(w, g1) == PositionOk(w, g)
    ensures DeliveredIs(w, g) ==> DeliveredIs(w, g1)
  {
  }

  lemma SignalKeeps(w: World, g: Getter, e: Event)
    requires Proper(w) && Inv(w, g) && Enabled(w, g, e)
    requires e.Take? || e.Announce? || e.Call? || e.Ask? || e.Wake?
    ensures Inv(w, Next(w, g, e))
  {
    hide Whole, CacheIs, DeliveredIs, PositionOk, Query, LastOk;
    SameCache(w, g, Next(w, g, e));
  }

  /** The producer does not notice rows that leave the cache. */
  lemma ProducerFrame(w: World, g: Getter, g1: Getter)
    requires ProducerOk(w, g) && g1.producer == g.producer && |g1.cache| <= |g.cache|
    ensures ProducerOk(w, g1)
  {
    hide Query, LastOk;
  }

  lemma StretchTail<T>(q: seq<T>, a: nat, b: nat, n: nat)
    requires a + n <= b <= |q|
    ensures q[a..b][n..] == q[a + n..b]
  {
  }

  /** A row is delivered: the next one of the query. */
  lemma DeliverIs(w: World, g: Getter)
    requires CacheIs(w, g) && g.cur < |g.cache|
    ensures var p := g.popped + g.cur; var g1 := TryStep(w, g);
            && p < |Whole(w)| && g.cache[g.cur] == Whole(w)[p]
            && g1 == g.(cache := g1.cache, cur := g1.cur, popped := g1.popped, curTime := Whole(w)[p].end,
                        delivered := g.delivered + [Whole(w)[p]], consumer := Asking)
            && g1.popped + g1.cur == p + 1
  {
    hide Whole;
  }

  /** Pops leave a stretch of the query in the cache. */
  lemma PopCache(w: World, g: Getter, g1: Getter, pops: nat)
    requires CacheIs(w, g) && pops <= g1.cur + pops <= |g1.cache| + pops == |g.cache|
    requires g1.cache == g.cache[pops..] && g1.popped == g.popped + pops && g1.cur <= w.cacheCap / 2 && g1.eof == g.eof
    ensures CacheIs(w, g1) && (g1.cache != [] ==> NextStart(g1) == NextStart(g))
  {
    hide Whole;
    StretchTail(Whole(w), g.popped, g.popped + |g.cache|, pops);
  }

  lemma DeliverCache(w: World, g: Getter)
    requires Proper(w) && CacheIs(w, g) && g.cur < |g.cache|
    ensures var g1 := TryStep(w, g); CacheIs(w, g1) && NextStart(g1) == NextStart(g) && |g1.cache| <= |g.cache|
  {
    hide Whole, CacheIs, NextStart;
    CacheFits(w, g);
    PopCache(w, g, TryStep(w, g), if g.cur < w.cacheCap / 2 then 0 else 1);
  }

  lemma DeliverPosition(w: World, g: Getter)
    requires Proper(w) && CacheIs(w, g) && DeliveredIs(w, g) && g.cur < |g.cache|
    ensures PositionOk(w, TryStep(w, g)) && DeliveredIs(w, TryStep(w, g))
  {
    hide Whole, CacheIs, Query, TryStep, Proper;
    DeliverIs(w, g);
    var p := g.popped + g.cur;
    QueryBehind(w, p + 1);
    assert Whole(w)[g.base..p] + [Whole(w)[p]] == Whole(w)[g.base..p + 1];
  }

  lemma DeliverKeeps(w: World, g: Getter)
    requires Proper(w) && Inv(w, g) && g.consumer.Trying? && g.cur < |g.cache|
    ensures Inv(w, TryStep(w, g))
  {
    hide Whole, CacheIs, DeliveredIs, PositionOk, ProducerOk, Query, TryStep, NextStart;
    DeliverIs(w, g);
    DeliverCache(w, g);
    DeliverPosition(w, g);
    ProducerFrame(w, g, TryStep(w, g));
  }

  lemma TryKeeps(w: World, g: Getter)
    requires Proper(w) && Inv(w, g) && g.consumer.Trying?
    ensures Inv(w, TryStep(w, g))
  {
    if g.cur < |g.cache| {
      DeliverKeeps(w, g);
    } else {
      EmptyHandedKeeps(w, g);
    }
  }

  lemma EmptyHandedKeeps(w: World, g: Getter)
    requires Inv(w, g) && g.consumer.Trying? && g.cur >= |g.cache|
    ensures Inv(w, TryStep(w, g))
  {
    hide Whole, CacheIs, DeliveredIs, PositionOk, ProducerOk, Query;
    CacheFits(w, g);
    SameCache(w, g, TryStep(w, g));
    ProducerFrame(w, g, TryStep(w, g));
  }

  // ----- seeking

  lemma EndedEdge(rows: seq<Row>, t: int)
    requires Chain(rows) && Strict(rows)
    ensures var n := Ended(rows, t);
            && (n > 0 ==> rows[n - 1].end <= t) && (n < |rows| ==> rows[n].end > t)
            && (rows != [] && rows[|rows| - 1].end > t ==> n < |rows|)
  {
    EndedIsCount(rows, t);
  }

  lemma Adjacent(q: seq<Row>, a: nat)
    requires Chain(q) && 0 < a < |q|
    ensures q[a - 1].end <= q[a].start
  {
  }

  /** Where a seek goes in the cache, and in the whole query. */
  lemma SeekPosition(q: seq<Row>, a: nat, cache: seq<Row>, t: int)
    requires Chain(q) && Strict(q) && a + |cache| <= |q| && cache == q[a..a + |cache|] && cache != []
    requires cache[0].start <= t < cache[|cache| - 1].end
    ensures var n := Ended(cache, t);
            && n < |cache|
            && (a + n > 0 ==> q[a + n - 1].end <= t) && q[a + n].end > t
  {
    hide Chain, Strict, Ended;
    RangeChain(q, a, a + |cache|);
    EndedEdge(cache, t);
    if a > 0 {
      Adjacent(q, a);
    }
  }

  /** A time that is not the end lies before it, unless the interval is empty. */
  lemma ClampIn(w: World, at: int)
    requires Clamp(w, at) != w.endTime
    ensures w.startTime <= Clamp(w, at) && (Clamp(w, at) < w.endTime || w.startTime > w.endTime)
  {
  }

  /** The rows that end behind a time are what the query from that time gives. */
  lemma QueryFromTime(w: World, at: int)
    requires Proper(w) && Clamp(w, at) != w.endTime
    ensures var t := Clamp(w, at); var n := Ended(Whole(w), t); Query(w, t) == Whole(w)[n..]
  {
    hide Overlap, Chain, Strict;
    ClampIn(w, at);
    var t := Clamp(w, at);
    if t < w.endTime {
      hide Query, Ended;
      WholeChain(w);
      EndedEdge(Whole(w), t);
      QueryFrom(w, t, Ended(Whole(w), t));
    }
  }

  /** When a seek loses nothing: unless the cache is empty, always; with an empty cache, if the end was
      reached, only if the query from the new time is empty too, and otherwise only if the producer has
      been asked or is at a query from the new time. */
  predicate SeekOk(w: World, g: Getter, at: int) {
    var t := Clamp(w, at);
    g.curTime == t || t == w.endTime || g.cache != []
    || if g.eof then Query(w, t) == [] else g.addable || UnderWay(StartAt(g, t, 0))
  }

  lemma MoveKeeps(w: World, g: Getter, t: int, cur: nat)
    requires Proper(w) && Inv(w, g) && g.consumer.Away? && cur <= |g.cache| && Query(w, t) == Whole(w)[g.popped + cur..]
    requires cur < |g.cache| || (g.eof && Query(w, t) == [])
    ensures Inv(w, MoveCursor(w, g, t, cur))
  {
    hide Whole, CacheIs, ProducerOk, Query, NextStart, Proper;
    CacheFits(w, g);
    var g1 := MoveCursor(w, g, t, cur);
    MovedPosition(w, g, t, cur);
    PopCache(w, g, g1, cur - g1.cur);
    ProducerFrame(w, g, g1);
  }

  lemma MovedPosition(w: World, g: Getter, t: int, cur: nat)
    requires cur <= |g.cache| && CacheIs(w, g) && Query(w, t) == Whole(w)[g.popped + cur..]
    ensures var g1 := MoveCursor(w, g, t, cur);
            && PositionOk(w, g1) && DeliveredIs(w, g1) && cur - g1.cur >= 0 && |g1.cache| == |g.cache| - (cur - g1.cur)
            && g1.cur <= w.cacheCap / 2 && g1.cur <= |g1.cache|
  {
    hide Whole, Query;
    assert g.popped + cur <= |Whole(w)|;
    assert Whole(w)[g.popped + cur..g.popped + cur] == [];
  }

  /** With the cache emptied, the invariant is about the end and the signals. */
  lemma StartAtIs(w: World, g: Getter, t: int, n: nat)
    requires Proper(w) && Inv(w, g) && n <= |Whole(w)| && Query(w, t) == Whole(w)[n..]
    ensures var g1 := StartAt(g, t, n);
            forall g2: Getter | g2 == g1.(eof := g2.eof, addable := g2.addable, accessible := g2.accessible, consumer := g2.consumer) ::
              Inv(w, g2) <==> (g2.eof ==> Query(w, t) == []) && Awake(g2)
  {
    hide Whole, Query, Awake, LastOk;
    assert Whole(w)[n..n] == [];
  }

  lemma SeekEndKeeps(w: World, g: Getter)
    requires Proper(w) && Inv(w, g) && g.consumer.Away?
    ensures Inv(w, SeekEndStep(w, g))
  {
    hide Proper, Whole;
    assert Query(w, w.endTime) == [];
    if g.eof {
      hide Inv, MoveCursor;
      CacheEnds(w, g);
      MoveKeeps(w, g, w.endTime, |g.cache|);
    } else {
      hide Inv;
      StartAtIs(w, g, w.endTime, |Whole(w)|);
    }
  }

  lemma CacheEnds(w: World, g: Getter)
    requires CacheIs(w, g) && g.eof
    ensures Whole(w)[g.popped + |g.cache|..] == []
  {
  }

  lemma SeekCacheKeeps(w: World, g: Getter, at: int)
    requires Proper(w) && Inv(w, g) && g.consumer.Away? && Clamp(w, at) != w.endTime && InCache(g, Clamp(w, at))
    ensures Inv(w, MoveCursor(w, g, Clamp(w, at), Ended(g.cache, Clamp(w, at))))
  {
    hide Whole, Chain, Strict, Ended, Proper, MoveCursor, Query, Clamp, DeliveredIs, PositionOk, ProducerOk, Awake;
    var t := Clamp(w, at);
    WholeChain(w);
    SeekPosition(Whole(w), g.popped, g.cache, t);
    var p := g.popped + Ended(g.cache, t);
    WholeCount(w, t, p);
    QueryFromTime(w, at);
    MoveKeeps(w, g, t, Ended(g.cache, t));
  }

  lemma WholeCount(w: World, t: int, n: nat)
    requires Proper(w) && n <= |Whole(w)|
    requires n > 0 ==> Whole(w)[n - 1].end <= t
    requires n < |Whole(w)| ==> Whole(w)[n].end > t
    ensures Ended(Whole(w), t) == n
  {
    hide Whole;
    WholeChain(w);
    CountIs(Whole(w), t, n);
  }

  /** A seek leaves the reader in order exactly under that condition. */
  lemma SeekKeepsIff(w: World, g: Getter, at: int)
    requires Proper(w) && Inv(w, g) && g.consumer.Away?
    ensures Inv(w, SeekStep(w, g, at)) <==> SeekOk(w, g, at)
  {
    hide Proper, Inv, Whole, Query, MoveCursor, SeekEndStep, Ended, Clamp;
    var t := Clamp(w, at);
    if g.curTime == t {
    } else if t == w.endTime {
      SeekEndKeeps(w, g);
    } else if g.cache != [] && InCache(g, t) {
      SeekCacheKeeps(w, g, at);
    } else {
      QueryFromTime(w, at);
      StartAtIs(w, g, t, Ended(Whole(w), t));
      NothingCached(g, t, Ended(Whole(w), t));
    }
  }

  /** With nothing cached, a waiting Get depends on the producer being asked. */
  lemma NothingCached(g: Getter, t: int, n: nat)
    ensures var g1 := StartAt(g, t, n);
            && (g.consumer.Away? ==> (Awake(g1) <==> (g.eof || g.addable || UnderWay(StartAt(g, t, 0)))))
            && Awake(g1.(eof := false, consumer := Asking))
  {
  }

  // ----- runs

  /** No step but a seek asks for anything. */
  predicate Legal(w: World, g: Getter, e: Event) {
    e.Seek? ==> SeekOk(w, g, e.t)
  }

  lemma StepKeeps(w: World, g: Getter, e: Event)
    requires Proper(w) && Inv(w, g) && Enabled(w, g, e) && Legal(w, g, e)
    ensures Inv(w, Next(w, g, e))
  {
    hide Inv;
    match e
    case Plan => PlanKeeps(w, g);
    case Fetch => FetchKeeps(w, g);
    case Push => PushKeeps(w, g);
    case Try => TryKeeps(w, g);
    case Seek(t) => SeekKeepsIff(w, g, t);
    case Take => SignalKeeps(w, g, e);
    case Announce => SignalKeeps(w, g, e);
    case Call => SignalKeeps(w, g, e);
    case Ask => SignalKeeps(w, g, e);
    case Wake => SignalKeeps(w, g, e);
  }

  predicate CanRun(w: World, g: Getter, events: seq<Event>)
    decreases |events|
  {
    events == [] || (Enabled(w, g, events[0]) && CanRun(w, Next(w, g, events[0]), events[1..]))
  }

  function Run(w: World, g: Getter, events: seq<Event>): Getter
    requires CanRun(w, g, events)
    decreases |events|
  {
    if events == [] then g else Run(w, Next(w, g, events[0]), events[1..])
  }

  /** Every seek of a run loses nothing. */
  predicate LegalRun(w: World, g: Getter, events: seq<Event>)
    requires CanRun(w, g, events)
    decreases |events|
  {
    events == [] || (Legal(w, g, events[0]) && LegalRun(w, Next(w, g, events[0]), events[1..]))
  }

  lemma {:induction false} RunKeeps(w: World, g: Getter, events: seq<Event>)
    requires Proper(w) && Inv(w, g) && CanRun(w, g, events) && LegalRun(w, g, events)
    ensures Inv(w, Run(w, g, events))
    decreases |events|
  {
    hide Inv, Next, Enabled, Legal;
    if events != [] {
      StepKeeps(w, g, events[0]);
      RunKeeps(w, Next(w, g, events[0]), events[1..]);
    }
  }

  ghost predicate SeekFree(events: seq<Event>) {
    forall i :: 0 <= i < |events| ==> !events[i].Seek?
  }

  lemma {:induction false} SeekFreeRun(w: World, g: Getter, events: seq<Event>)
    requires CanRun(w, g, events) && SeekFree(events)
    ensures Run(w, g, events).base == g.base && LegalRun(w, g, events)
    decreases |events|
  {
    hide Enabled, Query, Accepted, SeekOk;
    if events != [] {
      assert forall i :: 0 <= i < |events[1..]| ==> events[1..][i] == events[i + 1];
      SeekFreeRun(w, Next(w, g, events[0]), events[1..]);
    }
  }

  /** What Get delivers from a position on is the query from its time. */
  lemma DeliveredOfRest(w: World, g: Getter, q: seq<Row>)
    requires CacheIs(w, g) && DeliveredIs(w, g) && q == Whole(w)[g.base..]
    ensures g.delivered <= q && (g.eof && g.cur == |g.cache| ==> g.delivered == q)
  {
    hide Whole;
    var p := g.popped + g.cur;
    assert Whole(w)[g.base..p] == Whole(w)[g.base..][..p - g.base];
  }

  /** In every interleaving behind a seek that loses nothing, and up to the next one, Get delivers the
      rows of the query from the seek's time, each once and in order, and the end only behind the last. */
  lemma GetsAfterSeek(w: World, g: Getter, at: int, events: seq<Event>)
    requires Proper(w) && Inv(w, g) && g.consumer.Away? && g.curTime != Clamp(w, at) && SeekOk(w, g, at)
    requires CanRun(w, SeekStep(w, g, at), events) && SeekFree(events)
    ensures var g1 := Run(w, SeekStep(w, g, at), events); var q := Query(w, Clamp(w, at));
            && g1.delivered <= q && (g1.ends > 0 ==> g1.eof)
            && (g1.eof && g1.cur == |g1.cache| ==> g1.delivered == q)
            && g1.cur <= |g1.cache| <= w.cacheCap && g1.cur <= w.cacheCap / 2
  {
    hide Whole, Run, CanRun, Query, ProducerOk, Awake, SeekStep, SeekOk, Clamp, LegalRun;
    var g0 := SeekStep(w, g, at);
    SeekKeepsIff(w, g, at);
    SeekBegins(w, g, at);
    SeekFreeRun(w, g0, events);
    RunKeeps(w, g0, events);
    DeliveredOfRest(w, Run(w, g0, events), Query(w, Clamp(w, at)));
  }

  lemma SeekBegins(w: World, g: Getter, at: int)
    requires g.curTime != Clamp(w, at) && g.cur <= |g.cache|
    ensures var g1 := SeekStep(w, g, at); g1.curTime == Clamp(w, at) && g1.base == g1.popped + g1.cur
  {
  }

  lemma DeliveredFromStart(w: World, g: Getter)
    requires CacheIs(w, g) && DeliveredIs(w, g) && g.base == 0
    ensures |g.delivered| == g.popped + g.cur <= |Whole(w)| && g.delivered == Whole(w)[..g.popped + g.cur]
    ensures g.cur <= |g.cache| && g.cache[..g.cur] == g.delivered[g.popped..]
  {
    hide Whole;
    assert Whole(w)[0..g.popped + g.cur] == Whole(w)[..g.popped + g.cur];
    assert g.cache[..g.cur] == Whole(w)[g.popped..g.popped + g.cur];
  }

  /** In every interleaving without seeks, Get delivers the rows of the whole-range query, each once and
      in order, and reports the end only behind the last one; the cache never overflows, and at most
      half of it is history. */
  lemma GetsAreTheQuery(w: World, events: seq<Event>)
    requires Proper(w) && CanRun(w, Start(w), events) && SeekFree(events)
    ensures var g := Run(w, Start(w), events);
            && g.delivered <= Whole(w) && (g.ends > 0 ==> g.eof)
            && (g.eof && g.cur == |g.cache| ==> g.delivered == Whole(w))
            && g.cur <= |g.cache| <= w.cacheCap && g.cur <= w.cacheCap / 2
            && g.popped + g.cur == |g.delivered|
            && g.cache[..g.cur] == g.delivered[g.popped..]
  {
    hide Whole, Run, CanRun, LegalRun, Query, ProducerOk, PositionOk, Awake;
    StartOk(w);
    SeekFreeRun(w, Start(w), events);
    RunKeeps(w, Start(w), events);
    DeliveredFromStart(w, Run(w, Start(w), events));
  }

  /** No query asks for more rows than the buffer holds or the cache has room for. */
  lemma QueriesFit(w: World, events: seq<Event>)
    requires Proper(w) && CanRun(w, Start(w), events) && LegalRun(w, Start(w), events)
    ensures var g := Run(w, Start(w), events);
            match g.producer
            case Fetching(_, limit, _) => 1 <= limit <= w.bufferCap && |g.cache| + limit <= w.cacheCap
            case Pushing(_, limit, _, rows) => |rows| <= limit && |g.cache| + |rows| <= w.cacheCap
            case _ => true
  {
    hide Run, CanRun, LegalRun, Query, CacheIs, DeliveredIs, PositionOk, Awake;
    StartOk(w);
    RunKeeps(w, Start(w), events);
  }

  /** The step in which Get reports the end: everything has been delivered. */
  lemma EndIsEnd(w: World, events: seq<Event>)
    requires Proper(w) && CanRun(w, Start(w), events) && SeekFree(events)
    requires Run(w, Start(w), events).consumer.Trying?
    ensures var g := Run(w, Start(w), events);
            TryStep(w, g).ends == g.ends + 1 <==> g.eof && g.delivered == Whole(w)
  {
    hide Whole, Run, CanRun, LegalRun, Query, ProducerOk, PositionOk, Awake;
    StartOk(w);
    SeekFreeRun(w, Start(w), events);
    RunKeeps(w, Start(w), events);
    DeliveredFromStart(w, Run(w, Start(w), events));
  }

  // ----- how much is read, and how much is kept

  /** A query follows a request exactly if the end was not reached and the cache has room for half of itself or for a
      buffer, whichever is less. It starts where the cached rows end, or at the current time, and asks for as many rows
      as there is room for, at most a buffer of them. */
  lemma PlanIs(w: World, g: Getter)
    requires Proper(w) && |g.cache| <= w.cacheCap
    ensures var room := w.cacheCap - |g.cache|; var g1 := PlanStep(w, g);
            && g1 == g.(producer := g1.producer)
            && (g1.producer.Fetching? <==> !g.eof && (room >= w.cacheCap / 2 || room >= w.bufferCap))
            && (!g1.producer.Fetching? ==> g1.producer.Selecting?)
            && (g1.producer.Fetching? ==>
                  && g1.producer.limit == (if room <= w.bufferCap then room else w.bufferCap)
                  && (g.cache == [] ==> g1.producer.start == g.curTime && g1.producer.last == None)
                  && (g.cache != [] ==>
                        var r := g.cache[|g.cache| - 1]; g1.producer.start == r.end && g1.producer.last == Some(r)))
  {
  }

  /** As many delivered rows are kept as half of the cache holds. */
  predicate KeepsHistory(w: World, g: Getter) {
    g.cur == (if |g.delivered| <= w.cacheCap / 2 then |g.delivered| else w.cacheCap / 2)
  }

  lemma HistoryStep(w: World, g: Getter, e: Event)
    requires Proper(w) && KeepsHistory(w, g) && Enabled(w, g, e) && !e.Seek?
    ensures KeepsHistory(w, Next(w, g, e))
  {
    hide Accepted, Query;
  }

  lemma {:induction false} HistoryRun(w: World, g: Getter, events: seq<Event>)
    requires Proper(w) && KeepsHistory(w, g) && CanRun(w, g, events) && SeekFree(events)
    ensures KeepsHistory(w, Run(w, g, events))
    decreases |events|
  {
    hide KeepsHistory, Next, Enabled, Proper;
    if events != [] {
      assert forall i :: 0 <= i < |events[1..]| ==> events[1..][i] == events[i + 1];
      HistoryStep(w, g, events[0]);
      HistoryRun(w, Next(w, g, events[0]), events[1..]);
    }
  }

  /** Without seeks, exactly the last delivered rows are kept, up to half of the cache, in front of the others. */
  lemma HistoryIsKept(w: World, events: seq<Event>)
    requires Proper(w) && CanRun(w, Start(w), events) && SeekFree(events)
    ensures var g := Run(w, Start(w), events); var n := |g.delivered|; var kept := if n <= w.cacheCap / 2 then n else w.cacheCap / 2;
            g.cur == kept <= |g.cache| && g.cache[..kept] == g.delivered[n - kept..]
  {
    hide Run, CanRun, Whole, Query;
    HistoryRun(w, Start(w), events);
    GetsAreTheQuery(w, events);
  }

  /** A seek goes to its time, or to the nearer end of the interval. */
  lemma SeekGoesTo(w: World, g: Getter, at: int)
    requires w.startTime <= w.endTime && g.cur <= |g.cache|
    ensures var t := SeekStep(w, g, at).curTime;
            && (w.startTime <= at <= w.endTime ==> t == at)
            && (at < w.startTime ==> t == w.startTime) && (at > w.endTime ==> t == w.endTime)
  {
    SeekTime(w, g, at);
  }

  /** The cache from some row on; the next row is the first that ends behind a time, and what is left in front of it is
      all there was, or half of a cache. */
  predicate KeptBehind(w: World, g: Getter, t: int, g1: Getter) {
    && g1.delivered == [] && g1.eof == g.eof && |g1.cache| <= |g.cache|
    && (forall k :: 0 <= k < |g1.cache| ==> g1.cache[k] == g.cache[|g.cache| - |g1.cache| + k])
    && g1.cur < |g1.cache| && g1.cache[g1.cur].end > t && (g1.cur > 0 ==> g1.cache[g1.cur - 1].end <= t)
    && g1.cur <= w.cacheCap / 2 && (|g1.cache| < |g.cache| ==> g1.cur == w.cacheCap / 2)
  }

  /** With rows cached, a seek to another time before the end keeps the cache exactly if the time lies from its first
      row's start on and before its last row's end: the next row is then the first that ends behind the time, and at
      most half a cache of rows is left in front of it. Otherwise the cache is emptied and read again. */
  lemma SeekKeepsCache(w: World, g: Getter, at: int)
    requires Proper(w) && Inv(w, g) && g.cache != [] && w.startTime <= at < w.endTime && g.curTime != at
    ensures var first, last := g.cache[0], g.cache[|g.cache| - 1]; var g1 := SeekStep(w, g, at);
            && g1.delivered == []
            && (first.start <= at < last.end ==> KeptBehind(w, g, at, g1))
            && (!(first.start <= at < last.end) ==> g1.cache == [] && g1.cur == 0 && !g1.eof && g1.consumer.Asking?)
  {
    hide Whole, Chain, Strict, Inv, SeekStep, Proper;
    if g.cache[0].start <= at < g.cache[|g.cache| - 1].end {
      CachedChain(w, g);
      SeekInside(w, g, at);
    } else {
      SeekBranch(w, g, at);
    }
  }

  lemma SeekInside(w: World, g: Getter, at: int)
    requires Chain(g.cache) && Strict(g.cache) && g.cache != [] && w.startTime <= at < w.endTime && g.curTime != at
    requires InCache(g, at)
    ensures KeptBehind(w, g, at, SeekStep(w, g, at))
  {
    hide Chain, Strict, Ended, MoveCursor, SeekStep, Whole, KeptBehind;
    SeekBranch(w, g, at);
    EndedEdge(g.cache, at);
    CursorMoved(w, g, at, Ended(g.cache, at));
  }

  lemma SeekBranch(w: World, g: Getter, at: int)
    requires g.cache != [] && w.startTime <= at < w.endTime && g.curTime != at
    ensures SeekStep(w, g, at) == if InCache(g, at) then MoveCursor(w, g, at, Ended(g.cache, at))
                                  else StartAt(g, at, Ended(Whole(w), at)).(eof := false, consumer := Asking)
  {
    hide Whole, Ended, MoveCursor, StartAt, InCache;
  }

  lemma CachedChain(w: World, g: Getter)
    requires Proper(w) && Inv(w, g)
    ensures Chain(g.cache) && Strict(g.cache)
  {
    hide Whole, Chain, Strict, DeliveredIs, PositionOk, ProducerOk, Awake;
    WholeChain(w);
    RangeChain(Whole(w), g.popped, g.popped + |g.cache|);
  }

  lemma CursorMoved(w: World, g: Getter, t: int, cur: nat)
    requires cur < |g.cache| && g.cache[cur].end > t && (cur > 0 ==> g.cache[cur - 1].end <= t)
    ensures KeptBehind(w, g, t, MoveCursor(w, g, t, cur))
  {
    var g1 := MoveCursor(w, g, t, cur);
    var pops := |g.cache| - |g1.cache|;
    assert g1.cache == g.cache[pops..] && g1.cur == cur - pops;
    assert g1.cache[g1.cur] == g.cache[cur];
  }

  lemma SeekTime(w: World, g: Getter, at: int)
    ensures SeekStep(w, g, at).curTime == Clamp(w, at)
  {
  }

  /** A query is about the rows of the table that overlap its interval. */
  lemma QueryHas(w: World, start: int, r: Row)
    ensures r in Query(w, start) <==> start < w.endTime && r in w.table && r.end > start && r.start < w.endTime
  {
    OverlapHas(w.table, start, w.endTime, r);
  }

  // ----- no lost wake-up

  /** Get is under way and has nothing yet. */
  predicate Pending(g: Getter) {
    g.consumer.Trying? || g.consumer.Waiting?
  }

  /** Bounds the steps until Get returns. */
  function Rank(g: Getter): nat {
    (if g.addable then 12 else 0) + (if g.accessible then 3 else 0) + (if g.consumer.Trying? then 1 else 0)
    + match g.producer
      case Selecting => 0
      case Planning => 8
      case Fetching(_, _, _) => 7
      case Pushing(_, _, _, _) => 6
      case Announcing => 5
  }

  /** While Get is under way some step is possible, and it is one that leads on. */
  lemma GetIsNeverStuck(w: World, g: Getter)
    requires Proper(w) && Inv(w, g) && Pending(g)
    ensures Rank(g) > 0 && exists e :: Enabled(w, g, e)
  {
    hide CacheIs, DeliveredIs, PositionOk, ProducerOk;
    CacheFits(w, g);
    var e := if g.consumer.Trying? then Try
             else if g.accessible then Wake
             else match g.producer
                  case Selecting => Take
                  case Planning => Plan
                  case Fetching(_, _, _) => Fetch
                  case Pushing(_, _, _, _) => Push
                  case Announcing => Announce;
    assert Enabled(w, g, e);
  }

  lemma StepLeadsOn(w: World, g: Getter, e: Event)
    requires Pending(g) && Enabled(w, g, e) && Pending(Next(w, g, e))
    ensures Rank(Next(w, g, e)) < Rank(g)
  {
    hide Accepted, Query;
  }

  /** Get is under way before every step of a run and after it. */
  predicate StaysPending(w: World, g: Getter, events: seq<Event>)
    requires CanRun(w, g, events)
    decreases |events|
  {
    Pending(g) && (events == [] || StaysPending(w, Next(w, g, events[0]), events[1..]))
  }

  lemma {:induction false} PendingSteps(w: World, g: Getter, events: seq<Event>)
    requires CanRun(w, g, events) && StaysPending(w, g, events)
    ensures |events| <= Rank(g)
    decreases |events|
  {
    hide Next, Enabled, Pending, Rank;
    if events != [] {
      PendingAt(w, g, events);
      StepLeadsOn(w, g, events[0]);
      PendingSteps(w, Next(w, g, events[0]), events[1..]);
    }
  }

  lemma PendingAt(w: World, g: Getter, events: seq<Event>)
    requires CanRun(w, g, events) && StaysPending(w, g, events) && events != []
    ensures Pending(g) && Pending(Next(w, g, events[0]))
  {
    hide Next, Enabled, Pending;
    assert StaysPending(w, Next(w, g, events[0]), events[1..]);
  }

  /** No wake-up is lost: from every reachable state a Get that waits returns within 24 steps of the two
      sides, whichever they are, and until then a step is always possible. */
  lemma GetReturns(w: World, history: seq<Event>, events: seq<Event>)
    requires Proper(w) && CanRun(w, Start(w), history) && LegalRun(w, Start(w), history)
    requires CanRun(w, Run(w, Start(w), history), events) && StaysPending(w, Run(w, Start(w), history), events)
    ensures |events| <= 24
    ensures exists e :: Enabled(w, Run(w, Run(w, Start(w), history), events), e)
  {
    hide Next, Enabled, Inv;
    StartOk(w);
    var g := Run(w, Start(w), history);
    RunKeeps(w, Start(w), history);
    PendingSteps(w, g, events);
    PendingIsLegal(w, g, events);
    RunKeeps(w, g, events);
    PendingAfter(w, g, events);
    GetIsNeverStuck(w, Run(w, g, events));
  }

  lemma {:induction false} PendingAfter(w: World, g: Getter, events: seq<Event>)
    requires CanRun(w, g, events) && StaysPending(w, g, events)
    ensures Pending(Run(w, g, events))
    decreases |events|
  {
    hide Next, Enabled, Pending;
    if events != [] {
      PendingAfter(w, Next(w, g, events[0]), events[1..]);
    }
  }

  /** There is no seek while Get is under way. */
  lemma {:induction false} PendingIsLegal(w: World, g: Getter, events: seq<Event>)
    requires CanRun(w, g, events) && StaysPending(w, g, events)
    ensures LegalRun(w, g, events)
    decreases |events|
  {
    hide Next, SeekOk;
    if events != [] {
      PendingIsLegal(w, Next(w, g, events[0]), events[1..]);
    }
  }

  // ----- seeks that lose something

  lemma RunCons(w: World, g: Getter, e: Event, later: seq<Event>)
    requires Enabled(w, g, e) && CanRun(w, Next(w, g, e), later)
    ensures CanRun(w, g, [e] + later) && Run(w, g, [e] + later) == Run(w, Next(w, g, e), later)
  {
    hide Enabled, Next;
    assert ([e] + later)[1..] == later;
  }

  /** A seek that is not ok behind the end: in the very next Get, though the query from the new time has rows,
      the end. */
  lemma FalseEnd(w: World, g: Getter, at: int)
    requires Proper(w) && Inv(w, g) && g.consumer.Away? && !SeekOk(w, g, at) && g.eof
    ensures var g1 := SeekStep(w, g, at); var events := [Call] + ([Try] + []);
            && Query(w, Clamp(w, at)) != [] && CanRun(w, g1, events)
            && Run(w, g1, events).ends == 1 && Run(w, g1, events).delivered == []
  {
    hide Inv, Query, Ended, Whole, Run, CanRun, Clamp;
    var g1 := SeekStep(w, g, at);
    var g2 := Next(w, g1, Call);
    NoSteps(w, Next(w, g2, Try));
    RunCons(w, g2, Try, []);
    RunCons(w, g1, Call, [Try] + []);
  }

  /** Nothing is cached, nobody has been asked for rows, and what is under way will be dropped. */
  predicate Deaf(g: Getter) {
    && g.cache == [] && g.cur == 0 && !g.eof && !g.addable && !UnderWay(g) && !g.consumer.Asking?
    && g.delivered == [] && g.ends == 0
  }

  lemma DeafStep(w: World, g: Getter, e: Event)
    requires Deaf(g) && Enabled(w, g, e) && !e.Seek?
    ensures Deaf(Next(w, g, e)) && (Pending(g) || e.Call? ==> Pending(Next(w, g, e)))
  {
    hide Accepted, Query;
  }

  lemma {:induction false} DeafRun(w: World, g: Getter, events: seq<Event>)
    requires Deaf(g) && CanRun(w, g, events) && SeekFree(events)
    ensures Deaf(Run(w, g, events)) && (Pending(g) || Call in events ==> Pending(Run(w, g, events)))
    decreases |events|
  {
    hide Deaf, Next, Enabled, Pending;
    if events != [] {
      assert forall i :: 0 <= i < |events[1..]| ==> events[1..][i] == events[i + 1];
      assert Call in events ==> events[0] == Call || Call in events[1..];
      DeafStep(w, g, events[0]);
      DeafRun(w, Next(w, g, events[0]), events[1..]);
    }
  }

  /** A seek that is not ok before the end: whatever the two sides do from then on, up to the next seek, no Get
      returns. */
  lemma WaitsForEver(w: World, g: Getter, at: int, events: seq<Event>)
    requires Proper(w) && Inv(w, g) && g.consumer.Away? && !SeekOk(w, g, at) && !g.eof
    requires CanRun(w, SeekStep(w, g, at), events) && SeekFree(events)
    ensures var g1 := Run(w, SeekStep(w, g, at), events);
            g1.delivered == [] && g1.ends == 0 && (Call in events ==> Pending(g1))
  {
    hide Query, Ended, Whole, Run, CanRun, Clamp, ProducerOk, PositionOk, DeliveredIs;
    assert Deaf(SeekStep(w, g, at));
    DeafRun(w, SeekStep(w, g, at), events);
  }

  /** Seeking back from the end before anything was read: the next Get reports the end, although the query
      from the new time has rows. */
  lemma SeekBackIsLost(w: World, t: int)
    requires Proper(w) && w.startTime < t < w.endTime && Query(w, t) != []
    ensures var events := [Seek(w.endTime)] + ([Seek(t)] + ([Call] + ([Try] + [])));
            && CanRun(w, Start(w), events) && Run(w, Start(w), events).ends == 1
    ensures !SeekOk(w, Next(w, Start(w), Seek(w.endTime)), t)
  {
    hide Query, Ended, Whole, Run, CanRun;
    var g1 := Next(w, Start(w), Seek(w.endTime));
    var g2 := Next(w, g1, Seek(t));
    var g3 := Next(w, g2, Call);
    var g4 := Next(w, g3, Try);
    assert g2.eof && g2.cache == [] && g2.cur == 0 && g2.ends == 0 && g2.consumer.Away?;
    NoSteps(w, g4);
    RunCons(w, g3, Try, []);
    RunCons(w, g2, Call, [Try] + []);
    RunCons(w, g1, Seek(t), [Call] + ([Try] + []));
    RunCons(w, Start(w), Seek(w.endTime), [Seek(t)] + ([Call] + ([Try] + [])));
  }

  lemma NoSteps(w: World, g: Getter)
    ensures CanRun(w, g, []) && Run(w, g, []) == g
  {
  }

  /** Seeking while the first query is under way: its answer is dropped, nobody asks for another, and the
      next Get waits for ever. */
  lemma SeekMeanwhileIsLost(w: World, t: int)
    requires Proper(w) && w.startTime < t < w.endTime
    ensures var events := [Take] + ([Event.Plan] + ([Seek(t)] + ([Event.Fetch] + ([Event.Push] + ([Call] + ([Try] + []))))));
            && CanRun(w, Start(w), events)
            && var g := Run(w, Start(w), events); g.consumer.Waiting? && forall e :: !Enabled(w, g, e)
    ensures !SeekOk(w, Next(w, Next(w, Start(w), Take), Event.Plan), t)
  {
    hide Query, Ended, Whole, Run, CanRun, Accepted;
    var g1 := Next(w, Start(w), Take);
    var g2 := Next(w, g1, Event.Plan);
    assert g2 == Start(w).(addable := false, producer := g2.producer) && g2.producer.Fetching? && g2.producer.start == w.startTime;
    var g3 := Next(w, g2, Seek(t));
    var g4 := Next(w, g3, Event.Fetch);
    var g5 := Next(w, g4, Event.Push);
    assert g5.cache == [] && g5.cur == 0 && !g5.eof && g5.producer.Selecting? && !g5.addable && !g5.accessible;
    var g6 := Next(w, g5, Call);
    var g7 := Next(w, g6, Try);
    NoSteps(w, g7);
    RunCons(w, g6, Try, []);
    RunCons(w, g5, Call, [Try] + []);
    RunCons(w, g4, Event.Push, [Call] + ([Try] + []));
    RunCons(w, g3, Event.Fetch, [Event.Push] + ([Call] + ([Try] + [])));
    RunCons(w, g2, Seek(t), [Event.Fetch] + ([Event.Push] + ([Call] + ([Try] + []))));
    RunCons(w, g1, Event.Plan, [Seek(t)] + ([Event.Fetch] + ([Event.Push] + ([Call] + ([Try] + [])))));
    RunCons(w, Start(w), Take, [Event.Plan] + ([Seek(t)] + ([Event.Fetch] + ([Event.Push] + ([Call] + ([Try] + []))))));
  }

  // ----- what a seek signals

  /** A seek to another time says that there is something to get exactly if it goes to an end not yet reached with
      nothing cached, asks for rows exactly if rows were cached and it leaves them or drops some before the end, and
      knows the end at the end of the interval, and elsewhere if it knew it and did not leave the cached rows. */
  lemma SeekSignals(w: World, g: Getter, at: int)
    requires g.consumer.Away? && w.startTime <= at <= w.endTime && g.curTime != at
    ensures var g1 := SeekStep(w, g, at); var toEnd := at == w.endTime;
            && (g1.accessible <==> g.accessible || (toEnd && g.cache == [] && !g.eof))
            && (g1.consumer.Asking? <==> !toEnd && g.cache != [] && (!InCache(g, at) || (!g.eof && |g1.cache| < |g.cache|)))
            && (g1.eof <==> toEnd || (g.eof && (g.cache == [] || InCache(g, at))))
            && g1.curTime == at && g1.delivered == [] && g1.addable == g.addable && g1.producer == g.producer
  {
    hide Whole, Ended, InCache;
  }
}
