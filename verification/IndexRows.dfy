/** Index rows: the order filter of storage/index-checker.go and range queries over ordered rows. */
module IndexRows {
  import opened Sequences

  const DROPPED: nat := 1

  datatype Row = Row(seqNo: nat, start: int, end: int, fileSeq: nat, fileOffset: nat, size: nat,
                     storageType: nat, state: nat)

  /** Ordered rows: sequence numbers rise and the intervals do not overlap. */
  ghost predicate Chain(rows: seq<Row>) {
    && (forall i :: 0 <= i < |rows| ==> 0 < rows[i].seqNo && rows[i].start <= rows[i].end)
    && (forall i, j :: 0 <= i < j < |rows| ==> rows[i].seqNo < rows[j].seqNo && rows[i].end <= rows[j].start)
  }

  /** No row's interval is empty. */
  ghost predicate Strict(rows: seq<Row>) {
    forall i :: 0 <= i < |rows| ==> rows[i].start < rows[i].end
  }

  // ----- queries

  predicate Hit(r: Row, start: int, end: int) {
    r.end > start && r.start < end
  }

  /** The rows that overlap [start, end). */
  function Overlap(rows: seq<Row>, start: int, end: int): seq<Row> {
    if rows == [] then []
    else (if Hit(rows[0], start, end) then [rows[0]] else []) + Overlap(rows[1..], start, end)
  }

  /** The first limit rows; all of them for a negative limit. */
  function First(limit: int, rows: seq<Row>): seq<Row> {
    if 0 <= limit < |rows| then rows[..limit] else rows
  }

  lemma FirstIs(limit: int, rows: seq<Row>)
    ensures var f := First(limit, rows);
            && |f| == (if limit < 0 || limit > |rows| then |rows| else limit)
            && forall k :: 0 <= k < |f| ==> f[k] == rows[k]
  {
  }

  function OneOverlap(r: Row, start: int, end: int): seq<Row> {
    if Hit(r, start, end) then [r] else []
  }

  lemma OverlapCons(r: Row, rows: seq<Row>, start: int, end: int)
    ensures Overlap([r] + rows, start, end) == OneOverlap(r, start, end) + Overlap(rows, start, end)
  {
    assert ([r] + rows)[1..] == rows;
  }

  lemma {:induction false} OverlapSplit(a: seq<Row>, b: seq<Row>, start: int, end: int)
    ensures Overlap(a + b, start, end) == Overlap(a, start, end) + Overlap(b, start, end)
  {
    if a == [] {
      NothingBefore(b);
      NothingBefore(Overlap(b, start, end));
    } else {
      hide Overlap, OneOverlap;
      var r, rest := a[0], a[1..];
      assert a == [r] + rest;
      Assoc([r], rest, b);
      OverlapCons(r, rest, start, end);
      OverlapCons(r, rest + b, start, end);
      OverlapSplit(rest, b, start, end);
      Assoc(OneOverlap(r, start, end), Overlap(rest, start, end), Overlap(b, start, end));
    }
  }

  lemma {:induction false} OverlapNone(rows: seq<Row>, start: int, end: int)
    requires forall i :: 0 <= i < |rows| ==> !Hit(rows[i], start, end)
    ensures Overlap(rows, start, end) == []
  {
    if rows != [] {
      assert !Hit(rows[0], start, end);
      OverlapNone(rows[1..], start, end);
    }
  }

  lemma {:induction false} OverlapAll(rows: seq<Row>, start: int, end: int)
    requires forall i :: 0 <= i < |rows| ==> Hit(rows[i], start, end)
    ensures Overlap(rows, start, end) == rows
  {
    if rows != [] {
      assert Hit(rows[0], start, end);
      OverlapAll(rows[1..], start, end);
      assert rows == [rows[0]] + rows[1..];
    }
  }

  /** Two intervals that hit the same rows. */
  lemma {:induction false} OverlapSame(rows: seq<Row>, start: int, end: int, end2: int)
    requires forall i :: 0 <= i < |rows| ==> (Hit(rows[i], start, end) <==> Hit(rows[i], start, end2))
    ensures Overlap(rows, start, end) == Overlap(rows, start, end2)
  {
    if rows != [] {
      OverlapSame(rows[1..], start, end, end2);
      assert Hit(rows[0], start, end) <==> Hit(rows[0], start, end2);
    }
  }

  /** Binary search by end and by start finds the overlapping rows of ordered rows. */
  lemma OverlapIsRange(rows: seq<Row>, si: nat, ei: nat, start: int, end: int)
    requires si <= ei <= |rows|
    requires forall i :: 0 <= i < si ==> rows[i].end <= start
    requires forall i :: si <= i < |rows| ==> rows[i].end > start
    requires forall i :: 0 <= i < ei ==> rows[i].start < end
    requires forall i :: ei <= i < |rows| ==> rows[i].start >= end
    ensures Overlap(rows, start, end) == rows[si..ei]
  {
    var a, b, c := rows[..si], rows[si..ei], rows[ei..];
    assert rows == a + (b + c);
    OverlapSplit(a, b + c, start, end);
    OverlapSplit(b, c, start, end);
    OverlapNone(a, start, end);
    OverlapAll(b, start, end);
    OverlapNone(c, start, end);
  }

  lemma {:induction false} OverlapMember(rows: seq<Row>, start: int, end: int, k: nat)
    requires k < |Overlap(rows, start, end)|
    ensures Overlap(rows, start, end)[k] in rows && Hit(Overlap(rows, start, end)[k], start, end)
  {
    var head := if Hit(rows[0], start, end) then [rows[0]] else [];
    if k >= |head| {
      OverlapMember(rows[1..], start, end, k - |head|);
    }
  }

  lemma ChainCons(r: Row, later: seq<Row>)
    requires Chain(later) && r.seqNo > 0 && r.start <= r.end
    requires forall i :: 0 <= i < |later| ==> r.seqNo < later[i].seqNo && r.end <= later[i].start
    ensures Chain([r] + later)
  {
  }

  lemma ChainParts(a: seq<Row>, b: seq<Row>)
    requires Chain(a + b)
    ensures Chain(a) && Chain(b)
    ensures forall i, j :: 0 <= i < |a| && 0 <= j < |b| ==> a[i].seqNo < b[j].seqNo && a[i].end <= b[j].start
  {
    assert forall i :: 0 <= i < |a| ==> a[i] == (a + b)[i];
    assert forall j :: 0 <= j < |b| ==> b[j] == (a + b)[|a| + j];
  }

  /** What overlaps, of ordered rows, is in order. */
  lemma {:induction false} OverlapChain(rows: seq<Row>, start: int, end: int)
    requires Chain(rows)
    ensures Chain(Overlap(rows, start, end))
  {
    if rows != [] {
      var r, rest := rows[0], rows[1..];
      var later := Overlap(rest, start, end);
      assert rows == [r] + rest;
      assert 0 < r.seqNo && r.start <= r.end;
      ChainParts([r], rest);
      OverlapChain(rest, start, end);
      OverlapCons(r, rest, start, end);
      hide Overlap, Chain;
      forall k | 0 <= k < |later| ensures r.seqNo < later[k].seqNo && r.end <= later[k].start {
        OverlapMember(rest, start, end, k);
        assert [r][0] == r;
      }
      ChainCons(r, later);
      NothingBefore(later);
    }
  }

  predicate IsIn(t: int, start: int, end: int) {
    start <= t < end
  }

  /** A row overlaps an interval exactly if some moment is in both. */
  lemma HitIff(r: Row, start: int, end: int)
    requires r.start < r.end && start < end
    ensures Hit(r, start, end) <==> exists t :: IsIn(t, start, end) && IsIn(t, r.start, r.end)
  {
    if Hit(r, start, end) {
      var t := if r.start < start then start else r.start;
      assert IsIn(t, start, end) && IsIn(t, r.start, r.end);
    }
  }

  /** The rows of an overlap are those of the rows that do. */
  lemma {:induction false} OverlapHas(rows: seq<Row>, start: int, end: int, r: Row)
    ensures r in Overlap(rows, start, end) <==> r in rows && Hit(r, start, end)
  {
    if rows != [] {
      OverlapHas(rows[1..], start, end, r);
    }
  }

  // ----- the order filter

  datatype Checker = Checker(startSeq: nat, endSeq: nat, startTime: int, endTime: int,
                             seqErrors: nat, timeErrors: nat)

  function NewChecker(startTime: int, endTime: int, startSeq: nat, endSeq: nat): Checker {
    Checker(startSeq, endSeq, startTime, endTime, 0, 0)
  }

  /** One check: zero stands for no bound, and a row past an upper bound still moves the lower one. */
  function CheckRow(c: Checker, r: Row): (Checker, bool) {
    if r.start > r.end then (c.(timeErrors := c.timeErrors + 1), false)
    else if c.startSeq != 0 && r.seqNo <= c.startSeq then (c.(seqErrors := c.seqErrors + 1), false)
    else
      var c1 := c.(startSeq := r.seqNo);
      if c.endSeq != 0 && r.seqNo >= c.endSeq then (c1.(seqErrors := c.seqErrors + 1), false)
      else if c.startTime != 0 && r.start < c.startTime then (c1.(timeErrors := c.timeErrors + 1), false)
      else
        var c2 := c1.(startTime := r.end);
        if c.endTime != 0 && r.end > c.endTime then (c2.(timeErrors := c.timeErrors + 1), false)
        else (c2, true)
  }

  /** The rows that pass, checked one after the other. */
  function Accepted(c: Checker, rows: seq<Row>): (kept: seq<Row>)
    ensures |kept| <= |rows|
    decreases rows
  {
    if rows == [] then []
    else
      var (next, ok) := CheckRow(c, rows[0]);
      (if ok then [rows[0]] else []) + Accepted(next, rows[1..])
  }

  function CheckerAfter(c: Checker, rows: seq<Row>): Checker
    decreases rows
  {
    if rows == [] then c else CheckerAfter(CheckRow(c, rows[0]).0, rows[1..])
  }

  lemma {:induction false} AcceptedSnoc(c: Checker, rows: seq<Row>, r: Row)
    ensures CheckerAfter(c, rows + [r]) == CheckRow(CheckerAfter(c, rows), r).0
    ensures Accepted(c, rows + [r]) == Accepted(c, rows) + if CheckRow(CheckerAfter(c, rows), r).1 then [r] else []
    decreases rows
  {
    if rows == [] {
      assert rows + [r] == [r];
    } else {
      assert (rows + [r])[0] == rows[0] && (rows + [r])[1..] == rows[1..] + [r];
      AcceptedSnoc(CheckRow(c, rows[0]).0, rows[1..], r);
    }
  }

  /** The rows lie within the checker's bounds. */
  ghost predicate Within(c: Checker, rows: seq<Row>) {
    forall i :: 0 <= i < |rows| ==>
      && (c.startSeq != 0 ==> c.startSeq < rows[i].seqNo)
      && (c.endSeq != 0 ==> rows[i].seqNo < c.endSeq)
      && (c.startTime != 0 ==> c.startTime <= rows[i].start)
      && (c.endTime != 0 ==> rows[i].end <= c.endTime)
  }

  lemma {:induction false} OrderedPass(c: Checker, rows: seq<Row>)
    requires Chain(rows) && Within(c, rows)
    ensures Accepted(c, rows) == rows
    decreases rows
  {
    if rows != [] {
      var (next, ok) := CheckRow(c, rows[0]);
      assert ok;
      var rest := rows[1..];
      assert forall i :: 0 <= i < |rest| ==> rest[i] == rows[i + 1];
      OrderedPass(next, rest);
      assert rows == [rows[0]] + rest;
    }
  }

  /** A check never loosens the bounds; a row that passes becomes the lower one. */
  lemma CheckTightens(c: Checker, r: Row, later: seq<Row>)
    requires r.seqNo > 0 && r.end != 0 && Within(CheckRow(c, r).0, later)
    ensures Within(c, later)
    ensures CheckRow(c, r).1 ==> Within(c, [r])
    ensures CheckRow(c, r).1 ==> r.start <= r.end && forall i :: 0 <= i < |later| ==> r.seqNo < later[i].seqNo && r.end <= later[i].start
  {
  }

  lemma WithinSplit(c: Checker, a: seq<Row>, b: seq<Row>)
    requires Within(c, a) && Within(c, b)
    ensures Within(c, a + b)
  {
  }

  /** What a checker passes is in order and within its bounds, whatever it is given. */
  lemma {:induction false} PassedAreOrdered(c: Checker, rows: seq<Row>)
    requires forall i :: 0 <= i < |rows| ==> rows[i].seqNo > 0 && rows[i].end != 0
    ensures Chain(Accepted(c, rows)) && Within(c, Accepted(c, rows))
    decreases rows
  {
    if rows != [] {
      hide Within, CheckRow;
      var (next, ok) := CheckRow(c, rows[0]);
      var later := Accepted(next, rows[1..]);
      PassedAreOrdered(next, rows[1..]);
      CheckTightens(c, rows[0], later);
      if ok {
        ChainCons(rows[0], later);
        WithinSplit(c, [rows[0]], later);
      } else {
        assert [] + later == later;
      }
    }
  }

  /** The filter leaves rows alone exactly when they are in order and within its bounds. */
  lemma FilterKeepsAllIff(c: Checker, rows: seq<Row>)
    requires forall i :: 0 <= i < |rows| ==> rows[i].seqNo > 0 && rows[i].end != 0
    ensures Accepted(c, rows) == rows <==> Chain(rows) && Within(c, rows)
  {
    PassedAreOrdered(c, rows);
    if Chain(rows) && Within(c, rows) {
      OrderedPass(c, rows);
    }
  }

  /** A row passes exactly if its interval is in order and it lies behind the lower bounds and before the upper ones,
      as far as there are any. */
  lemma PassesIff(c: Checker, r: Row)
    ensures CheckRow(c, r).1 <==>
              && r.start <= r.end
              && (c.startSeq == 0 || c.startSeq < r.seqNo) && (c.endSeq == 0 || r.seqNo < c.endSeq)
              && (c.startTime == 0 || c.startTime <= r.start) && (c.endTime == 0 || r.end <= c.endTime)
  {
  }

  /** What a check leaves: the number becomes the lower bound once interval and number are in order, the end once the
      row is behind the lower time as well, whatever the upper bounds say. A row that does not pass is counted once:
      under numbers if its number was the first thing wrong, else under times. */
  lemma CheckLeaves(c: Checker, r: Row)
    ensures var c1 := CheckRow(c, r).0;
            var inOrder := r.start <= r.end && (c.startSeq == 0 || c.startSeq < r.seqNo);
            var numbered := inOrder && (c.endSeq == 0 || r.seqNo < c.endSeq);
            var timely := numbered && (c.startTime == 0 || c.startTime <= r.start);
            && c1.endSeq == c.endSeq && c1.endTime == c.endTime
            && c1.startSeq == (if inOrder then r.seqNo else c.startSeq)
            && c1.startTime == (if timely then r.end else c.startTime)
            && c1.seqErrors == c.seqErrors + (if r.start <= r.end && !numbered then 1 else 0)
            && c1.timeErrors == c.timeErrors
               + (if r.start > r.end || (numbered && !CheckRow(c, r).1) then 1 else 0)
  {
  }

  class IndexChecker {
    var startSeq: nat
    var endSeq: nat
    var startTime: int
    var endTime: int
    var seqErrorCount: nat
    var timeErrorCount: nat

    constructor (startTime: int, endTime: int, startSeq: nat, endSeq: nat)
      ensures Abs() == Checker(startSeq, endSeq, startTime, endTime, 0, 0)
    {
      this.startSeq, this.endSeq, this.startTime, this.endTime := startSeq, endSeq, startTime, endTime;
      seqErrorCount, timeErrorCount := 0, 0;
    }

    ghost function Abs(): Checker
      reads this
    {
      Checker(startSeq, endSeq, startTime, endTime, seqErrorCount, timeErrorCount)
    }

    method Check(index: Row) returns (ok: bool)
      modifies this
      ensures (Abs(), ok) == CheckRow(old(Abs()), index)
    {
      if index.start > index.end {
        timeErrorCount := timeErrorCount + 1;
        return false;
      }
      if startSeq != 0 {
        if index.seqNo <= startSeq {
          seqErrorCount := seqErrorCount + 1;
          return false;
        }
      }
      startSeq := index.seqNo;
      if endSeq != 0 {
        if index.seqNo >= endSeq {
          seqErrorCount := seqErrorCount + 1;
          return false;
        }
      }
      if startTime != 0 {
        if index.start < startTime {
          timeErrorCount := timeErrorCount + 1;
          return false;
        }
      }
      startTime := index.end;
      if endTime != 0 {
        if index.end > endTime {
          timeErrorCount := timeErrorCount + 1;
          return false;
        }
      }
      return true;
    }

    /** Checks the rows in order and keeps those that pass. */
    method Keep(indexes: seq<Row>) returns (kept: seq<Row>)
      modifies this
      ensures kept == Accepted(old(Abs()), indexes)
    {
      kept := [];
      var i := 0;
      while i < |indexes|
        invariant 0 <= i <= |indexes|
        invariant Abs() == CheckerAfter(old(Abs()), indexes[..i])
        invariant kept == Accepted(old(Abs()), indexes[..i])
      {
        AcceptedSnoc(old(Abs()), indexes[..i], indexes[i]);
        assert indexes[..i + 1] == indexes[..i] + [indexes[i]];
        var ok := Check(indexes[i]);
        if ok {
          kept := kept + [indexes[i]];
        }
        i := i + 1;
      }
      assert indexes[..i] == indexes;
    }
  }

  /** Binary search for the first of n positions at which a monotone condition holds. */
  method Search(n: nat, f: nat -> bool) returns (k: nat)
    requires forall i, j :: 0 <= i < j < n && f(i) ==> f(j)
    ensures k <= n
    ensures forall i :: 0 <= i < k ==> !f(i)
    ensures forall i :: k <= i < n ==> f(i)
  {
    var i, j := 0, n;
    while i < j
      invariant 0 <= i <= j <= n
      invariant forall m :: 0 <= m < i ==> !f(m)
      invariant forall m :: j <= m < n ==> f(m)
    {
      var h := (i + j) / 2;
      if !f(h) {
        i := h + 1;
      } else {
        j := h;
      }
    }
    k := i;
  }
}
