/** The line splitter of parser/line-parser.go: carry-over between chunks, carriage-return stripping,
    a size limit and a skip mode behind oversized lines. */
module LineParsers {
  import opened Bytes
  import opened Sequences

  const LF: byte := 10
  const CR: byte := 13
  const DEFAULT_MAX_LINE_SIZE: nat := 2048

  function LfFrom(s: seq<byte>, i: nat): (r: int)
    requires i <= |s|
    ensures r == -1 || i <= r < |s|
    ensures r == -1 ==> forall k :: i <= k < |s| ==> s[k] != LF
    ensures r >= 0 ==> s[r] == LF && forall k :: i <= k < r ==> s[k] != LF
    decreases |s| - i
  {
    if i == |s| then -1 else if s[i] == LF then i else LfFrom(s, i + 1)
  }

  /** The position of the first line feed, -1 without one. */
  function IndexLf(s: seq<byte>): (i: int)
    ensures -1 <= i < |s|
    ensures i == -1 ==> forall k :: 0 <= k < |s| ==> s[k] != LF
    ensures i >= 0 ==> s[i] == LF && forall k :: 0 <= k < i ==> s[k] != LF
  {
    LfFrom(s, 0)
  }

  predicate NoLf(s: seq<byte>) {
    IndexLf(s) == -1
  }

  function StripCr(raw: seq<byte>): seq<byte> {
    if raw != [] && raw[|raw| - 1] == CR then raw[..|raw| - 1] else raw
  }

  datatype LineEvent = Line(text: seq<byte>) | Oversize

  // ----- the reference: lines of the whole stream

  /** A line of up to max raw bytes comes out without its trailing carriage return; a longer one is one
      error. What follows the last line feed is an error as soon as it has max bytes. */
  function Lines(s: seq<byte>, max: nat): seq<LineEvent> {
    var i := IndexLf(s);
    if i == -1 then (if |s| >= max then [Oversize] else [])
    else [if i <= max then Line(StripCr(s[..i])) else Oversize] + Lines(s[i + 1..], max)
  }

  /** What follows the last line feed. */
  function Tail(s: seq<byte>): seq<byte> {
    var i := IndexLf(s);
    if i == -1 then s else Tail(s[i + 1..])
  }

  /** No complete line has exactly max raw bytes. */
  predicate NoExactLine(s: seq<byte>, max: nat) {
    var i := IndexLf(s);
    i == -1 || (i != max && NoExactLine(s[i + 1..], max))
  }

  // ----- the parser on values

  datatype State = State(cache: seq<byte>, skip: bool)

  const START := State([], false)

  datatype Step = Step(state: State, remain: seq<byte>, events: seq<LineEvent>)

  /** One call of Parse. */
  function ParseOnce(st: State, data: seq<byte>, max: nat): (t: Step)
    ensures |data| > 0 ==> |t.remain| < |data|
  {
    if st.skip then
      var i := IndexLf(data);
      if i >= 0 then Search(State(st.cache, false), data[i + 1..], max) else Step(st, [], [])
    else Search(st, data, max)
  }

  function Search(st: State, data: seq<byte>, max: nat): (t: Step)
    ensures |t.remain| <= |data| && (|data| > 0 ==> |t.remain| < |data|)
  {
    if data == [] then Step(st, [], [])
    else
      var limit := max - |st.cache|;
      var i := IndexLf(data);
      if i >= 0 && i <= limit then Step(START, data[i + 1..], [Line(StripCr(st.cache + data[..i]))])
      else if i >= 0 then Step(START, data[i + 1..], [Oversize])
      else if |data| >= limit then Step(State([], true), [], [Oversize])
      else Step(State(st.cache + data, st.skip), [], [])
  }

  /** Calling Parse until nothing remains of a chunk. */
  function Drive(st: State, data: seq<byte>, max: nat): (seq<LineEvent>, State)
    decreases |data|
  {
    if data == [] then ([], st)
    else
      var t := ParseOnce(st, data, max);
      var (events, last) := Drive(t.state, t.remain, max);
      (t.events + events, last)
  }

  function DriveChunks(st: State, chunks: seq<seq<byte>>, max: nat): seq<LineEvent>
    decreases chunks
  {
    if chunks == [] then []
    else
      var (events, next) := Drive(st, chunks[0], max);
      events + DriveChunks(next, chunks[1..], max)
  }

  // ----- independence from the chunking

  lemma IndexLfAppend(t: seq<byte>, d: seq<byte>)
    requires NoLf(t)
    ensures IndexLf(t + d) == if IndexLf(d) == -1 then -1 else |t| + IndexLf(d)
    ensures IndexLf(d) >= 0 ==>
      (t + d)[..|t| + IndexLf(d)] == t + d[..IndexLf(d)] && (t + d)[|t| + IndexLf(d) + 1..] == d[IndexLf(d) + 1..]
  {
    hide IndexLf;
    var i := IndexLf(d);
    assert forall k :: 0 <= k < |d| ==> (t + d)[|t| + k] == d[k];
    assert forall k :: 0 <= k < |t| ==> (t + d)[k] == t[k];
  }

  /** The parser's state for what it has seen of the current line. */
  predicate Follows(st: State, tail: seq<byte>, max: nat) {
    NoLf(tail) && st == if |tail| >= max then State([], true) else State(tail, false)
  }

  /** What the line feed of a stretch brings, given the tail so far. */
  function FirstOut(tail: seq<byte>, data: seq<byte>, max: nat): seq<LineEvent>
    requires !NoLf(data)
  {
    var i := IndexLf(data);
    if |tail| >= max then [] else [if |tail| + i <= max then Line(StripCr(tail + data[..i])) else Oversize]
  }

  /** The lines of one more stretch, given the tail so far. */
  function MoreLines(tail: seq<byte>, data: seq<byte>, max: nat): seq<LineEvent> {
    if !NoLf(data) then FirstOut(tail, data, max) + Lines(data[IndexLf(data) + 1..], max)
    else if |tail| < max <= |tail| + |data| then [Oversize]
    else []
  }

  /** From the start of a line, the further lines are all lines. */
  lemma LinesOf(s: seq<byte>, max: nat)
    requires max > 0
    ensures MoreLines([], s, max) == Lines(s, max)
  {
    hide Lines, IndexLf, StripCr;
    if NoLf(s) {
      LinesNoLf(s, max);
    } else {
      LinesCons(s, max);
      NothingBefore(s[..IndexLf(s)]);
    }
  }

  lemma LinesNoLf(s: seq<byte>, max: nat)
    requires NoLf(s)
    ensures Lines(s, max) == if |s| >= max then [Oversize] else []
  {
  }

  /** The lines of the stream so far, and then those of one more stretch, are the lines of both. */
  lemma LinesSplitAtTail(tail: seq<byte>, data: seq<byte>, max: nat)
    requires NoLf(tail) && NoExactLine(tail + data, max)
    ensures Lines(tail + data, max) == Lines(tail, max) + MoreLines(tail, data, max)
  {
    hide IndexLf, StripCr, Lines, NoExactLine;
    IndexLfAppend(tail, data);
    LinesNoLf(tail, max);
    if NoLf(data) {
      LinesNoLf(tail + data, max);
    } else {
      var i := IndexLf(data);
      LinesCons(tail + data, max);
      if |tail| < max {
        NothingBefore(MoreLines(tail, data, max));
      } else {
        NothingBefore(Lines(data[i + 1..], max));
      }
    }
  }

  lemma DriveUnfold(st: State, data: seq<byte>, max: nat)
    requires data != []
    ensures var t := ParseOnce(st, data, max); var r := Drive(t.state, t.remain, max);
            Drive(st, data, max) == (t.events + r.0, r.1)
  {
    hide ParseOnce;
  }

  lemma DriveNothing(st: State, max: nat)
    ensures Drive(st, [], max) == ([], st)
  {
  }

  /** A stretch without line feed. */
  lemma DrivePart(st: State, tail: seq<byte>, data: seq<byte>, max: nat)
    requires max > 0 && Follows(st, tail, max) && data != [] && NoLf(data)
    ensures Drive(st, data, max).0 == MoreLines(tail, data, max) && Follows(Drive(st, data, max).1, tail + data, max)
  {
    hide Drive, Lines;
    IndexLfAppend(tail, data);
    DriveUnfold(st, data, max);
    var t := ParseOnce(st, data, max);
    DriveNothing(t.state, max);
    NothingBehind(t.events);
  }

  /** The rest of the current line, up to its line feed. */
  lemma DriveLine(st: State, tail: seq<byte>, data: seq<byte>, max: nat)
    requires max > 0 && Follows(st, tail, max) && !NoLf(data) && |tail| + IndexLf(data) != max
    ensures var r := Drive(START, data[IndexLf(data) + 1..], max);
            Drive(st, data, max) == (FirstOut(tail, data, max) + r.0, r.1)
  {
    hide Drive, Lines;
    var rest := data[IndexLf(data) + 1..];
    DriveUnfold(st, data, max);
    if st.skip {
      NothingBefore(Drive(START, rest, max).0);
      if rest == [] {
        DriveNothing(START, max);
      } else {
        DriveUnfold(START, rest, max);
        NothingBefore(ParseOnce(START, rest, max).events);
      }
    }
  }

  lemma FirstLine(s: seq<byte>, max: nat)
    requires NoExactLine(s, max)
    ensures IndexLf(s) == -1 ==> Tail(s) == s
    ensures IndexLf(s) >= 0 ==>
      IndexLf(s) != max && NoExactLine(s[IndexLf(s) + 1..], max) && Tail(s) == Tail(s[IndexLf(s) + 1..])
  {
  }

  lemma NothingMore(tail: seq<byte>, max: nat)
    ensures MoreLines(tail, [], max) == []
  {
  }

  lemma FollowsStart(max: nat)
    requires max > 0
    ensures Follows(START, [], max)
  {
  }

  lemma FollowsNoLf(st: State, tail: seq<byte>, max: nat)
    requires Follows(st, tail, max)
    ensures NoLf(tail)
  {
  }

  lemma {:induction false} DriveGivesLines(st: State, tail: seq<byte>, data: seq<byte>, max: nat)
    requires max > 0 && Follows(st, tail, max) && NoExactLine(tail + data, max)
    ensures Drive(st, data, max).0 == MoreLines(tail, data, max)
    ensures Follows(Drive(st, data, max).1, Tail(tail + data), max)
    decreases |data|
  {
    hide Drive, Lines, NoExactLine, Tail, StripCr, IndexLf, Follows, FirstOut;
    FirstLine(tail + data, max);
    FollowsNoLf(st, tail, max);
    IndexLfAppend(tail, data);
    if data == [] {
      NothingBehind(tail);
      DriveNothing(st, max);
      NothingMore(tail, max);
    } else if NoLf(data) {
      DrivePart(st, tail, data, max);
    } else {
      var rest := data[IndexLf(data) + 1..];
      DriveLine(st, tail, data, max);
      NothingBefore(rest);
      FollowsStart(max);
      DriveGivesLines(START, [], rest, max);
      LinesOf(rest, max);
    }
  }

  /** The first line of a stream with a line feed. */
  lemma LinesCons(s: seq<byte>, max: nat)
    requires !NoLf(s)
    ensures var i := IndexLf(s); var rest := s[i + 1..];
            && Lines(s, max) == [if i <= max then Line(StripCr(s[..i])) else Oversize] + Lines(rest, max)
            && Tail(s) == Tail(rest) && (NoExactLine(s, max) <==> i != max && NoExactLine(rest, max))
  {
  }

  lemma NoLines(s: seq<byte>, max: nat)
    requires NoLf(s)
    ensures Tail(s) == s && NoExactLine(s, max)
  {
  }

  /** A prefix of a stream without exact lines has none either, and the tail of a prefix is what the
      rest of the stream goes on with. */
  lemma {:induction false} PrefixLines(s: seq<byte>, d: seq<byte>, max: nat)
    requires max > 0 && NoExactLine(s + d, max)
    ensures NoExactLine(s, max) && NoLf(Tail(s)) && NoExactLine(Tail(s) + d, max)
    ensures Lines(s + d, max) == Lines(s, max) + MoreLines(Tail(s), d, max)
    ensures Tail(s + d) == Tail(Tail(s) + d)
    decreases |s|
  {
    hide Lines, Tail, NoExactLine, MoreLines, StripCr, IndexLf;
    if NoLf(s) {
      NoLines(s, max);
      LinesSplitAtTail(s, d, max);
    } else {
      var i := IndexLf(s);
      var rest := s[i + 1..];
      PrefixFirst(s, d);
      LinesCons(s, max);
      LinesCons(s + d, max);
      PrefixLines(rest, d, max);
      Assoc([if i <= max then Line(StripCr(s[..i])) else Oversize], Lines(rest, max), MoreLines(Tail(rest), d, max));
    }
  }

  lemma PrefixFirst(s: seq<byte>, d: seq<byte>)
    requires !NoLf(s)
    ensures IndexLf(s + d) == IndexLf(s)
    ensures (s + d)[..IndexLf(s)] == s[..IndexLf(s)] && (s + d)[IndexLf(s) + 1..] == s[IndexLf(s) + 1..] + d
  {
    assert forall k :: 0 <= k < |s| ==> (s + d)[k] == s[k];
  }

  lemma {:induction false} ChunksGiveLines(st: State, seen: seq<byte>, chunks: seq<seq<byte>>, max: nat)
    requires max > 0 && Follows(st, Tail(seen), max) && NoExactLine(seen + Concat(chunks), max)
    ensures Lines(seen, max) + DriveChunks(st, chunks, max) == Lines(seen + Concat(chunks), max)
    decreases chunks
  {
    hide Lines, NoExactLine, Tail, Drive, Follows, MoreLines;
    if chunks == [] {
      NothingBehind(seen);
      NothingBehind(Lines(seen, max));
    } else {
      var d := chunks[0];
      var later := Concat(chunks[1..]);
      Assoc(seen, d, later);
      PrefixLines(seen + d, later, max);
      PrefixLines(seen, d, max);
      DriveGivesLines(st, Tail(seen), d, max);
      ChunksGiveLines(Drive(st, d, max).1, seen + d, chunks[1..], max);
      Assoc(Lines(seen, max), Drive(st, d, max).0, DriveChunks(Drive(st, d, max).1, chunks[1..], max));
    }
  }

  lemma Beginning(max: nat)
    requires max > 0
    ensures Follows(START, Tail([]), max) && Lines([], max) == []
  {
  }

  // ----- the bytes

  /** A line ends at a byte 10. One byte 13 in front of it is taken off, and no more; with more than max bytes in
      front of the 10, there is one error instead. */
  lemma LineBytes(body: seq<byte>, rest: seq<byte>, max: nat)
    requires max > 0 && 10 !in body
    ensures Lines(body + [10] + rest, max)
            == [if |body| > max then Oversize
                else if body != [] && body[|body| - 1] == 13 then Line(body[..|body| - 1]) else Line(body)]
               + Lines(rest, max)
  {
    var s := body + [10] + rest;
    assert s[|body|] == 10 && forall k :: 0 <= k < |body| ==> s[k] == body[k];
    assert IndexLf(s) == |body|;
    assert s[..|body|] == body && s[|body| + 1..] == rest;
    hide IndexLf;
    LinesCons(s, max);
  }

  /** Without a byte 10 there is no line, and one error as soon as there are max bytes. */
  lemma NoLineBytes(body: seq<byte>, max: nat)
    requires 10 !in body
    ensures Lines(body, max) == if |body| >= max then [Oversize] else []
  {
  }

  // ----- and no further than that

  /** In one chunk, the parser gives the lines of the reference, whatever their lengths. */
  lemma {:induction false} OneChunk(s: seq<byte>, max: nat)
    requires max > 0
    ensures Drive(START, s, max).0 == Lines(s, max)
    decreases |s|
  {
    hide Drive, StripCr;
    if s == [] {
      DriveNothing(START, max);
    } else {
      DriveUnfold(START, s, max);
      NothingBefore(s);
      if NoLf(s) {
        DriveNothing(ParseOnce(START, s, max).state, max);
        NothingBehind(ParseOnce(START, s, max).events);
      } else {
        NothingBefore(s[..IndexLf(s)]);
        OneChunk(s[IndexLf(s) + 1..], max);
      }
    }
  }

  /** Where the first line of exactly max raw bytes ends. */
  function ExactAt(s: seq<byte>, max: nat): (k: nat)
    requires !NoExactLine(s, max)
    ensures max <= k < |s|
  {
    var i := IndexLf(s);
    if i == max then i else i + 1 + ExactAt(s[i + 1..], max)
  }

  lemma ExactCons(s: seq<byte>, max: nat)
    requires !NoExactLine(s, max)
    ensures !NoLf(s)
    ensures var i := IndexLf(s);
            if i == max then ExactAt(s, max) == i
            else !NoExactLine(s[i + 1..], max) && ExactAt(s, max) == i + 1 + ExactAt(s[i + 1..], max)
  {
    hide IndexLf;
  }

  /** A first line that is whole in the first chunk comes out the same. */
  lemma FirstLineOut(s: seq<byte>, a: seq<byte>, max: nat)
    requires max > 0 && !NoLf(s) && a <= s && IndexLf(s) < |a|
    ensures var i := IndexLf(s);
            var first := [if i <= max then Line(StripCr(s[..i])) else Oversize];
            Drive(START, a, max) == (first + Drive(START, a[i + 1..], max).0, Drive(START, a[i + 1..], max).1)
  {
    hide Drive, StripCr;
    var i := IndexLf(s);
    assert forall m :: 0 <= m < |a| ==> a[m] == s[m];
    assert a[..i] == s[..i];
    DriveUnfold(START, a, max);
    NothingBefore(a[..i]);
  }

  /** Cutting the stream just in front of that line feed turns the line into an error. */
  lemma {:induction false} CutBeforeLf(s: seq<byte>, max: nat)
    requires max > 0 && !NoExactLine(s, max)
    ensures var k := ExactAt(s, max); DriveChunks(START, [s[..k], s[k..]], max) != Lines(s, max)
    decreases |s|
  {
    hide Drive, DriveChunks, Lines, StripCr, IndexLf, ExactAt, NoExactLine;
    ExactCons(s, max);
    LinesCons(s, max);
    var k := ExactAt(s, max);
    var i := IndexLf(s);
    TwoChunks(s[..k], s[k..], max);
    if i == max {
      ExactCut(s, max);
    } else {
      var rest := s[i + 1..];
      var j := ExactAt(rest, max);
      CutBeforeLf(rest, max);
      TwoChunks(rest[..j], rest[j..], max);
      assert s[..k][i + 1..] == rest[..j] && s[k..] == rest[j..];
      FirstLineOut(s, s[..k], max);
      var first := [if i <= max then Line(StripCr(s[..i])) else Oversize];
      var (e, next) := Drive(START, rest[..j], max);
      Assoc(first, e, Drive(next, rest[j..], max).0);
      SamePrefix(first, e + Drive(next, rest[j..], max).0, Lines(rest, max));
    }
  }

  lemma TwoChunks(a: seq<byte>, b: seq<byte>, max: nat)
    ensures DriveChunks(START, [a, b], max) == Drive(START, a, max).0 + Drive(Drive(START, a, max).1, b, max).0
  {
    hide Drive;
    var (e1, s1) := Drive(START, a, max);
    assert [a, b][1..] == [b] && [b][1..] == [];
    assert DriveChunks(s1, [b], max) == Drive(s1, b, max).0 + DriveChunks(Drive(s1, b, max).1, [], max);
    NothingBehind(Drive(s1, b, max).0);
  }

  lemma ExactCut(s: seq<byte>, max: nat)
    requires max > 0 && IndexLf(s) == max
    ensures Drive(START, s[..max], max).0 + Drive(Drive(START, s[..max], max).1, s[max..], max).0 != Lines(s, max)
  {
    hide Drive;
    var a := s[..max];
    DriveUnfold(START, a, max);
    DriveNothing(State([], true), max);
    assert IndexLf(a) == -1;
    assert Drive(START, a, max).0 == [Oversize] + [] == [Oversize];
    assert Lines(s, max)[0].Line?;
    assert ([Oversize] + Drive(Drive(START, a, max).1, s[max..], max).0)[0] == Oversize;
  }

  /** Every chunking of a stream gives the lines of the whole stream. */
  ghost predicate AllChunkingsAgree(s: seq<byte>, max: nat) {
    forall chunks: seq<seq<byte>> :: Concat(chunks) == s ==> DriveChunks(START, chunks, max) == Lines(s, max)
  }

  lemma ChunksAgree(s: seq<byte>, chunks: seq<seq<byte>>, max: nat)
    requires max > 0 && NoExactLine(s, max) && Concat(chunks) == s
    ensures DriveChunks(START, chunks, max) == Lines(s, max)
  {
    hide Lines, DriveChunks, NoExactLine, Tail, Concat, Follows;
    Beginning(max);
    NothingBefore(s);
    ChunksGiveLines(START, [], chunks, max);
    NothingBefore(DriveChunks(START, chunks, max));
  }

  lemma SomeChunkingDiffers(s: seq<byte>, max: nat)
    requires max > 0 && !NoExactLine(s, max)
    ensures !AllChunkingsAgree(s, max)
  {
    hide Lines, DriveChunks, NoExactLine, Concat, ExactAt;
    CutBeforeLf(s, max);
    var k := ExactAt(s, max);
    ConcatTwo(s[..k], s[k..]);
    assert s[..k] + s[k..] == s;
  }

  lemma ConcatTwo(a: seq<byte>, b: seq<byte>)
    ensures Concat([a, b]) == a + b
  {
    ConcatOne(b);
    assert [a, b][1..] == [b];
  }

  /** All chunkings agree exactly when no line of the stream has max raw bytes: such a line is accepted
      if its line feed comes in the same chunk as its last byte, and is an error otherwise. */
  lemma ChunkingDoesNotMatterIff(s: seq<byte>, max: nat)
    requires max > 0
    ensures AllChunkingsAgree(s, max) <==> NoExactLine(s, max)
  {
    if NoExactLine(s, max) {
      hide Lines, DriveChunks, NoExactLine, Concat;
      forall chunks: seq<seq<byte>> | Concat(chunks) == s
        ensures DriveChunks(START, chunks, max) == Lines(s, max)
      {
        ChunksAgree(s, chunks, max);
      }
    } else {
      hide Lines, DriveChunks, NoExactLine, Concat, AllChunkingsAgree;
      SomeChunkingDiffers(s, max);
    }
  }

  // ----- the object

  class LineParser {
    var maxLineSize: int
    var cache: seq<seq<byte>>
    var cacheSize: int
    var skip: bool
    var line: seq<byte>

    constructor (max: int)
      ensures Valid() && maxLineSize == max && Abs() == START
    {
      maxLineSize, cache, cacheSize, skip, line := max, [], 0, false, [];
    }

    /** No cached chunk is empty, and the bytes cached are those counted. */
    ghost predicate Valid()
      reads this
    {
      cacheSize == |Concat(cache)| && forall i :: 0 <= i < |cache| ==> cache[i] != []
    }

    ghost function Abs(): State
      reads this
    {
      State(Concat(cache), skip)
    }

    /** The limit in force: a limit that is not positive means the default. */
    function Max(): nat
      reads this
    {
      if maxLineSize <= 0 then 2048 else maxLineSize
    }

    method Discard()
      modifies this
      ensures cache == [] && cacheSize == 0 && skip == old(skip) && line == old(line) && maxLineSize == old(maxLineSize)
    {
      cache, cacheSize := [], 0;
    }

    /** Takes the carriage return off the last cached chunk, and the chunk itself if nothing is left. */
    method StripCached()
      requires Valid() && cache != []
      modifies this
      ensures Valid() && Concat(cache) == StripCr(old(Concat(cache)))
      ensures skip == old(skip) && maxLineSize == old(maxLineSize)
    {
      var n := |cache| - 1;
      var last := cache[n];
      assert cache == cache[..n] + [last];
      ConcatSnoc(cache[..n], last);
      if last[|last| - 1] == CR {
        last := last[..|last| - 1];
        if last == [] {
          cache := cache[..n];
        } else {
          cache := cache[n := last];
          assert cache == cache[..n] + [last];
          ConcatSnoc(cache[..n], last);
        }
        cacheSize := cacheSize - 1;
        assert Concat(cache) == StripCr(old(Concat(cache)));
      }
    }

    /** Adds what stands in front of the line feed at i, without a carriage return right before it. */
    method AppendLineEnd(data: seq<byte>, i: nat)
      requires Valid() && 0 < i < |data|
      modifies this
      ensures Valid() && Concat(cache) == StripCr(old(Concat(cache)) + data[..i])
      ensures skip == old(skip) && maxLineSize == old(maxLineSize)
    {
      ghost var before := Concat(cache);
      var chunk := if data[i - 1] == CR then data[..i - 1] else data[..i];
      assert StripCr(before + data[..i]) == before + chunk;
      if |chunk| > 0 {
        ConcatSnoc(cache, chunk);
        cache := cache + [chunk];
        cacheSize := cacheSize + |chunk|;
      }
    }

    /** Parse: a line, an error, or neither; it takes the step of the parser on values. */
    method Parse(input: seq<byte>) returns (ok: bool, remain: seq<byte>, err: bool)
      requires Valid()
      modifies this
      ensures Valid() && !(ok && err) && Max() == old(Max())
      ensures ParseOnce(old(Abs()), input, Max())
              == Step(Abs(), remain, if ok then [Line(line)] else if err then [Oversize] else [])
    {
      hide Search, IndexLf;
      ok, remain, err := false, [], false;
      var data := input;
      if skip {
        var i := IndexLf(data);
        if i >= 0 {
          data := data[i + 1..];
          skip := false;
        } else {
          return;
        }
      }
      ok, remain, err := ParseLine(data);
    }

    /** A line feed within the limit: the line is what is cached and what stands in front of it. */
    method AcceptLine(data: seq<byte>, i: nat)
      requires Valid() && i < |data|
      modifies this
      ensures Valid() && Concat(cache) == [] && line == StripCr(old(Concat(cache)) + data[..i])
      ensures skip == old(skip) && maxLineSize == old(maxLineSize)
    {
      if i > 0 {
        AppendLineEnd(data, i);
      } else {
        NothingBehind(Concat(cache));
        if |cache| > 0 {
          StripCached();
        }
      }
      line := Concat(cache);
      Discard();
    }

    method ParseLine(data: seq<byte>) returns (ok: bool, remain: seq<byte>, err: bool)
      requires Valid() && !skip
      modifies this
      ensures Valid() && !(ok && err) && Max() == old(Max())
      ensures Search(old(Abs()), data, Max())
              == Step(Abs(), remain, if ok then [Line(line)] else if err then [Oversize] else [])
    {
      hide StripCr, IndexLf;
      ok, remain, err := false, [], false;
      if |data| == 0 {
        return;
      }
      if maxLineSize <= 0 {
        maxLineSize := DEFAULT_MAX_LINE_SIZE;
      }
      var limit := maxLineSize - cacheSize;
      var i := IndexLf(data);
      if 0 <= i <= limit {
        AcceptLine(data, i);
        return true, data[i + 1..], false;
      } else if (i >= 0 && i > limit) || (i < 0 && |data| >= limit) {
        if i >= 0 {
          remain := data[i + 1..];
        } else {
          skip := true;
        }
        Discard();
        return false, remain, true;
      } else {
        ConcatSnoc(cache, data);
        cache := cache + [data];
        cacheSize := cacheSize + |data|;
      }
    }

    method Reset()
      modifies this
      ensures Valid() && Abs() == START && maxLineSize == old(maxLineSize)
    {
      Discard();
      skip := false;
      line := [];
    }
  }
}
