/** The NAL unit parser of media/h264/nalu-parser.go: start codes count only at the beginning of chunks
    that are marked as prefixes, and everything up to the next one is the unit. */
module H264Parser {
  import opened Sequences
  import opened H264

  /** A chunk, and whether a start code may begin it; the first chunk of a PES packet is marked, and has
      at least five bytes. */
  datatype Chunk = Chunk(data: seq<bv8>, prefix: bool)

  datatype Output = Unit(nalu: Nalu) | BadType(typ: bv8)

  /** Whether there is no unit under way, its header, and its body so far. */
  datatype State = State(skip: bool, header: bv8, body: seq<bv8>)

  const START := State(true, 0, [])

  predicate LongEnough(c: Chunk) {
    c.prefix ==> |c.data| >= 5
  }

  /** Where the NAL unit starts behind a start code, 0 without one. */
  function NaluOffset(data: seq<bv8>): nat {
    if |data| >= 3 && data[..3] == [0, 0, 1] then 3
    else if |data| >= 4 && data[..4] == [0, 0, 0, 1] then 4
    else 0
  }

  predicate ValidType(h: bv8) {
    1 <= TypeOf(h) <= 12
  }

  function UnderWay(s: State): seq<Output> {
    if s.skip then [] else [Unit(Nalu(s.header, s.body))]
  }

  /** What a call reports: a unit, a bad type, both in this order, or neither. */
  function Outputs(ok: bool, nalu: Nalu, bad: bool, typ: bv8): seq<Output> {
    (if ok then [Unit(nalu)] else []) + (if bad then [BadType(typ)] else [])
  }

  /** One call of Parse. */
  function ParseStep(s: State, c: Chunk): (State, seq<Output>)
    requires LongEnough(c)
  {
    var n := if c.prefix then NaluOffset(c.data) else 0;
    var done := Nalu(s.header, s.body);
    if n == 0 then (if s.skip then s else s.(body := s.body + c.data), Outputs(false, done, false, 0))
    else if ValidType(c.data[n]) then (State(false, c.data[n], c.data[n + 1..]), Outputs(!s.skip, done, false, 0))
    else (State(true, 0, []), Outputs(!s.skip, done, true, TypeOf(c.data[n])))
  }

  /** Feeding chunks, and Complete behind the last. */
  function ParseAll(s: State, chunks: seq<Chunk>): seq<Output>
    requires forall i :: 0 <= i < |chunks| ==> LongEnough(chunks[i])
    decreases chunks
  {
    if chunks == [] then UnderWay(s)
    else
      var (next, out) := ParseStep(s, chunks[0]);
      out + ParseAll(next, chunks[1..])
  }

  // ----- units cut into chunks

  /** Bytes of a unit go on in a chunk that does not look like the beginning of another. */
  predicate GoesOn(c: Chunk) {
    LongEnough(c) && (c.prefix ==> NaluOffset(c.data) == 0)
  }

  function Data(chunks: seq<Chunk>): seq<bv8> {
    Concat(seq(|chunks|, i requires 0 <= i < |chunks| => chunks[i].data))
  }

  lemma DataCons(chunks: seq<Chunk>)
    ensures Data(chunks) == if chunks == [] then [] else chunks[0].data + Data(chunks[1..])
  {
    if chunks != [] {
      var all := seq(|chunks|, i requires 0 <= i < |chunks| => chunks[i].data);
      var rest := chunks[1..];
      assert all[1..] == seq(|rest|, i requires 0 <= i < |rest| => rest[i].data);
    }
  }

  function StartCode(long: bool): seq<bv8> {
    if long then [0, 0, 0, 1] else [0, 0, 1]
  }

  /** Chunks that carry a unit behind its start code. */
  ghost predicate Carries(chunks: seq<Chunk>, nalu: Nalu) {
    && chunks != [] && chunks[0].prefix && |chunks[0].data| >= 5
    && (forall i :: 1 <= i < |chunks| ==> GoesOn(chunks[i]))
    && exists long :: Data(chunks) == StartCode(long) + [nalu.header] + nalu.body
  }

  function Expected(nalus: seq<Nalu>): seq<Output> {
    if nalus == [] then []
    else [if ValidType(nalus[0].header) then Unit(nalus[0]) else BadType(TypeOf(nalus[0].header))] + Expected(nalus[1..])
  }

  ghost predicate AllLong(chunks: seq<Chunk>) {
    forall i :: 0 <= i < |chunks| ==> LongEnough(chunks[i])
  }

  lemma SplitCode(c: seq<bv8>, later: seq<bv8>, code: seq<bv8>, h: bv8, body: seq<bv8>)
    requires c + later == code + [h] + body && |c| > |code|
    ensures c[..|code|] == code && c[|code|] == h && c[|code| + 1..] + later == body
  {
    var all := code + [h] + body;
    assert forall i :: 0 <= i < |code| ==> c[i] == all[i] == code[i];
    assert c[|code|] == all[|code|];
    assert all[|code| + 1..] == body && (c + later)[|code| + 1..] == c[|code| + 1..] + later;
  }

  lemma StartCodeOffset(c: seq<bv8>, long: bool)
    requires |c| >= 5 && c[..|StartCode(long)|] == StartCode(long)
    ensures NaluOffset(c) == |StartCode(long)|
  {
    if long {
      assert c[2] == c[..4][2] && c[..3][2] == c[2];
    }
  }

  /** The first chunk begins the unit. */
  lemma FirstChunk(s: State, chunks: seq<Chunk>, nalu: Nalu)
    requires Carries(chunks, nalu)
    ensures var (next, out) := ParseStep(s, chunks[0]);
            && out == UnderWay(s) + (if ValidType(nalu.header) then [] else [BadType(TypeOf(nalu.header))])
            && next.skip == !ValidType(nalu.header)
            && (!next.skip ==> next.header == nalu.header && next.body + Data(chunks[1..]) == nalu.body)
  {
    hide NaluOffset, ValidType, TypeOf, GoesOn, Data;
    DataCons(chunks);
    var long :| Data(chunks) == StartCode(long) + [nalu.header] + nalu.body;
    SplitCode(chunks[0].data, Data(chunks[1..]), StartCode(long), nalu.header, nalu.body);
    StartCodeOffset(chunks[0].data, long);
    NothingBehind(UnderWay(s));
  }

  lemma {:induction false} OtherChunks(s: State, chunks: seq<Chunk>, more: seq<Chunk>)
    requires (forall i :: 0 <= i < |chunks| ==> GoesOn(chunks[i])) && AllLong(chunks + more) && AllLong(more)
    ensures ParseAll(s, chunks + more)
            == ParseAll(if s.skip then s else s.(body := s.body + Data(chunks)), more)
    decreases chunks
  {
    hide Data;
    DataCons(chunks);
    if chunks == [] {
      NothingBefore(more);
      NothingBehind(s.body);
    } else {
      var rest := chunks[1..];
      assert (chunks + more)[0] == chunks[0] && (chunks + more)[1..] == rest + more;
      assert GoesOn(chunks[0]);
      assert forall i :: 0 <= i < |rest| ==> rest[i] == chunks[i + 1];
      assert AllLong(rest + more);
      var next := ParseStep(s, chunks[0]).0;
      OtherChunks(next, rest, more);
      NothingBefore(ParseAll(next, rest + more));
      Assoc(s.body, chunks[0].data, Data(rest));
    }
  }

  lemma CarriesLong(chunks: seq<Chunk>, nalu: Nalu)
    requires Carries(chunks, nalu)
    ensures AllLong(chunks)
  {
    forall i | 0 <= i < |chunks| ensures LongEnough(chunks[i]) {
      assert i > 0 ==> GoesOn(chunks[i]);
    }
  }

  ghost predicate AllCarry(groups: seq<seq<Chunk>>, nalus: seq<Nalu>) {
    |groups| == |nalus| && forall i :: 0 <= i < |nalus| ==> Carries(groups[i], nalus[i])
  }

  lemma {:induction false} ConcatLong(groups: seq<seq<Chunk>>, nalus: seq<Nalu>)
    requires AllCarry(groups, nalus)
    ensures AllLong(Concat(groups))
  {
    if groups != [] {
      CarriesLong(groups[0], nalus[0]);
      ConcatLong(groups[1..], nalus[1..]);
    }
  }

  /** One unit's chunks put what was under way out, and the unit under way unless its type is bad. */
  lemma OneUnit(s: State, chunks: seq<Chunk>, nalu: Nalu, more: seq<Chunk>)
    requires Carries(chunks, nalu) && AllLong(chunks + more) && AllLong(more)
    ensures var valid := ValidType(nalu.header);
            exists next :: (valid ==> UnderWay(next) == [Unit(nalu)]) && (!valid ==> UnderWay(next) == [])
              && ParseAll(s, chunks + more)
                 == UnderWay(s) + (if valid then [] else [BadType(TypeOf(nalu.header))]) + ParseAll(next, more)
  {
    hide ParseStep, NaluOffset;
    FirstChunk(s, chunks, nalu);
    var (first, out) := ParseStep(s, chunks[0]);
    var rest := chunks[1..];
    assert (chunks + more)[0] == chunks[0] && (chunks + more)[1..] == rest + more;
    assert forall i :: 0 <= i < |rest| ==> rest[i] == chunks[i + 1];
    OtherChunks(first, rest, more);
    var next := if first.skip then first else first.(body := first.body + Data(rest));
    assert ParseAll(s, chunks + more) == out + ParseAll(next, more);
  }

  lemma {:induction false} UnitsFrom(s: State, groups: seq<seq<Chunk>>, nalus: seq<Nalu>)
    requires AllCarry(groups, nalus) && AllLong(Concat(groups))
    ensures ParseAll(s, Concat(groups)) == UnderWay(s) + Expected(nalus)
    decreases groups
  {
    if groups == [] {
      NothingBehind(UnderWay(s));
    } else {
      hide ParseAll, ValidType, UnderWay;
      var rest := Concat(groups[1..]);
      ConcatLong(groups[1..], nalus[1..]);
      OneUnit(s, groups[0], nalus[0], rest);
      var valid := ValidType(nalus[0].header);
      var next :| (valid ==> UnderWay(next) == [Unit(nalus[0])]) && (!valid ==> UnderWay(next) == [])
        && ParseAll(s, groups[0] + rest)
           == UnderWay(s) + (if valid then [] else [BadType(TypeOf(nalus[0].header))]) + ParseAll(next, rest);
      UnitsFrom(next, groups[1..], nalus[1..]);
      UnitThenRest(UnderWay(s), valid, nalus[0], Expected(nalus[1..]));
    }
  }

  lemma UnitThenRest(before: seq<Output>, valid: bool, nalu: Nalu, rest: seq<Output>)
    ensures before + (if valid then [] else [BadType(TypeOf(nalu.header))]) + ((if valid then [Unit(nalu)] else []) + rest)
            == before + ([if valid then Unit(nalu) else BadType(TypeOf(nalu.header))] + rest)
  {
  }

  /** NAL units printed behind start codes of either length and cut anywhere behind their fifth byte come
      back in order, each once; one with a type that is not allowed is one error in its place. */
  lemma UnitsComeBack(groups: seq<seq<Chunk>>, nalus: seq<Nalu>)
    requires AllCarry(groups, nalus)
    ensures AllLong(Concat(groups)) && ParseAll(START, Concat(groups)) == Expected(nalus)
  {
    ConcatLong(groups, nalus);
    UnitsFrom(START, groups, nalus);
    NothingBefore(Expected(nalus));
  }

  // ----- the bytes

  /** Behind a start code of three or four bytes, a header whose low five bits are 0 or above 12 is one error with
      that value; any other begins a unit of that header and the bytes behind it. What was under way comes out
      before. */
  lemma UnitBytes(s: State, code: seq<bv8>, h: bv8, body: seq<bv8>)
    requires (code == [0, 0, 1] || code == [0, 0, 0, 1]) && |code| + 1 + |body| >= 5
    ensures AllLong([Chunk(code + [h] + body, true)])
    ensures ParseAll(s, [Chunk(code + [h] + body, true)])
            == (if s.skip then [] else [Unit(Nalu(s.header, s.body))])
               + (if h & 0x1f == 0 || h & 0x1f > 12 then [BadType(h & 0x1f)] else [Unit(Nalu(h, body))])
  {
    hide NaluOffset, ParseStep;
    var c := Chunk(code + [h] + body, true);
    UnitStep(s, code, h, body);
    assert [c][1..] == [];
    var (next, out) := ParseStep(s, c);
    assert ParseAll(s, [c]) == out + ParseAll(next, []);
    NothingBehind(out);
  }

  lemma UnitStep(s: State, code: seq<bv8>, h: bv8, body: seq<bv8>)
    requires (code == [0, 0, 1] || code == [0, 0, 0, 1]) && |code| + 1 + |body| >= 5
    ensures var t := h & 0x1f;
            ParseStep(s, Chunk(code + [h] + body, true))
            == (if t == 0 || t > 12 then State(true, 0, []) else State(false, h, body),
                (if s.skip then [] else [Unit(Nalu(s.header, s.body))]) + if t == 0 || t > 12 then [BadType(t)] else [])
  {
    hide NaluOffset;
    var data := code + [h] + body;
    CodeOffset(code, h, body);
    assert data[|code|] == h && data[|code| + 1..] == body;
  }

  lemma CodeOffset(code: seq<bv8>, h: bv8, body: seq<bv8>)
    requires code == [0, 0, 1] || code == [0, 0, 0, 1]
    ensures NaluOffset(code + [h] + body) == |code|
  {
    var data := code + [h] + body;
    assert data[..|code|] == code;
    if |code| == 4 {
      assert data[..3] == code[..3] && code[..3][2] == 0;
    }
  }

  /** Any other chunk goes on with the unit under way, or is dropped if there is none. */
  lemma MoreBytes(s: State, c: Chunk)
    requires LongEnough(c) && (c.prefix ==> !([0, 0, 1] <= c.data) && !([0, 0, 0, 1] <= c.data))
    ensures ParseStep(s, c) == (if s.skip then s else s.(body := s.body + c.data), [])
  {
    assert |c.data| >= 3 && c.data[..3] == [0, 0, 1] ==> [0, 0, 1] <= c.data;
    assert |c.data| >= 4 && c.data[..4] == [0, 0, 0, 1] ==> [0, 0, 0, 1] <= c.data;
  }

  // ----- the object

  class NaluParser {
    var curHeader: bv8
    var cache: seq<seq<bv8>>
    var skip: bool
    var naluHeader: bv8
    var naluBody: seq<seq<bv8>>

    ghost function Abs(): State
      reads this
    {
      State(skip, curHeader, Concat(cache))
    }

    /** Without a unit under way nothing is kept. */
    ghost predicate Valid()
      reads this
    {
      skip ==> cache == [] && curHeader == 0
    }

    constructor ()
      ensures Valid() && Abs() == START
    {
      curHeader, cache, skip, naluHeader, naluBody := 0, [], true, 0, [];
    }

    method CompleteUnit()
      modifies this
      ensures naluHeader == old(curHeader) && naluBody == old(cache)
      ensures curHeader == 0 && cache == [] && skip == old(skip)
    {
      naluHeader, naluBody := curHeader, cache;
      curHeader, cache := 0, [];
    }

    method AppendCache(chunk: seq<bv8>)
      modifies this`cache
      ensures Concat(cache) == old(Concat(cache)) + chunk
    {
      ConcatSnoc(cache, chunk);
      cache := cache + [chunk];
    }

    /** Parse: whether a unit is complete, and whether the next one has a bad type. */
    method Parse(data: seq<bv8>, isPrefix: bool) returns (ok: bool, bad: bool)
      requires Valid() && LongEnough(Chunk(data, isPrefix))
      modifies this
      ensures Valid() && (bad ==> NaluOffset(data) < |data|)
      ensures ParseStep(old(Abs()), Chunk(data, isPrefix))
              == (Abs(), Outputs(ok, Nalu(naluHeader, Concat(naluBody)), bad, if bad then TypeOf(data[NaluOffset(data)]) else 0))
    {
      hide TypeOf, NaluOffset, Concat, Outputs, ParseStep;
      StepIs(Abs(), Chunk(data, isPrefix));
      NoOutputs();
      ConcatNone();
      ok, bad := false, false;
      if isPrefix {
        var offset := NaluOffset(data);
        if offset != 0 {
          OffsetBound(data);
          if !skip {
            CompleteUnit();
            ok := true;
          } else {
            skip := false;
          }
          var header := data[offset];
          if TypeOf(header) < 1 || TypeOf(header) > 12 {
            skip := true;
            return ok, true;
          }
          curHeader := header;
          NothingBefore(data[offset + 1..]);
          if offset == 3 {
            AppendCache(data[4..]);
          } else if |data| > 5 {
            AppendCache(data[5..]);
          } else {
            assert data[offset + 1..] == [];
          }
          return;
        }
      }
      if !skip {
        AppendCache(data);
      }
    }

    /** Complete: the unit under way, if there is one. */
    method Complete() returns (ok: bool)
      requires Valid()
      modifies this
      ensures Valid() && Abs() == START
      ensures old(UnderWay(Abs())) == if ok then [Unit(Nalu(naluHeader, Concat(naluBody)))] else []
    {
      ok := !skip;
      if !skip {
        CompleteUnit();
        skip := true;
      }
    }

    method Reset()
      requires Valid()
      modifies this
      ensures Valid() && Abs() == START && naluHeader == 0 && naluBody == []
    {
      var _ := Complete();
      naluHeader, naluBody := 0, [];
    }
  }

  lemma StepIs(s: State, c: Chunk)
    requires LongEnough(c)
    ensures var n := if c.prefix then NaluOffset(c.data) else 0;
            if n == 0 then
              ParseStep(s, c) == (if s.skip then s else s.(body := s.body + c.data), Outputs(false, Nalu(s.header, s.body), false, 0))
            else
              n < |c.data| &&
              ParseStep(s, c) == (if ValidType(c.data[n]) then State(false, c.data[n], c.data[n + 1..]) else START,
                                  Outputs(!s.skip, Nalu(s.header, s.body), !ValidType(c.data[n]),
                                          if ValidType(c.data[n]) then 0 else TypeOf(c.data[n])))
  {
    hide TypeOf, Outputs;
  }

  /** With nothing to report, what would have been reported does not matter. */
  lemma NoOutputs()
    ensures forall x: Nalu, y: Nalu :: Outputs(false, x, false, 0) == Outputs(false, y, false, 0)
    ensures forall x: Nalu, y: Nalu, t: bv8 :: Outputs(false, x, true, t) == Outputs(false, y, true, t)
  {
  }

  lemma ConcatNone()
    ensures Concat<bv8>([]) == []
  {
  }

  lemma OffsetBound(data: seq<bv8>)
    ensures NaluOffset(data) == 0 || NaluOffset(data) == 3 || NaluOffset(data) == 4
  {
  }
}
