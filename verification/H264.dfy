/** H.264 NAL units in RTP packets: the header bits of media/h264/nalu.go, the packager of
    media/h264/rtp-packager.go, and reassembly as section 5.8 of RFC 6184 describes it. */
module H264 {
  import opened Options
  import opened Sequences

  const FU_A: bv8 := 28
  const DEFAULT_MAX_PAYLOAD: nat := 1400
  const MIN_MAX_PAYLOAD: nat := 1024

  // ----- headers

  function TypeOf(h: bv8): bv8 {
    h & 0x1f
  }

  function NriOf(h: bv8): bv8 {
    (h >> 5) & 3
  }

  function WithType(h: bv8, t: bv8): bv8 {
    h | (t & 0x1f)
  }

  function WithNri(h: bv8, nri: bv8): bv8 {
    h | ((nri & 3) << 5)
  }

  predicate IsStart(h: bv8) {
    h >> 7 == 1
  }

  predicate IsEnd(h: bv8) {
    (h >> 6) & 1 == 1
  }

  function WithStart(h: bv8, on: bool): bv8 {
    if on then h | 0x80 else h & 0x7f
  }

  function WithEnd(h: bv8, on: bool): bv8 {
    if on then h | 0x40 else h & 0xbf
  }

  /** The FU indicator: the NAL unit's importance and the type of a fragment. */
  function Indicator(h: bv8): bv8 {
    WithType(WithNri(0, NriOf(h)), FU_A)
  }

  function FuHeader(h: bv8, first: bool, last: bool): bv8 {
    WithEnd(WithType(WithStart(0, first), TypeOf(h)), last)
  }

  /** The forbidden bit is off. */
  predicate Allowed(h: bv8) {
    h & 0x80 == 0
  }

  /** The NAL unit header that a fragment's two header bytes stand for. */
  function HeaderOf(indicator: bv8, fu: bv8): bv8 {
    (indicator & 0xe0) | (fu & 0x1f)
  }

  /** The two header bytes of a fragment say which NAL unit and which end of it: all of it comes back
      but the forbidden bit. */
  lemma FragmentHeaders(h: bv8, first: bool, last: bool)
    ensures TypeOf(Indicator(h)) == FU_A
    ensures IsStart(FuHeader(h, first, last)) == first && IsEnd(FuHeader(h, first, last)) == last
    ensures HeaderOf(Indicator(h), FuHeader(h, first, last)) == h & 0x7f
  {
  }

  /** Setting a flag of a fragment's header touches nothing else. */
  lemma FlagsTouchOneBit(h: bv8, on: bool)
    ensures IsStart(WithStart(h, on)) == on && IsEnd(WithStart(h, on)) == IsEnd(h) && TypeOf(WithStart(h, on)) == TypeOf(h)
    ensures IsEnd(WithEnd(h, on)) == on && IsStart(WithEnd(h, on)) == IsStart(h) && TypeOf(WithEnd(h, on)) == TypeOf(h)
  {
  }

  /** A type or an importance is only added to the bits that are there: it reads back exactly if none
      other was set. */
  lemma SetReadsBackIff(h: bv8, v: bv8)
    ensures TypeOf(WithType(h, v)) == v & 0x1f <==> TypeOf(h) & v == TypeOf(h)
    ensures NriOf(WithNri(h, v)) == v & 3 <==> NriOf(h) & v == NriOf(h)
    ensures NriOf(WithType(h, v)) == NriOf(h) && TypeOf(WithNri(h, v)) == TypeOf(h)
  {
  }

  lemma ForbiddenBit(h: bv8)
    ensures h & 0x7f == h <==> Allowed(h)
  {
  }

  // ----- fragmentation

  datatype Nalu = Nalu(header: bv8, body: seq<bv8>)

  datatype Packet = Packet(payload: seq<bv8>, marker: bool)

  /** The pieces done, and what is gathered for the next one. */
  datatype Pieces = Pieces(done: seq<seq<bv8>>, cache: seq<bv8>)

  /** A piece with room for two bytes or less is done. */
  function WithRoom(p: Pieces, max: nat): Pieces
    requires |p.cache| + 2 <= max
  {
    if max - |p.cache| - 2 <= 2 then Pieces(p.done + [p.cache], []) else p
  }

  /** A chunk of the body goes into the pieces. */
  function PutChunk(p: Pieces, chunk: seq<bv8>, max: nat): Pieces
    requires max > 4 && |p.cache| + 2 <= max
    ensures |PutChunk(p, chunk, max).cache| + 2 <= max
    decreases |chunk|
  {
    if chunk == [] then p
    else
      var q := WithRoom(p, max);
      var room := max - |q.cache| - 2;
      var limit := if room > |chunk| then |chunk| else room;
      PutChunk(Pieces(q.done, q.cache + chunk[..limit]), chunk[limit..], max)
  }

  function PutChunks(p: Pieces, chunks: seq<seq<bv8>>, max: nat): Pieces
    requires max > 4 && |p.cache| + 2 <= max
    ensures |PutChunks(p, chunks, max).cache| + 2 <= max
    decreases chunks
  {
    if chunks == [] then p else PutChunks(PutChunk(p, chunks[0], max), chunks[1..], max)
  }

  /** The pieces of a body. */
  function PiecesOf(chunks: seq<seq<bv8>>, max: nat): seq<seq<bv8>>
    requires max > 4
  {
    var p := PutChunks(Pieces([], []), chunks, max);
    p.done + [p.cache]
  }

  function FuPayload(h: bv8, piece: seq<bv8>, first: bool, last: bool): seq<bv8> {
    [Indicator(h), FuHeader(h, first, last)] + piece
  }

  /** The fragments of pieces: the first one starts, the last one ends and carries the marker. */
  function Fragments(h: bv8, pieces: seq<seq<bv8>>): (packets: seq<Packet>)
    ensures |packets| == |pieces|
    ensures forall i :: 0 <= i < |pieces| ==>
      packets[i] == Packet(FuPayload(h, pieces[i], i == 0, i == |pieces| - 1), i == |pieces| - 1)
  {
    seq(|pieces|, i requires 0 <= i < |pieces| =>
      Packet(FuPayload(h, pieces[i], i == 0, i == |pieces| - 1), i == |pieces| - 1))
  }

  predicate FitsOne(chunks: seq<seq<bv8>>, max: nat) {
    |Concat(chunks)| + 1 < max
  }

  /** The packets of a NAL unit whose body comes in chunks. */
  function Packaged(h: bv8, chunks: seq<seq<bv8>>, max: nat): seq<Packet>
    requires max > 4
  {
    if FitsOne(chunks, max) then [Packet([h] + Concat(chunks), true)] else Fragments(h, PiecesOf(chunks, max))
  }

  // ----- what the pieces are

  /** All pieces but the one in the making are almost full, and none is longer than a packet allows. */
  ghost predicate Sized(done: seq<seq<bv8>>, max: nat) {
    forall i :: 0 <= i < |done| ==> max - 4 <= |done[i]| <= max - 2
  }

  lemma {:induction false} PutChunkKeeps(p: Pieces, chunk: seq<bv8>, max: nat)
    requires max > 4 && |p.cache| + 2 <= max && Sized(p.done, max)
    ensures var q := PutChunk(p, chunk, max);
            && Sized(q.done, max) && Concat(q.done) + q.cache == Concat(p.done) + p.cache + chunk
            && (|p.cache| > 0 || chunk != [] ==> |q.cache| > 0)
    decreases |chunk|
  {
    if chunk == [] {
      NothingBehind(Concat(p.done) + p.cache);
    } else {
      hide Concat;
      var q := WithRoom(p, max);
      var room := max - |q.cache| - 2;
      var limit := if room > |chunk| then |chunk| else room;
      ConcatSnoc(p.done, p.cache);
      NothingBehind(Concat(p.done) + p.cache);
      assert Concat(q.done) + q.cache == Concat(p.done) + p.cache;
      Assoc(Concat(q.done), q.cache, chunk[..limit]);
      assert chunk == chunk[..limit] + chunk[limit..];
      Assoc(Concat(p.done) + p.cache, chunk[..limit], chunk[limit..]);
      PutChunkKeeps(Pieces(q.done, q.cache + chunk[..limit]), chunk[limit..], max);
    }
  }

  lemma {:induction false} PutChunksKeeps(p: Pieces, chunks: seq<seq<bv8>>, max: nat)
    requires max > 4 && |p.cache| + 2 <= max && Sized(p.done, max)
    ensures var q := PutChunks(p, chunks, max);
            && Sized(q.done, max) && Concat(q.done) + q.cache == Concat(p.done) + p.cache + Concat(chunks)
            && (|p.cache| > 0 || Concat(chunks) != [] ==> |q.cache| > 0)
    decreases chunks
  {
    if chunks == [] {
      NothingBehind(Concat(p.done) + p.cache);
    } else {
      hide PutChunk, Sized;
      PutChunkKeeps(p, chunks[0], max);
      PutChunksKeeps(PutChunk(p, chunks[0], max), chunks[1..], max);
      Assoc(Concat(p.done) + p.cache, chunks[0], Concat(chunks[1..]));
    }
  }

  /** The pieces of a body that needs fragments: at least two, together the body, all but the last almost
      full, and none too long or empty. */
  lemma PiecesAreBody(chunks: seq<seq<bv8>>, max: nat)
    requires max > 4 && !FitsOne(chunks, max)
    ensures var pieces := PiecesOf(chunks, max);
            && |pieces| >= 2 && Concat(pieces) == Concat(chunks)
            && (forall i :: 0 <= i < |pieces| ==> 0 < |pieces[i]| <= max - 2)
            && (forall i :: 0 <= i < |pieces| - 1 ==> |pieces[i]| >= max - 4)
  {
    hide PutChunks;
    PutChunksKeeps(Pieces([], []), chunks, max);
    var p := PutChunks(Pieces([], []), chunks, max);
    ConcatSnoc(p.done, p.cache);
    NothingBefore(Concat(chunks));
    assert Concat<bv8>([]) + [] == [];
    assert p.done == [] ==> Concat(p.done) + p.cache == p.cache;
  }

  // ----- reassembly

  /** Section 5.8 of RFC 6184: the payload of a fragment is whole from its third byte on. */
  function PieceOf(payload: seq<bv8>): seq<bv8> {
    if |payload| < 2 then [] else payload[2..]
  }

  function PieceList(payloads: seq<seq<bv8>>): seq<seq<bv8>> {
    if payloads == [] then [] else [PieceOf(payloads[0])] + PieceList(payloads[1..])
  }

  /** One NAL unit in fragments: the first one starts it, the last one and no other ends it. */
  predicate FragmentsOfOne(payloads: seq<seq<bv8>>) {
    && |payloads| >= 2
    && (forall i :: 0 <= i < |payloads| ==> |payloads[i]| > 2)
    && forall i :: 0 <= i < |payloads| ==>
         && TypeOf(payloads[i][0]) == FU_A
         && IsStart(payloads[i][1]) == (i == 0) && IsEnd(payloads[i][1]) == (i == |payloads| - 1)
         && HeaderOf(payloads[i][0], payloads[i][1]) == HeaderOf(payloads[0][0], payloads[0][1])
  }

  /** Section 5.6: types 1 to 23 are NAL units of their own. */
  predicate SingleNalu(payload: seq<bv8>) {
    |payload| >= 1 && 1 <= TypeOf(payload[0]) <= 23
  }

  /** The NAL unit in the payloads that carry one. */
  function Reassembled(payloads: seq<seq<bv8>>): Option<Nalu> {
    if |payloads| == 1 && SingleNalu(payloads[0]) then Some(Nalu(payloads[0][0], payloads[0][1..]))
    else if FragmentsOfOne(payloads) then
      Some(Nalu(HeaderOf(payloads[0][0], payloads[0][1]), Concat(PieceList(payloads))))
    else None
  }

  function Payloads(packets: seq<Packet>): (payloads: seq<seq<bv8>>)
    ensures |payloads| == |packets| && forall i :: 0 <= i < |packets| ==> payloads[i] == packets[i].payload
  {
    if packets == [] then [] else [packets[0].payload] + Payloads(packets[1..])
  }

  lemma {:induction false} PieceListIs(payloads: seq<seq<bv8>>, pieces: seq<seq<bv8>>)
    requires |payloads| == |pieces| && forall i :: 0 <= i < |pieces| ==> PieceOf(payloads[i]) == pieces[i]
    ensures PieceList(payloads) == pieces
  {
    if pieces != [] {
      PieceListIs(payloads[1..], pieces[1..]);
      assert pieces == [pieces[0]] + pieces[1..];
    }
  }

  lemma FragmentParts(h: bv8, piece: seq<bv8>, first: bool, last: bool)
    ensures var p := FuPayload(h, piece, first, last);
            && |p| == |piece| + 2 && PieceOf(p) == piece && TypeOf(p[0]) == FU_A
            && IsStart(p[1]) == first && IsEnd(p[1]) == last && HeaderOf(p[0], p[1]) == h & 0x7f
  {
    FragmentHeaders(h, first, last);
  }

  /** Fragments come back together as the NAL unit they were cut from, without its forbidden bit. */
  lemma FragmentsReassemble(h: bv8, pieces: seq<seq<bv8>>)
    requires |pieces| >= 2 && forall i :: 0 <= i < |pieces| ==> |pieces[i]| > 0
    ensures Reassembled(Payloads(Fragments(h, pieces))) == Some(Nalu(h & 0x7f, Concat(pieces)))
  {
    hide IsStart, IsEnd, HeaderOf, TypeOf, FuPayload, PieceOf, Concat;
    var payloads := Payloads(Fragments(h, pieces));
    var n := |pieces|;
    forall i | 0 <= i < n
      ensures PieceOf(payloads[i]) == pieces[i] && |payloads[i]| > 2 && TypeOf(payloads[i][0]) == FU_A
      ensures IsStart(payloads[i][1]) == (i == 0) && IsEnd(payloads[i][1]) == (i == n - 1)
      ensures HeaderOf(payloads[i][0], payloads[i][1]) == h & 0x7f
    {
      FragmentParts(h, pieces[i], i == 0, i == n - 1);
    }
    PieceListIs(payloads, pieces);
  }

  /** A NAL unit comes back from its packets exactly if, when it fits one packet, its type is that of a
      NAL unit of its own and, when it needs fragments, its forbidden bit is off. */
  lemma PackagedComesBackIff(h: bv8, chunks: seq<seq<bv8>>, max: nat)
    requires max > 4
    ensures Reassembled(Payloads(Packaged(h, chunks, max))) == Some(Nalu(h, Concat(chunks)))
            <==> if FitsOne(chunks, max) then 1 <= TypeOf(h) <= 23 else Allowed(h)
  {
    if FitsOne(chunks, max) {
      var payload := [h] + Concat(chunks);
      assert payload[1..] == Concat(chunks);
      assert Payloads(Packaged(h, chunks, max))[0] == payload;
    } else {
      hide Reassembled, FitsOne;
      PiecesAreBody(chunks, max);
      FragmentsReassemble(h, PiecesOf(chunks, max));
      ForbiddenBit(h);
    }
  }

  /** In fragments, a header with the forbidden bit set comes back without it. */
  lemma ForbiddenBitIsLost(body: seq<bv8>)
    requires |body| == MIN_MAX_PAYLOAD
    ensures !FitsOne([body], MIN_MAX_PAYLOAD)
    ensures Reassembled(Payloads(Packaged(0x85, [body], MIN_MAX_PAYLOAD))) == Some(Nalu(0x05, body))
  {
    hide Reassembled, PiecesOf;
    ConcatOne(body);
    PiecesAreBody([body], MIN_MAX_PAYLOAD);
    FragmentsReassemble(0x85, PiecesOf([body], MIN_MAX_PAYLOAD));
  }

  /** In one packet, a header with the type of a fragment is not read as a NAL unit. */
  lemma FragmentTypeIsLost(body: seq<bv8>)
    requires |body| < MIN_MAX_PAYLOAD - 1
    ensures Reassembled(Payloads(Packaged(FU_A, [body], MIN_MAX_PAYLOAD))) == None
  {
    ConcatOne(body);
    assert Payloads(Packaged(FU_A, [body], MIN_MAX_PAYLOAD))[0] == [FU_A] + body;
  }

  /** The packets of a NAL unit: none is empty or longer than allowed, only the last carries the marker;
      of fragments only the first starts and only the last ends, no packet does both, and all but the
      last carry almost all that fits. */
  lemma PacketShapes(h: bv8, chunks: seq<seq<bv8>>, max: nat, i: nat)
    requires max > 4 && i < |Packaged(h, chunks, max)|
    ensures var packets := Packaged(h, chunks, max); var p := packets[i];
            && 0 < |p.payload| <= max && (p.marker <==> i == |packets| - 1)
            && (!FitsOne(chunks, max) ==>
                  && |packets| >= 2 && |p.payload| > 2
                  && (IsStart(p.payload[1]) <==> i == 0) && (IsEnd(p.payload[1]) <==> i == |packets| - 1)
                  && !(IsStart(p.payload[1]) && IsEnd(p.payload[1]))
                  && (i < |packets| - 1 ==> |p.payload| - 2 >= max - 4))
  {
    if !FitsOne(chunks, max) {
      hide FitsOne, PiecesOf, IsStart, IsEnd, FuPayload, HeaderOf, TypeOf, PieceOf;
      PiecesAreBody(chunks, max);
      var pieces := PiecesOf(chunks, max);
      FragmentParts(h, pieces[i], i == 0, i == |pieces| - 1);
    }
  }

  // ----- the bytes

  /** A body that leaves a byte of the limit free behind its header goes out in one packet, as it is. */
  lemma ShortBytes(h: bv8, chunks: seq<seq<bv8>>, max: nat)
    requires max > 4 && |Concat(chunks)| + 1 < max
    ensures Packaged(h, chunks, max) == [Packet([h] + Concat(chunks), true)]
  {
  }

  /** Any other goes out in at least two: behind two bytes, the importance of the unit with type 28 and its type with
      bit 7 in the first and bit 6 in the last, comes a piece of the body. */
  lemma FragmentBytes(h: bv8, chunks: seq<seq<bv8>>, max: nat, i: nat)
    requires max > 4 && |Concat(chunks)| + 1 >= max && i < |PiecesOf(chunks, max)|
    ensures var pieces := PiecesOf(chunks, max); var n := |pieces|;
            && n >= 2 && Concat(pieces) == Concat(chunks) && |Packaged(h, chunks, max)| == n
            && Packaged(h, chunks, max)[i]
               == Packet([(h & 0x60) | 28, (h & 0x1f) | (if i == 0 then 0x80 else 0) | (if i == n - 1 then 0x40 else 0)]
                         + pieces[i], i == n - 1)
  {
    hide PiecesOf, Indicator, FuHeader;
    PiecesAreBody(chunks, max);
    HeaderBytes(h, i == 0, i == |PiecesOf(chunks, max)| - 1);
  }

  lemma HeaderBytes(h: bv8, first: bool, last: bool)
    ensures Indicator(h) == (h & 0x60) | 28
    ensures FuHeader(h, first, last) == (h & 0x1f) | (if first then 0x80 else 0) | (if last then 0x40 else 0)
  {
  }

  lemma {:induction false} FullPieces(p: Pieces, chunk: seq<bv8>, max: nat)
    requires max > 4 && (|p.cache| + 2 == max || p.cache == []) && forall i :: 0 <= i < |p.done| ==> |p.done[i]| == max - 2
    ensures forall i :: 0 <= i < |PutChunk(p, chunk, max).done| ==> |PutChunk(p, chunk, max).done[i]| == max - 2
    decreases |chunk|
  {
    if chunk != [] {
      var q := WithRoom(p, max);
      var room := max - |q.cache| - 2;
      var limit := if room > |chunk| then |chunk| else room;
      var next := Pieces(q.done, q.cache + chunk[..limit]);
      if limit < |chunk| {
        FullPieces(next, chunk[limit..], max);
      } else {
        assert chunk[limit..] == [];
        assert PutChunk(next, [], max) == next;
      }
    }
  }

  /** Of a body that comes in one chunk, every piece but the last fills its packet. */
  lemma OneChunkFills(body: seq<bv8>, max: nat, i: nat)
    requires max > 4 && |body| + 1 >= max && i + 1 < |PiecesOf([body], max)|
    ensures |PiecesOf([body], max)[i]| == max - 2
  {
    FullPieces(Pieces([], []), body, max);
    OneChunkPieces(body, max);
  }

  lemma OneChunkPieces(body: seq<bv8>, max: nat)
    requires max > 4
    ensures PutChunks(Pieces([], []), [body], max) == PutChunk(Pieces([], []), body, max)
  {
    hide PutChunk;
    var p := PutChunk(Pieces([], []), body, max);
    assert [body][1..] == [];
    assert PutChunks(p, [], max) == p;
  }

  /** Where one chunk ends, its last piece is filled up from the next one if it lacks at least three bytes, and is left
      as it is otherwise. */
  lemma PieceAcrossChunks(p: Pieces, chunk: seq<bv8>, max: nat)
    requires max > 4 && 0 < |p.cache| && |p.cache| + 2 <= max && |chunk| + 2 == max
    ensures PutChunk(p, chunk, max)
            == if |p.cache| + 5 <= max
               then Pieces(p.done + [p.cache + chunk[..max - 2 - |p.cache|]], chunk[max - 2 - |p.cache|..])
               else Pieces(p.done + [p.cache], chunk)
  {
    if |p.cache| + 5 <= max {
      var n := max - 2 - |p.cache|;
      var next := Pieces(p.done, p.cache + chunk[..n]);
      var rest := chunk[n..];
      assert PutChunk(p, chunk, max) == PutChunk(next, rest, max);
      var last := Pieces(next.done + [next.cache], [] + rest[..|rest|]);
      assert PutChunk(next, rest, max) == PutChunk(last, rest[|rest|..], max);
      assert rest[..|rest|] == rest && rest[|rest|..] == [];
    } else {
      var last := Pieces(p.done + [p.cache], [] + chunk[..|chunk|]);
      assert PutChunk(p, chunk, max) == PutChunk(last, chunk[|chunk|..], max);
      assert chunk[..|chunk|] == chunk && chunk[|chunk|..] == [];
    }
  }

  // ----- the object

  class RtpPackager {
    const maxRtpPayload: nat
    var packets: seq<Packet>

    // what packageUseFuNALU keeps in its closures
    var open: bool
    var fuHeader: bv8
    var fuNaluHeader: bv8
    var cache: seq<seq<bv8>>
    var cacheSize: nat
    var start: bool

    constructor (max: int)
      ensures maxRtpPayload >= 1024 && packets == []
      ensures maxRtpPayload == if max == 0 then 1400 else if max < 1024 then 1024 else max
    {
      maxRtpPayload := if max == 0 then DEFAULT_MAX_PAYLOAD else if max < MIN_MAX_PAYLOAD then MIN_MAX_PAYLOAD else max;
      packets, open, fuHeader, fuNaluHeader, cache, cacheSize, start := [], false, 0, 0, [], 0, true;
    }

    /** The packets made so far, and what is gathered for the next one. */
    ghost predicate Gathering(before: seq<Packet>, h: bv8, p: Pieces)
      reads this
    {
      && packets == before + Started(h, p.done)
      && Concat(cache) == p.cache && cacheSize == |p.cache| && |p.cache| + 2 <= maxRtpPayload
      && (start <==> p.done == [] && !open)
      && (!open ==> p.cache == [])
      && (open ==> fuNaluHeader == Indicator(h) && fuHeader == FuHeader(h, p.done == [], false))
    }

    method InitPacket(h: bv8)
      modifies this`open, this`fuHeader, this`fuNaluHeader, this`start
      ensures open && !start && fuNaluHeader == Indicator(h) && fuHeader == FuHeader(h, old(start), false)
    {
      open := true;
      fuNaluHeader := 0;
      fuNaluHeader := WithNri(fuNaluHeader, NriOf(h));
      fuNaluHeader := WithType(fuNaluHeader, FU_A);
      fuHeader := 0;
      fuHeader := WithStart(fuHeader, start);
      fuHeader := WithType(fuHeader, TypeOf(h));
      start := false;
      EndIsOff(h, old(start));
    }

    method DoPackage(end: bool)
      requires open
      modifies this`open, this`fuHeader, this`cache, this`cacheSize, this`packets
      ensures !open && cache == [] && cacheSize == 0
      ensures packets == old(packets) + [Packet([fuNaluHeader, WithEnd(old(fuHeader), end)] + Concat(old(cache)), end)]
    {
      hide WithEnd;
      fuHeader := WithEnd(fuHeader, end);
      var head := [fuNaluHeader, fuHeader];
      var payload := head;
      NothingBehind(head);
      var i := 0;
      while i < |cache|
        invariant 0 <= i <= |cache|
        invariant packets == old(packets) && cache == old(cache) && head == [fuNaluHeader, WithEnd(old(fuHeader), end)]
        invariant payload == head + Concat(cache[..i])
      {
        ConcatSnoc(cache[..i], cache[i]);
        assert cache[..i + 1] == cache[..i] + [cache[i]];
        Assoc(head, Concat(cache[..i]), cache[i]);
        payload := payload + cache[i];
        i := i + 1;
      }
      assert cache[..i] == cache;
      packets := packets + [Packet(payload, end)];
      open, cache, cacheSize := false, [], 0;
    }

    /** A piece that is full goes out. */
    method FlushFull(h: bv8, ghost before: seq<Packet>, ghost p: Pieces)
      requires maxRtpPayload > 4 && Gathering(before, h, p) && open
      modifies this`open, this`fuHeader, this`cache, this`cacheSize, this`packets
      ensures Gathering(before, h, Pieces(p.done + [p.cache], []))
    {
      hide FuPayload, Indicator, FuHeader, WithEnd, Concat, Started;
      EndIsOff(h, p.done == []);
      StartedSnoc(h, p.done, p.cache);
      Assoc(before, Started(h, p.done), [Packet(FuPayload(h, p.cache, p.done == [], false), false)]);
      FuPayloadIs(h, p.cache, p.done == [], false);
      NoChunks<bv8>();
      DoPackage(false);
    }

    /** A packet with room for more than two bytes. */
    method MakeRoom(h: bv8, ghost before: seq<Packet>, ghost p: Pieces)
      requires maxRtpPayload > 4 && Gathering(before, h, p)
      modifies this`open, this`fuHeader, this`fuNaluHeader, this`start, this`cache, this`cacheSize, this`packets
      ensures Gathering(before, h, WithRoom(p, maxRtpPayload)) && open
    {
      hide Indicator, FuHeader, WithEnd, Concat, Started;
      var limit := maxRtpPayload - cacheSize - 2;
      if limit <= 2 {
        FlushFull(h, before, p);
      }
      if !open {
        InitPacket(h);
      }
    }

    /** One chunk of the body: full pieces go out, the rest is gathered. */
    method PutBodyChunk(h: bv8, all: seq<bv8>, ghost before: seq<Packet>, ghost p: Pieces)
      requires maxRtpPayload > 4 && Gathering(before, h, p)
      modifies this`open, this`fuHeader, this`fuNaluHeader, this`start, this`cache, this`cacheSize, this`packets
      ensures Gathering(before, h, PutChunk(p, all, maxRtpPayload))
    {
      hide Indicator, FuHeader, WithEnd, Concat, Started;
      var chunk := all;
      ghost var q := p;
      while |chunk| > 0
        invariant Gathering(before, h, q)
        invariant PutChunk(q, chunk, maxRtpPayload) == PutChunk(p, all, maxRtpPayload)
        decreases |chunk|
      {
        ghost var q1 := WithRoom(q, maxRtpPayload);
        MakeRoom(h, before, q);
        var limit := maxRtpPayload - cacheSize - 2;
        if limit > |chunk| {
          limit := |chunk|;
        }
        ConcatSnoc(cache, chunk[..limit]);
        q := Pieces(q1.done, q1.cache + chunk[..limit]);
        cache := cache + [chunk[..limit]];
        cacheSize := cacheSize + limit;
        chunk := chunk[limit..];
      }
    }

    /** packageUseFuNALU: the body in fragments. */
    method PackageFu(h: bv8, chunks: seq<seq<bv8>>)
      requires maxRtpPayload > 4 && !FitsOne(chunks, maxRtpPayload)
      modifies this`open, this`fuHeader, this`fuNaluHeader, this`start, this`cache, this`cacheSize, this`packets
      ensures packets == old(packets) + Fragments(h, PiecesOf(chunks, maxRtpPayload))
    {
      hide FuPayload, Indicator, FuHeader, WithEnd, Concat, PutChunk;
      open, cache, cacheSize, start := false, [], 0, true;
      ghost var before := packets;
      ghost var p := Pieces([], []);
      NothingBehind(before);
      NoChunks<bv8>();
      assert Started(h, []) == [];
      var i := 0;
      while i < |chunks|
        invariant 0 <= i <= |chunks|
        invariant Gathering(before, h, p)
        invariant PutChunks(p, chunks[i..], maxRtpPayload) == PutChunks(Pieces([], []), chunks, maxRtpPayload)
      {
        PutBodyChunk(h, chunks[i], before, p);
        PutFirst(p, chunks[i..], maxRtpPayload);
        assert chunks[i..][1..] == chunks[i + 1..];
        p := PutChunk(p, chunks[i], maxRtpPayload);
        i := i + 1;
      }
      PutNone(p, maxRtpPayload);
      LastIsOpen(chunks, maxRtpPayload);
      EndIsOff(h, p.done == []);
      FuPayloadIs(h, p.cache, p.done == [], true);
      FragmentsSnoc(h, p.done, p.cache);
      Assoc(before, Started(h, p.done), [Packet(FuPayload(h, p.cache, p.done == [], true), true)]);
      DoPackage(true);
    }

    /** Package: one packet if the NAL unit is short enough, else fragments. */
    method Package(h: bv8, chunks: seq<seq<bv8>>)
      requires maxRtpPayload > 4
      modifies this
      ensures packets == old(packets) + Packaged(h, chunks, maxRtpPayload)
    {
      hide PiecesOf, Concat;
      if |Concat(chunks)| + 1 < maxRtpPayload {
        packets := packets + [Packet([h] + Concat(chunks), true)];
      } else {
        PackageFu(h, chunks);
      }
    }
  }

  /** Fragments none of which is the last. */
  function Started(h: bv8, done: seq<seq<bv8>>): (packets: seq<Packet>)
    ensures |packets| == |done|
    ensures forall i :: 0 <= i < |done| ==> packets[i] == Packet(FuPayload(h, done[i], i == 0, false), false)
  {
    seq(|done|, i requires 0 <= i < |done| => Packet(FuPayload(h, done[i], i == 0, false), false))
  }

  lemma EndIsOff(h: bv8, first: bool)
    ensures WithType(WithStart(0, first), TypeOf(h)) == FuHeader(h, first, false)
    ensures forall end :: WithEnd(FuHeader(h, first, false), end) == FuHeader(h, first, end)
  {
  }

  lemma NoChunks<T>()
    ensures Concat<T>([]) == []
  {
  }

  lemma FuPayloadIs(h: bv8, piece: seq<bv8>, first: bool, last: bool)
    ensures FuPayload(h, piece, first, last) == [Indicator(h), FuHeader(h, first, last)] + piece
  {
  }

  lemma StartedSnoc(h: bv8, done: seq<seq<bv8>>, piece: seq<bv8>)
    ensures Started(h, done + [piece]) == Started(h, done) + [Packet(FuPayload(h, piece, done == [], false), false)]
  {
    hide FuPayload;
  }

  lemma FragmentsSnoc(h: bv8, done: seq<seq<bv8>>, piece: seq<bv8>)
    ensures Fragments(h, done + [piece]) == Started(h, done) + [Packet(FuPayload(h, piece, done == [], true), true)]
  {
    hide FuPayload;
  }

  lemma PutFirst(p: Pieces, chunks: seq<seq<bv8>>, max: nat)
    requires max > 4 && |p.cache| + 2 <= max && chunks != []
    ensures PutChunks(p, chunks, max) == PutChunks(PutChunk(p, chunks[0], max), chunks[1..], max)
  {
  }

  lemma PutNone(p: Pieces, max: nat)
    requires max > 4 && |p.cache| + 2 <= max
    ensures PutChunks(p, [], max) == p
  {
  }

  /** When the body is through there is a last piece. */
  lemma LastIsOpen(chunks: seq<seq<bv8>>, max: nat)
    requires max > 4 && !FitsOne(chunks, max)
    ensures PutChunks(Pieces([], []), chunks, max).cache != []
  {
    hide PutChunks;
    PutChunksKeeps(Pieces([], []), chunks, max);
  }
}
