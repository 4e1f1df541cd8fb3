/** The RTP packager of media/ps/rtp-packager.go: a frame becomes payloads of bounded size that
    concatenate to the serialised frame, and that the frame parser turns back into the frame. */
module PsRtp {
  import opened Bytes
  import opened Sequences
  import opened Options
  import opened PsPacks
  import opened PsMachine
  import opened PsPrint
  import opened PsRoundTrip
  import opened PsFrames
  import opened PsWeights
  import opened PsWriters

  datatype Packet = Packet(payload: seq<byte>, marker: bool)

  /** Pieces of max bytes, the last one shorter. */
  function Split(bytes: seq<byte>, max: nat): seq<seq<byte>>
    requires max > 0
  {
    if bytes == [] then []
    else if |bytes| <= max then [bytes]
    else [bytes[..max]] + Split(bytes[max..], max)
  }

  lemma {:induction false} SplitPieces(bytes: seq<byte>, max: nat)
    requires max > 0
    ensures Concat(Split(bytes, max)) == bytes
    ensures forall i :: 0 <= i < |Split(bytes, max)| ==> 0 < |Split(bytes, max)[i]| <= max
  {
    if bytes == [] {
    } else if |bytes| <= max {
      ConcatOne(bytes);
    } else {
      SplitPieces(bytes[max..], max);
      assert bytes[..max] + bytes[max..] == bytes;
    }
  }

  /** Full pieces and a last one are what splitting gives. */
  lemma {:induction false} SplitFull(pieces: seq<seq<byte>>, last: seq<byte>, max: nat)
    requires max > 0 && 0 < |last| <= max && forall i :: 0 <= i < |pieces| ==> |pieces[i]| == max
    ensures Split(Concat(pieces) + last, max) == pieces + [last]
  {
    if pieces == [] {
      assert Concat(pieces) + last == last && pieces + [last] == [last];
    } else {
      var all := Concat(pieces) + last;
      var rest := Concat(pieces[1..]) + last;
      assert all == pieces[0] + rest;
      assert all[..max] == pieces[0] && all[max..] == rest;
      SplitFull(pieces[1..], last, max);
      assert pieces + [last] == [pieces[0]] + (pieces[1..] + [last]);
    }
  }

  function Unmarked(pieces: seq<seq<byte>>): seq<Packet> {
    if pieces == [] then [] else [Packet(pieces[0], false)] + Unmarked(pieces[1..])
  }

  /** The packets of PES data: the marker is on the last one, if this PES ends its stream. */
  function Marked(pieces: seq<seq<byte>>, end: bool): seq<Packet> {
    if pieces == [] then []
    else if |pieces| == 1 then [Packet(pieces[0], end)]
    else [Packet(pieces[0], false)] + Marked(pieces[1..], end)
  }

  function Payloads(packets: seq<Packet>): seq<seq<byte>> {
    if packets == [] then [] else [packets[0].payload] + Payloads(packets[1..])
  }

  lemma {:induction false} PayloadsSplit(a: seq<Packet>, b: seq<Packet>)
    ensures Payloads(a + b) == Payloads(a) + Payloads(b)
  {
    if a == [] {
      assert a + b == b;
    } else {
      assert (a + b)[1..] == a[1..] + b;
      PayloadsSplit(a[1..], b);
    }
  }

  lemma {:induction false} UnmarkedPayloads(pieces: seq<seq<byte>>)
    ensures Payloads(Unmarked(pieces)) == pieces
  {
    if pieces != [] {
      UnmarkedPayloads(pieces[1..]);
    }
  }

  lemma {:induction false} MarkedPayloads(pieces: seq<seq<byte>>, end: bool)
    ensures Payloads(Marked(pieces, end)) == pieces
  {
    if |pieces| == 1 {
      var one := Packet(pieces[0], end);
      assert [one][1..] == [] && [pieces[0]] + [] == pieces;
      assert Payloads([one]) == [one.payload] + Payloads([one][1..]);
    } else if pieces != [] {
      MarkedPayloads(pieces[1..], end);
      assert Marked(pieces, end)[1..] == Marked(pieces[1..], end);
      assert [pieces[0]] + pieces[1..] == pieces;
    }
  }

  lemma {:induction false} MarkedSnoc(pieces: seq<seq<byte>>, last: seq<byte>, end: bool)
    ensures Marked(pieces + [last], end) == Unmarked(pieces) + [Packet(last, end)]
  {
    if pieces == [] {
      assert pieces + [last] == [last];
    } else {
      assert (pieces + [last])[1..] == pieces[1..] + [last];
      MarkedSnoc(pieces[1..], last, end);
    }
  }

  lemma {:induction false} UnmarkedSnoc(pieces: seq<seq<byte>>, last: seq<byte>)
    ensures Unmarked(pieces + [last]) == Unmarked(pieces) + [Packet(last, false)]
  {
    if pieces == [] {
      assert pieces + [last] == [last];
    } else {
      assert (pieces + [last])[1..] == pieces[1..] + [last];
      UnmarkedSnoc(pieces[1..], last);
    }
  }

  // ----- sizes

  /** Size of a pack header, system header or stream map; uint16 arithmetic for the stream map. */
  function PackSize(p: Option<Pack>): nat {
    match p
    case None => 0
    case Some(Psh(b)) => 14 + (if |b| == 10 then PackStuffingLength(b) else 0)
    case Some(Sys(headerLength, _, _)) => 6 + headerLength
    case Some(Psm(n, _, _, _, _, _)) => (6 + n) % 0x1_0000
    case Some(Pes(_, _)) => 0
  }

  /** Size of a PES header: uint8 arithmetic. */
  function HeaderSize(h: PesHeader): nat {
    if h.id == 0 then 0 else if h.Plain? then 9 else (9 + h.headerDataLength as int) % 0x100
  }

  function PrintSome(p: Option<Pack>): seq<byte> {
    match p
    case None => []
    case Some(q) => Print(q)
  }

  /** What goes into the buffer in front of PES i, and the size the buffer is given. */
  function Meta(f: Frame, i: nat): seq<byte>
    requires i < |f.pes| && f.pes[i].Pes?
  {
    (if i == 0 then Print(Psh(f.psh)) + PrintSome(f.sys) + PrintSome(f.psm) else [])
    + PrintPesHeader(f.pes[i].header)
  }

  function MetaSize(f: Frame, i: nat): nat
    requires i < |f.pes| && f.pes[i].Pes?
  {
    (if i == 0 then PackSize(Some(Psh(f.psh))) + PackSize(f.sys) + PackSize(f.psm) else 0)
    + HeaderSize(f.pes[i].header)
  }

  predicate IsFrame(f: Frame) {
    && |f.psh| == 10
    && (f.sys.Some? ==> f.sys.value.Sys?) && (f.psm.Some? ==> f.psm.value.Psm?)
    && (forall i :: 0 <= i < |f.pes| ==> f.pes[i].Pes?)
    && (forall i :: 0 <= i < |f.pes| && f.pes[i].header.Full? ==> MatchesFlags(f.pes[i].header))
  }

  predicate EndsStream(f: Frame, i: nat)
    requires IsFrame(f) && i < |f.pes|
  {
    forall j :: i < j < |f.pes| ==> f.pes[j].header.id != f.pes[i].header.id
  }

  function PesPackets(f: Frame, i: nat, max: nat): seq<Packet>
    requires IsFrame(f) && i < |f.pes| && max > 0
  {
    Unmarked(Split(Clip(Meta(f, i), MetaSize(f, i)), max)) + Marked(Split(f.pes[i].data, max), EndsStream(f, i))
  }

  /** The packets of a frame: for each PES its metadata and then its data. */
  function PacketsFrom(f: Frame, i: nat, max: nat): seq<Packet>
    requires IsFrame(f) && i <= |f.pes| && max > 0
    decreases |f.pes| - i
  {
    if i == |f.pes| then [] else PesPackets(f, i, max) + PacketsFrom(f, i + 1, max)
  }

  lemma PacketsSnoc(f: Frame, i: nat, n: nat, max: nat, packets: seq<Packet>)
    requires IsFrame(f) && i < |f.pes| && max > 0
    requires packets + PacketsFrom(f, i, max) == PacketsFrom(f, 0, max)
    ensures (packets + PesPackets(f, i, max)) + PacketsFrom(f, i + 1, max) == PacketsFrom(f, 0, max)
  {
    Assoc(packets, PesPackets(f, i, max), PacketsFrom(f, i + 1, max));
  }

  class RtpPackager {
    const maxRtpPayload: nat

    ghost predicate Valid() { maxRtpPayload >= 1024 }

    constructor (max: nat)
      ensures Valid() && maxRtpPayload == if max == 0 then 1400 else if max < 1024 then 1024 else max
    {
      maxRtpPayload := if max == 0 then 1400 else if max < 1024 then 1024 else max;
    }

    method PackageMetaData(data: seq<byte>) returns (packets: seq<Packet>)
      requires Valid()
      ensures packets == Unmarked(Split(data, maxRtpPayload))
    {
      packets := [];
      var rest := data;
      ghost var pieces: seq<seq<byte>> := [];
      assert pieces + Split(data, maxRtpPayload) == Split(data, maxRtpPayload);
      while rest != []
        invariant packets == Unmarked(pieces)
        invariant pieces + Split(rest, maxRtpPayload) == Split(data, maxRtpPayload)
        decreases |rest|
      {
        var limit := if |rest| > maxRtpPayload then maxRtpPayload else |rest|;
        packets := packets + [Packet(rest[..limit], false)];
        UnmarkedSnoc(pieces, rest[..limit]);
        assert limit == |rest| ==> rest[..limit] == rest && rest[limit..] == [];
        assert Split(rest, maxRtpPayload) == [rest[..limit]] + Split(rest[limit..], maxRtpPayload);
        Assoc(pieces, [rest[..limit]], Split(rest[limit..], maxRtpPayload));
        pieces := pieces + [rest[..limit]];
        rest := rest[limit..];
      }
      assert pieces + [] == pieces;
    }

    /** Packets already out are full pieces of what has been seen; the cache holds the rest. */
    ghost predicate Filled(packets: seq<Packet>, pieces: seq<seq<byte>>, cache: seq<byte>, seen: seq<byte>) {
      && packets == Unmarked(pieces) && (forall k :: 0 <= k < |pieces| ==> |pieces[k]| == maxRtpPayload)
      && |cache| <= maxRtpPayload && Concat(pieces) + cache == seen && (cache == [] ==> pieces == [])
    }

    /** One pass of the inner loop: a full cache goes out, and then as much as fits is added. */
    method Fill(packets: seq<Packet>, cache: seq<byte>, chunk: seq<byte>, ghost pieces: seq<seq<byte>>, ghost seen: seq<byte>)
      returns (packets': seq<Packet>, cache': seq<byte>, rest: seq<byte>, ghost pieces': seq<seq<byte>>)
      requires Valid() && Filled(packets, pieces, cache, seen) && chunk != []
      ensures |rest| < |chunk| && rest == chunk[|chunk| - |rest|..]
      ensures Filled(packets', pieces', cache', seen + chunk[..|chunk| - |rest|])
    {
      packets', cache', pieces' := packets, cache, pieces;
      if |cache| == maxRtpPayload {
        UnmarkedSnoc(pieces, cache);
        ConcatSnoc(pieces, cache);
        packets', cache', pieces' := packets + [Packet(cache, false)], [], pieces + [cache];
        assert Concat(pieces') + [] == Concat(pieces');
      }
      var limit := if maxRtpPayload - |cache'| > |chunk| then |chunk| else maxRtpPayload - |cache'|;
      Assoc(Concat(pieces'), cache', chunk[..limit]);
      cache' := cache' + chunk[..limit];
      rest := chunk[limit..];
    }

    /** The data of one PES, filled into packets across its chunks: a packet goes out when it is full
        and more is to come, and the last one at the end. */
    method PackagePesData(chunks: seq<seq<byte>>, end: bool) returns (packets: seq<Packet>)
      requires Valid()
      ensures packets == Marked(Split(Concat(chunks), maxRtpPayload), end)
    {
      packets := [];
      var cache: seq<byte> := [];
      ghost var pieces: seq<seq<byte>> := [];
      var i := 0;
      assert chunks[..0] == [];
      while i < |chunks|
        invariant 0 <= i <= |chunks|
        invariant Filled(packets, pieces, cache, Concat(chunks[..i]))
      {
        var chunk := chunks[i];
        assert Concat(chunks[..i]) + chunk[..0] == Concat(chunks[..i]);
        while chunk != []
          invariant |chunk| <= |chunks[i]| && chunk == chunks[i][|chunks[i]| - |chunk|..]
          invariant Filled(packets, pieces, cache, Concat(chunks[..i]) + chunks[i][..|chunks[i]| - |chunk|])
          decreases |chunk|
        {
          hide Filled;
          ghost var at := |chunks[i]| - |chunk|;
          ghost var had := chunk;
          packets, cache, chunk, pieces := Fill(packets, cache, chunk, pieces, Concat(chunks[..i]) + chunks[i][..at]);
          ghost var n := |had| - |chunk|;
          Assoc(Concat(chunks[..i]), chunks[i][..at], had[..n]);
          assert chunks[i][..at] + had[..n] == chunks[i][..at + n];
        }
        ConcatSnoc(chunks[..i], chunks[i]);
        assert chunks[..i] + [chunks[i]] == chunks[..i + 1] && chunks[i][..|chunks[i]|] == chunks[i];
        i := i + 1;
      }
      assert chunks[..i] == chunks;
      if cache != [] {
        SplitFull(pieces, cache, maxRtpPayload);
        MarkedSnoc(pieces, cache, end);
        packets := packets + [Packet(cache, end)];
      }
    }

    /** The metadata in front of one PES, printed into a buffer of the computed size. */
    method PrintMeta(f: Frame, i: nat) returns (bytes: seq<byte>)
      requires IsFrame(f) && i < |f.pes|
      ensures bytes == Clip(Meta(f, i), MetaSize(f, i))
    {
      hide Clip, MatchesFlags, PrintPesHeader, PackSize, HeaderSize;
      var w := new Writer(MetaSize(f, i));
      ghost var cap := w.buf.Length;
      ghost var front: seq<byte> := [];
      EmptyClip(cap);
      if i == 0 {
        assert [] + Print(Psh(f.psh)) == Print(Psh(f.psh));
        WritePsh(Psh(f.psh), w);
        front := Print(Psh(f.psh));
        if f.sys.Some? {
          WriteSys(f.sys.value, w);
          ClipTwice(front, Print(f.sys.value), cap);
        }
        assert front + [] == front;
        front := front + PrintSome(f.sys);
        if f.psm.Some? {
          WritePsm(f.psm.value, w);
          ClipTwice(front, Print(f.psm.value), cap);
        }
        assert front + [] == front;
        front := front + PrintSome(f.psm);
      }
      var ok := WritePesHeader(f.pes[i].header, w);
      ClipTwice(front, PrintPesHeader(f.pes[i].header), cap);
      bytes := w.buf[..w.off];
    }

    static lemma EmptyClip(n: nat)
      ensures Clip([], n) == []
    {
    }

    /** The last PES of each stream id: the map from stream id to index. */
    method StreamEnds(f: Frame) returns (ends: map<byte, nat>)
      requires IsFrame(f)
      ensures forall i :: 0 <= i < |f.pes| ==>
        f.pes[i].header.id in ends && (ends[f.pes[i].header.id] == i <==> EndsStream(f, i))
    {
      ends := map[];
      var n := 0;
      while n < |f.pes|
        invariant 0 <= n <= |f.pes|
        invariant forall i :: 0 <= i < n ==> f.pes[i].header.id in ends
        invariant forall id :: id in ends ==> 0 <= ends[id] < n && f.pes[ends[id]].header.id == id
        invariant forall id, j :: id in ends && ends[id] < j < n ==> f.pes[j].header.id != id
      {
        ends := ends[f.pes[n].header.id := n];
        n := n + 1;
      }
    }

    /** Package: a frame without PES packs gives no packet at all. */
    method Package(f: Frame, chunks: seq<seq<seq<byte>>>) returns (packets: seq<Packet>)
      requires Valid() && IsFrame(f) && |chunks| == |f.pes|
      requires forall i :: 0 <= i < |chunks| ==> Concat(chunks[i]) == f.pes[i].data
      ensures packets == PacketsFrom(f, 0, maxRtpPayload)
    {
      hide IsFrame, EndsStream, Meta, MetaSize, Clip, Split, Marked, Unmarked;
      var ends := StreamEnds(f);
      packets := [];
      var i := 0;
      assert packets + PacketsFrom(f, 0, maxRtpPayload) == PacketsFrom(f, 0, maxRtpPayload);
      while i < |f.pes|
        invariant 0 <= i <= |f.pes|
        invariant packets + PacketsFrom(f, i, maxRtpPayload) == PacketsFrom(f, 0, maxRtpPayload)
      {
        PesInFrame(f, i);
        var bytes := PrintMeta(f, i);
        var meta := PackageMetaData(bytes);
        var data := PackagePesData(chunks[i], ends[f.pes[i].header.id] == i);
        PacketsSnoc(f, i, |f.pes|, maxRtpPayload, packets);
        Assoc(packets, meta, data);
        packets := packets + meta + data;
        i := i + 1;
      }
      assert packets + [] == packets;
    }

    static lemma PesInFrame(f: Frame, i: nat)
      requires IsFrame(f) && i < |f.pes|
      ensures f.pes[i].Pes?
    {
    }
  }

  // ----- what the packets are

  predicate Bounded(payloads: seq<seq<byte>>, max: nat) {
    forall k :: 0 <= k < |payloads| ==> 0 < |payloads[k]| <= max
  }

  lemma BoundedSplit(a: seq<seq<byte>>, b: seq<seq<byte>>, max: nat)
    requires Bounded(a, max) && Bounded(b, max)
    ensures Bounded(a + b, max)
  {
  }

  lemma PacketsCons(f: Frame, i: nat, max: nat)
    requires IsFrame(f) && i < |f.pes| && max > 0
    ensures PacketsFrom(f, i, max) == PesPackets(f, i, max) + PacketsFrom(f, i + 1, max)
  {
    hide IsFrame, PesPackets;
  }

  lemma NoPackets(f: Frame, max: nat)
    requires IsFrame(f) && max > 0
    ensures Payloads(PacketsFrom(f, |f.pes|, max)) == []
  {
  }

  /** Every payload is non-empty and within the limit. */
  lemma {:induction false} PayloadsBounded(f: Frame, i: nat, max: nat)
    requires IsFrame(f) && i <= |f.pes| && max > 0
    ensures Bounded(Payloads(PacketsFrom(f, i, max)), max)
    decreases |f.pes| - i
  {
    hide IsFrame, Clip, Meta, MetaSize, Split, PesPackets, EndsStream, PacketsFrom, Payloads;
    if i == |f.pes| {
      NoPackets(f, max);
    } else {
      PesIsPes(f, i);
      var meta := Clip(Meta(f, i), MetaSize(f, i));
      PacketsCons(f, i, max);
      PesPayloads(f, i, max);
      PayloadsSplit(PesPackets(f, i, max), PacketsFrom(f, i + 1, max));
      SplitPieces(meta, max);
      SplitPieces(f.pes[i].data, max);
      BoundedSplit(Split(meta, max), Split(f.pes[i].data, max), max);
      PayloadsBounded(f, i + 1, max);
      BoundedSplit(Payloads(PesPackets(f, i, max)), Payloads(PacketsFrom(f, i + 1, max)), max);
    }
  }

  lemma PesPayloads(f: Frame, i: nat, max: nat)
    requires IsFrame(f) && i < |f.pes| && max > 0
    ensures Payloads(PesPackets(f, i, max)) == Split(Clip(Meta(f, i), MetaSize(f, i)), max) + Split(f.pes[i].data, max)
    ensures Concat(Payloads(PesPackets(f, i, max))) == Clip(Meta(f, i), MetaSize(f, i)) + f.pes[i].data
  {
    hide Clip, Meta, MetaSize, IsFrame;
    PesIsPes(f, i);
    var meta := Split(Clip(Meta(f, i), MetaSize(f, i)), max);
    var data := Split(f.pes[i].data, max);
    PayloadsSplit(Unmarked(meta), Marked(data, EndsStream(f, i)));
    UnmarkedPayloads(meta);
    MarkedPayloads(data, EndsStream(f, i));
    ConcatSplit(meta, data);
    SplitPieces(Clip(Meta(f, i), MetaSize(f, i)), max);
    SplitPieces(f.pes[i].data, max);
  }

  lemma PesIsPes(f: Frame, i: nat)
    requires IsFrame(f) && i < |f.pes|
    ensures f.pes[i].Pes?
  {
  }

  // ----- the payloads are the serialised frame

  function Maybe(p: Option<Pack>): seq<Pack> {
    match p
    case None => []
    case Some(q) => [q]
  }

  /** The packs of a frame in the order they are printed. */
  function FramePacks(f: Frame): seq<Pack> {
    [Psh(f.psh)] + Maybe(f.sys) + Maybe(f.psm) + f.pes
  }

  lemma {:induction false} PrintAllSplit(a: seq<Pack>, b: seq<Pack>)
    ensures PrintAll(a + b) == PrintAll(a) + PrintAll(b)
  {
    hide Print;
    if a == [] {
      assert a + b == b;
    } else {
      assert (a + b)[1..] == a[1..] + b;
      PrintAllSplit(a[1..], b);
      Assoc(Print(a[0]), PrintAll(a[1..]), PrintAll(b));
    }
  }

  /** The metadata and data of each PES from i on, clipped as the packager clips them or not. */
  function FrameFrom(f: Frame, i: nat, clipped: bool): seq<byte>
    requires IsFrame(f) && i <= |f.pes|
    decreases |f.pes| - i
  {
    if i == |f.pes| then []
    else (if clipped then Clip(Meta(f, i), MetaSize(f, i)) else Meta(f, i)) + f.pes[i].data + FrameFrom(f, i + 1, clipped)
  }

  lemma {:induction false} PayloadsConcat(f: Frame, i: nat, max: nat)
    requires IsFrame(f) && i <= |f.pes| && max > 0
    ensures Concat(Payloads(PacketsFrom(f, i, max))) == FrameFrom(f, i, true)
    decreases |f.pes| - i
  {
    hide IsFrame, Clip, Meta, MetaSize, PesPackets, Split, EndsStream;
    if i < |f.pes| {
      PesIsPes(f, i);
      var here := PesPackets(f, i, max);
      var later := PacketsFrom(f, i + 1, max);
      PacketsCons(f, i, max);
      FrameFromCons(f, i);
      hide FrameFrom, PacketsFrom, Payloads, Concat;
      assert Concat(Payloads(here + later)) == Concat(Payloads(here)) + Concat(Payloads(later)) by {
        PayloadsSplit(here, later);
        ConcatSplit(Payloads(here), Payloads(later));
      }
      assert Concat(Payloads(here)) == Clip(Meta(f, i), MetaSize(f, i)) + f.pes[i].data by {
        PesPayloads(f, i, max);
      }
      PayloadsConcat(f, i + 1, max);
    }
  }

  /** The buffer for the metadata of every PES from i on is large enough. */
  predicate SizesSuffice(f: Frame, i: nat)
    requires IsFrame(f) && i <= |f.pes|
  {
    forall k :: i <= k < |f.pes| ==> |Meta(f, k)| <= MetaSize(f, k)
  }

  /** One PES: what is printed of it, clipped or not, in front of what follows, clipped or not. */
  lemma ClipStep(m: seq<byte>, n: nat, d: seq<byte>, a: seq<byte>, b: seq<byte>, x: seq<byte>, y: seq<byte>)
    requires |a| <= |b| && x == Clip(m, n) + d + a && y == m + d + b
    ensures |x| <= |y|
    ensures x == y <==> |m| <= n && a == b
    ensures |x| == |y| <==> |m| <= n && |a| == |b|
  {
    if |m| <= n {
      SamePrefix(m + d, a, b);
    }
  }

  lemma SufficesCons(f: Frame, i: nat)
    requires IsFrame(f) && i < |f.pes|
    ensures SizesSuffice(f, i) <==> |Meta(f, i)| <= MetaSize(f, i) && SizesSuffice(f, i + 1)
  {
    hide Meta, MetaSize;
  }

  lemma FrameFromCons(f: Frame, i: nat)
    requires IsFrame(f) && i < |f.pes|
    ensures FrameFrom(f, i, true) == Clip(Meta(f, i), MetaSize(f, i)) + f.pes[i].data + FrameFrom(f, i + 1, true)
    ensures FrameFrom(f, i, false) == Meta(f, i) + f.pes[i].data + FrameFrom(f, i + 1, false)
  {
    hide Clip, Meta, MetaSize, IsFrame;
    PesIsPes(f, i);
  }

  lemma FrameFromEnd(f: Frame)
    requires IsFrame(f)
    ensures FrameFrom(f, |f.pes|, true) == [] == FrameFrom(f, |f.pes|, false) && SizesSuffice(f, |f.pes|)
  {
  }

  lemma {:induction false} ClippingLosesIff(f: Frame, i: nat)
    requires IsFrame(f) && i <= |f.pes|
    ensures |FrameFrom(f, i, true)| <= |FrameFrom(f, i, false)|
    ensures FrameFrom(f, i, true) == FrameFrom(f, i, false) <==> SizesSuffice(f, i)
    ensures |FrameFrom(f, i, true)| == |FrameFrom(f, i, false)| ==> SizesSuffice(f, i)
    decreases |f.pes| - i
  {
    hide IsFrame, Meta, MetaSize, Clip, FrameFrom, SizesSuffice;
    if i == |f.pes| {
      FrameFromEnd(f);
    } else {
      PesIsPes(f, i);
      FrameFromCons(f, i);
      SufficesCons(f, i);
      ClippingLosesIff(f, i + 1);
      ClipStep(Meta(f, i), MetaSize(f, i), f.pes[i].data, FrameFrom(f, i + 1, true), FrameFrom(f, i + 1, false),
               FrameFrom(f, i, true), FrameFrom(f, i, false));
    }
  }

  /** Behind the first PES there is no metadata but the header. */
  lemma LaterMeta(f: Frame, i: nat)
    requires 1 <= i < |f.pes| && f.pes[i].Pes?
    ensures Meta(f, i) + f.pes[i].data == Print(f.pes[i])
  {
    hide PrintPesHeader;
    NothingBefore(PrintPesHeader(f.pes[i].header));
  }

  lemma PrintAllCons(packs: seq<Pack>)
    requires packs != []
    ensures PrintAll(packs) == Print(packs[0]) + PrintAll(packs[1..])
  {
    hide Print;
  }

  lemma {:induction false} FrameFromIsPrinted(f: Frame, i: nat)
    requires IsFrame(f) && 1 <= i <= |f.pes|
    ensures FrameFrom(f, i, false) == PrintAll(f.pes[i..])
    decreases |f.pes| - i
  {
    hide IsFrame, FrameFrom, Meta, Print, PrintAll;
    if i == |f.pes| {
      FrameFromEnd(f);
      PrintNone();
    } else {
      PesIsPes(f, i);
      FrameFromIsPrinted(f, i + 1);
      FrameFromCons(f, i);
      LaterMeta(f, i);
      PrintAllCons(f.pes[i..]);
      assert f.pes[i..][1..] == f.pes[i + 1..];
    }
  }

  lemma PrintNone()
    ensures PrintAll([]) == []
  {
  }

  lemma WholeFrameIsPrinted(f: Frame)
    requires IsFrame(f) && f.pes != []
    ensures FrameFrom(f, 0, false) == PrintAll(FramePacks(f))
  {
    hide IsFrame, PrintPesHeader;
    PesIsPes(f, 0);
    FrameFromIsPrinted(f, 1);
    var front := [Psh(f.psh)] + Maybe(f.sys) + Maybe(f.psm);
    PrintAllSplit(front, f.pes);
    PrintAllSplit([Psh(f.psh)] + Maybe(f.sys), Maybe(f.psm));
    PrintAllSplit([Psh(f.psh)], Maybe(f.sys));
    PrintMaybe(Some(Psh(f.psh)));
    PrintMaybe(f.sys);
    PrintMaybe(f.psm);
    assert PrintAll(f.pes) == Print(f.pes[0]) + PrintAll(f.pes[1..]);
    var a := PrintAll(front);
    var h := PrintPesHeader(f.pes[0].header);
    Assoc(a, h, f.pes[0].data);
    Assoc(a, h + f.pes[0].data, PrintAll(f.pes[1..]));
  }

  lemma PrintMaybe(p: Option<Pack>)
    ensures PrintAll(Maybe(p)) == PrintSome(p)
  {
    hide Print;
    if p.Some? {
      assert PrintAll([p.value]) == Print(p.value) + PrintAll([]) == Print(p.value);
    }
  }

  /** The payloads concatenate to the serialised frame exactly when the frame has a PES pack and the
      size computed for each piece of metadata covers it. */
  lemma PayloadsAreFrameIff(f: Frame, max: nat)
    requires IsFrame(f) && max > 0
    ensures Concat(Payloads(PacketsFrom(f, 0, max))) == PrintAll(FramePacks(f))
            <==> f.pes != [] && SizesSuffice(f, 0)
  {
    hide IsFrame, Meta, MetaSize;
    PayloadsConcat(f, 0, max);
    ClippingLosesIff(f, 0);
    if f.pes != [] {
      WholeFrameIsPrinted(f);
    } else {
      assert PrintAll(FramePacks(f)) == Print(Psh(f.psh)) + PrintAll(FramePacks(f)[1..]);
      assert |Print(Psh(f.psh))| >= 4;
    }
  }

  /** The size computed for the metadata of PES i does not wrap. */
  predicate NoWrap(f: Frame, i: nat)
    requires IsFrame(f) && i < |f.pes|
  {
    (i == 0 && f.psm.Some? ==> f.psm.value.psmLength < 65530)
    && (f.pes[i].header.Full? ==> f.pes[i].header.headerDataLength <= 246)
  }

  lemma MetaFits(f: Frame, i: nat)
    requires IsFrame(f) && i < |f.pes|
    requires forall k :: 0 <= k < |FramePacks(f)| ==> WellFormed(FramePacks(f)[k])
    ensures |Meta(f, i)| <= MetaSize(f, i) <==> NoWrap(f, i)
  {
    hide WellFormed, PrintPesHeader, Consistent, PackSize, Print, PrintSome, IsFrame, FramePacks, HeaderWeight, HeaderSize;
    PesIsPes(f, i);
    PesAt(f, i);
    PesIsConsistent(f.pes[i]);
    HeaderPrintedSize(f.pes[i].header);
    HeaderFits(f.pes[i].header);
    FrontSizes(f);
  }

  lemma HeaderFits(h: PesHeader)
    requires h.id != 0
    ensures HeaderWeight(h) <= HeaderSize(h) <==> h.Full? ==> h.headerDataLength <= 246
    ensures HeaderSize(h) < HeaderWeight(h) + 256
  {
  }

  lemma PesIsConsistent(p: Pack)
    requires p.Pes? && WellFormed(p)
    ensures Consistent(p.header)
  {
  }

  /** For well-formed packs, the sizes cover the metadata exactly when no header data length exceeds 246
      and the stream map's length stays below 65530: beyond that the size computations wrap. */
  lemma SizesSufficeIff(f: Frame)
    requires IsFrame(f)
    requires forall i :: 0 <= i < |FramePacks(f)| ==> WellFormed(FramePacks(f)[i])
    ensures SizesSuffice(f, 0) <==> forall i :: 0 <= i < |f.pes| ==> NoWrap(f, i)
  {
    hide WellFormed, FramePacks, NoWrap, Meta, MetaSize, IsFrame;
    forall i | 0 <= i < |f.pes|
      ensures f.pes[i].Pes? && (|Meta(f, i)| <= MetaSize(f, i) <==> NoWrap(f, i))
    {
      PesIsPes(f, i);
      MetaFits(f, i);
    }
  }

  lemma HeaderPrintedSize(h: PesHeader)
    requires Consistent(h)
    ensures |PrintPesHeader(h)| == HeaderWeight(h) && h.id != 0
  {
    if h.Full? {
      PrintedDataSize(h);
      HeaderLayout(h);
    }
  }

  lemma PrintedDataSize(h: PesHeader)
    requires h.Full? && Consistent(h)
    ensures |PrintedData(h)| == h.headerDataLength
  {
    hide Survives;
    PrintedDataDecodesIff(h);
  }

  lemma PsmPrintedSize(p: Pack)
    requires p.Psm? && WellFormed(p)
    ensures |Print(p)| == Weight(p)
  {
    hide PrintInfos, PsmBody, Consistent, Survives;
    PsmLayout(p);
  }

  lemma SysPrintedSize(p: Pack)
    requires p.Sys? && WellFormed(p)
    ensures |Print(p)| == Weight(p)
  {
    hide PrintSysInfos;
  }

  lemma PshPrintedSize(p: Pack)
    requires p.Psh? && WellFormed(p)
    ensures |Print(p)| == Weight(p)
  {
    hide Stuff;
  }

  lemma PesPrintedSize(p: Pack)
    requires p.Pes? && WellFormed(p)
    ensures |Print(p)| == Weight(p)
  {
    hide PrintPesHeader, Consistent, Survives;
    HeaderPrintedSize(p.header);
  }

  /** A well-formed pack is printed in as many bytes as it says. */
  lemma PackPrintedSize(p: Pack)
    requires WellFormed(p)
    ensures |Print(p)| == Weight(p)
  {
    hide WellFormed, Print, Weight;
    match p
    case Psh(_) => PshPrintedSize(p);
    case Sys(_, _, _) => SysPrintedSize(p);
    case Psm(_, _, _, _, _, _) => PsmPrintedSize(p);
    case Pes(_, _) => PesPrintedSize(p);
  }

  /** The size computed for it is that, or wraps. */
  lemma SizeOfWeight(p: Pack)
    requires WellFormed(p) && !p.Pes?
    ensures Weight(p) == (if p.Psm? && p.psmLength >= 65530 then 65536 else 0) + PackSize(Some(p))
  {
    hide PrintInfos;
  }

  /** The metadata in front of the first PES header and the size computed for it. */
  lemma FrontSizes(f: Frame)
    requires IsFrame(f)
    requires forall i :: 0 <= i < |FramePacks(f)| ==> WellFormed(FramePacks(f)[i])
    ensures var printed := |Print(Psh(f.psh)) + PrintSome(f.sys) + PrintSome(f.psm)|;
            var computed := PackSize(Some(Psh(f.psh))) + PackSize(f.sys) + PackSize(f.psm);
            printed == computed + if f.psm.Some? && f.psm.value.psmLength >= 65530 then 65536 else 0
  {
    hide WellFormed, Print, Weight;
    assert FramePacks(f)[0] == Psh(f.psh);
    PackPrintedSize(Psh(f.psh));
    SizeOfWeight(Psh(f.psh));
    if f.sys.Some? {
      assert FramePacks(f)[1] == f.sys.value;
      PackPrintedSize(f.sys.value);
      SizeOfWeight(f.sys.value);
    }
    if f.psm.Some? {
      assert FramePacks(f)[if f.sys.Some? then 2 else 1] == f.psm.value;
      PackPrintedSize(f.psm.value);
      SizeOfWeight(f.psm.value);
    }
    hide PackSize;
  }

  // ----- feeding the payloads to the frame parser

  /** A stream map, if there is one, in front of data. */
  lemma MapSorted(f: Frame, hasSys: bool)
    requires IsFrame(f) && forall i :: 0 <= i < |f.pes| ==> f.pes[i].header.id != 0
    ensures var tail := Maybe(f.psm) + f.pes;
            SysOf(tail) == [] && PsmOf(tail) == Maybe(f.psm) && PesOf(tail) == f.pes
            && Duplicate(hasSys, false, tail).None?
  {
    OnlyPes(f.pes);
    hide MatchesFlags;
    var tail := Maybe(f.psm) + f.pes;
    if f.psm.Some? {
      assert tail[0] == f.psm.value && tail[1..] == f.pes;
    } else {
      NothingBefore(f.pes);
    }
  }

  /** Sorting the packs behind the header by kind gives the parts of the frame. */
  lemma PartsSorted(f: Frame)
    requires IsFrame(f) && forall i :: 0 <= i < |f.pes| ==> f.pes[i].header.id != 0
    ensures var body := Maybe(f.sys) + Maybe(f.psm) + f.pes;
            SysOf(body) == Maybe(f.sys) && PsmOf(body) == Maybe(f.psm) && PesOf(body) == f.pes
            && Duplicate(false, false, body).None?
  {
    MapSorted(f, f.sys.Some?);
    Assoc(Maybe(f.sys), Maybe(f.psm), f.pes);
    MaybeSys(f.sys, Maybe(f.psm) + f.pes);
  }

  lemma MaybeSys(sys: Option<Pack>, tail: seq<Pack>)
    requires (sys.Some? ==> sys.value.Sys?) && SysOf(tail) == []
    ensures var body := Maybe(sys) + tail;
            SysOf(body) == Maybe(sys) && PsmOf(body) == PsmOf(tail) && PesOf(body) == PesOf(tail)
            && Duplicate(false, false, body) == Duplicate(sys.Some?, false, tail)
  {
    if sys.Some? {
      var body := [sys.value] + tail;
      assert body[0] == sys.value && body[1..] == tail;
    } else {
      NothingBefore(tail);
    }
  }

  lemma OneSegment(f: Frame)
    requires IsFrame(f)
    ensures IsSegment(FramePacks(f))
    ensures FramePacks(f)[1..] == Maybe(f.sys) + Maybe(f.psm) + f.pes
  {
    hide MatchesFlags;
    var body := Maybe(f.sys) + Maybe(f.psm) + f.pes;
    assert FramePacks(f) == [Psh(f.psh)] + body;
    assert forall i :: 0 <= i < |body| ==> !body[i].Psh?;
  }

  lemma FrameIsSegment(f: Frame)
    requires IsFrame(f) && forall i :: 0 <= i < |f.pes| ==> f.pes[i].header.id != 0
    ensures Group(None, PackEvents(FramePacks(f))) == Grouping(Some(f), [])
  {
    PartsSorted(f);
    OneSegment(f);
    hide IsFrame, Group, SysOf, PsmOf, PesOf, Duplicate, IsSegment, PackEvents;
    var segment := FramePacks(f);
    SegmentGroups(None, segment);
    assert FrameOf(segment) == f && ErrorOf(segment) == None;
    assert Completed(None) + Errors(segment) == [];
  }

  lemma {:induction false} OnlyPes(pes: seq<Pack>)
    requires forall i :: 0 <= i < |pes| ==> pes[i].Pes? && pes[i].header.id != 0
    ensures SysOf(pes) == [] && PsmOf(pes) == [] && PesOf(pes) == pes
    ensures forall a, b :: Duplicate(a, b, pes).None?
  {
    if pes != [] {
      OnlyPes(pes[1..]);
    }
  }

  lemma LastPack(f: Frame)
    requires IsFrame(f) && f.pes != []
    ensures LastPends(FramePacks(f)) <==> f.pes[|f.pes| - 1].data == []
    ensures FramePacks(f)[..|FramePacks(f)| - 1] == FramePacks(f.(pes := f.pes[..|f.pes| - 1]))
  {
    hide MatchesFlags;
    var packs := FramePacks(f);
    assert packs[|packs| - 1] == f.pes[|f.pes| - 1];
  }

  lemma PesAt(f: Frame, i: nat)
    requires IsFrame(f) && i < |f.pes|
    ensures f.pes[i].Pes? && |FramePacks(f)| > |FramePacks(f)| - |f.pes| + i >= 0
    ensures f.pes[i] == FramePacks(f)[|FramePacks(f)| - |f.pes| + i]
  {
  }

  lemma IdsNotZero(f: Frame)
    requires IsFrame(f)
    requires forall i :: 0 <= i < |FramePacks(f)| ==> WellFormed(FramePacks(f)[i])
    ensures forall i :: 0 <= i < |f.pes| ==> f.pes[i].header.id != 0
  {
    forall i | 0 <= i < |f.pes|
      ensures f.pes[i].Pes? && f.pes[i].header.id != 0
    {
      hide FramePacks, WellFormed, IsFrame;
      PesAt(f, i);
      PesIsConsistent(f.pes[i]);
    }
  }

  lemma ShorterIsFrame(f: Frame)
    requires IsFrame(f) && f.pes != []
    ensures IsFrame(f.(pes := f.pes[..|f.pes| - 1]))
  {
  }

  lemma {:induction false} PrintsWeigh(packs: seq<Pack>)
    requires forall i :: 0 <= i < |packs| ==> WellFormed(packs[i])
    ensures |PrintAll(packs)| == PacksWeight(packs)
  {
    hide WellFormed, Print, Weight;
    if packs != [] {
      assert forall i :: 0 <= i < |packs[1..]| ==> packs[1..][i] == packs[i + 1];
      PrintsWeigh(packs[1..]);
      PackPrintedSize(packs[0]);
    }
  }

  lemma MaybeWeighs(p: Option<Pack>)
    ensures PacksWeight(Maybe(p)) == PartWeight(p)
  {
    hide Weight;
    if p.Some? {
      OnePack(p.value);
    }
  }

  lemma FramePacksWeigh(f: Frame)
    ensures PacksWeight(FramePacks(f)) == FrameWeight(f)
  {
    hide Weight, PacksWeight, PartWeight, Maybe;
    PacksWeightSplit([Psh(f.psh)] + Maybe(f.sys) + Maybe(f.psm), f.pes);
    PacksWeightSplit([Psh(f.psh)] + Maybe(f.sys), Maybe(f.psm));
    PacksWeightSplit([Psh(f.psh)], Maybe(f.sys));
    OnePack(Psh(f.psh));
    MaybeWeighs(f.sys);
    MaybeWeighs(f.psm);
  }

  /** A frame that comes back was not cut: its payloads have all of its bytes. */
  lemma CutFrameIsLost(f: Frame, max: nat)
    requires IsFrame(f) && max > 0
    requires forall i :: 0 <= i < |FramePacks(f)| ==> WellFormed(FramePacks(f)[i])
    requires Group(None, RunChunks(START, Payloads(PacketsFrom(f, 0, max))).0).current == Some(f)
    ensures f.pes != [] && forall i :: 0 <= i < |f.pes| ==> NoWrap(f, i)
  {
    hide WellFormed, IsFrame, FramePacks, NoWrap, Group, RunChunks, PacketsFrom, Payloads, FrameWeight, FrameFrom, PrintAll,
      Concat, PacksWeight;
    FrameWeighs(Payloads(PacketsFrom(f, 0, max)), f);
    FramePacksWeigh(f);
    PrintsWeigh(FramePacks(f));
    PayloadsConcat(f, 0, max);
    if f.pes == [] {
      FrameFromEnd(f);
      FrameWeighsSome(f);
    } else {
      ClippingLosesIff(f, 0);
      WholeFrameIsPrinted(f);
      SizesSufficeIff(f);
    }
  }

  lemma FrameWeighsSome(f: Frame)
    ensures FrameWeight(f) >= 14
  {
  }

  /** Packaging a frame and feeding the payloads to the frame parser, one by one, makes the frame its
      current one, ready for Complete, with no error: exactly when there is a last PES that carries data and no
      computed size wraps. A last PES without data is still pending in the parser and missing from the frame, and
      of cut metadata too few bytes arrive. */
  lemma PackagedFrameComesBackIff(f: Frame, max: nat)
    requires IsFrame(f) && max > 0
    requires forall i :: 0 <= i < |FramePacks(f)| ==> WellFormed(FramePacks(f)[i])
    ensures Group(None, RunChunks(START, Payloads(PacketsFrom(f, 0, max))).0) == Grouping(Some(f), [])
            <==> f.pes != [] && f.pes[|f.pes| - 1].data != [] && forall i :: 0 <= i < |f.pes| ==> NoWrap(f, i)
  {
    hide WellFormed, IsFrame, FramePacks, NoWrap, Group, RunChunks, PacketsFrom, Payloads;
    if f.pes != [] && forall i :: 0 <= i < |f.pes| ==> NoWrap(f, i) {
      UncutFrameComesBackIff(f, max);
    } else if Group(None, RunChunks(START, Payloads(PacketsFrom(f, 0, max))).0) == Grouping(Some(f), []) {
      CutFrameIsLost(f, max);
    }
  }

  lemma UncutFrameComesBackIff(f: Frame, max: nat)
    requires IsFrame(f) && max > 0 && f.pes != []
    requires forall i :: 0 <= i < |FramePacks(f)| ==> WellFormed(FramePacks(f)[i])
    requires forall i :: 0 <= i < |f.pes| ==> NoWrap(f, i)
    ensures f.pes[|f.pes| - 1].Pes?
    ensures Group(None, RunChunks(START, Payloads(PacketsFrom(f, 0, max))).0) == Grouping(Some(f), [])
            <==> f.pes[|f.pes| - 1].data != []
  {
    hide WellFormed, Print, PrintAll, NoWrap, Group, RunChunks, Run, PacketsFrom, Payloads, IsFrame, LastPends, FramePacks;
    IdsNotZero(f);
    PesIsPes(f, |f.pes| - 1);
    SizesSufficeIff(f);
    PayloadsAreFrameIff(f, max);
    ParseUndoesPrint(FramePacks(f), Payloads(PacketsFrom(f, 0, max)), []);
    LastPack(f);
    if f.pes[|f.pes| - 1].data != [] {
      FrameIsSegment(f);
    } else {
      var g := f.(pes := f.pes[..|f.pes| - 1]);
      ShorterIsFrame(f);
      FrameIsSegment(g);
      assert g.pes != f.pes;
    }
  }
}
