/** Which packet of a packaged frame (media/ps/rtp-packager.go) holds which bytes, and where the markers are. */
module PsMarkers {
  import opened Bytes
  import opened PsFrames
  import opened PsWriters
  import opened PsRtp

  /** How many packets of at most max bytes n bytes take. */
  function Count(n: nat, max: nat): nat
    requires max > 0
  {
    if n == 0 then 0 else if n <= max then 1 else 1 + Count(n - max, max)
  }

  /** The piece that starts at an offset: max bytes, or the last ones. */
  function PieceAt(bytes: seq<byte>, at: nat, max: nat): seq<byte> {
    if at > |bytes| then [] else if |bytes| - at <= max then bytes[at..] else bytes[at..at + max]
  }

  /** The length of j full packets. */
  function Full(j: nat, max: nat): nat {
    if j == 0 then 0 else Full(j - 1, max) + max
  }

  lemma {:induction false} FullIs(j: nat, max: nat)
    ensures Full(j, max) == j * max
  {
    if j > 0 {
      FullIs(j - 1, max);
    }
  }

  function MetaBytes(f: Frame, i: nat): seq<byte>
    requires IsFrame(f) && i < |f.pes|
  {
    Clip(Meta(f, i), MetaSize(f, i))
  }

  /** How many packets come before PES i, and before its data. */
  function Start(f: Frame, i: nat, max: nat): nat
    requires IsFrame(f) && i <= |f.pes| && max > 0
  {
    if i == 0 then 0
    else Start(f, i - 1, max) + Count(|MetaBytes(f, i - 1)|, max) + Count(|f.pes[i - 1].data|, max)
  }

  function DataStart(f: Frame, i: nat, max: nat): nat
    requires IsFrame(f) && i < |f.pes| && max > 0
  {
    Start(f, i, max) + Count(|MetaBytes(f, i)|, max)
  }

  // ----- pieces

  lemma {:induction false} CountBound(n: nat, j: nat, max: nat)
    requires max > 0 && j < Count(n, max)
    ensures Full(j, max) < n
  {
    if j > 0 {
      CountBound(n - max, j - 1, max);
    }
  }

  lemma SplitCons(bytes: seq<byte>, max: nat)
    requires max > 0
    ensures Split(bytes, max) == if bytes == [] then [] else if |bytes| <= max then [bytes] else [bytes[..max]] + Split(bytes[max..], max)
    ensures Count(|bytes|, max) == if |bytes| == 0 then 0 else if |bytes| <= max then 1 else 1 + Count(|bytes| - max, max)
    ensures Full(0, max) == 0 && PieceAt(bytes, 0, max) == if |bytes| <= max then bytes else bytes[..max]
  {
  }

  lemma {:induction false} SplitAt(bytes: seq<byte>, j: nat, max: nat)
    requires max > 0
    ensures |Split(bytes, max)| == Count(|bytes|, max)
    ensures j < Count(|bytes|, max) ==> Full(j, max) < |bytes| && Split(bytes, max)[j] == PieceAt(bytes, Full(j, max), max)
    decreases |bytes|
  {
    hide Split, PieceAt, Count, Full;
    SplitCons(bytes, max);
    if |bytes| > max {
      SplitAt(bytes[max..], if j == 0 then 0 else j - 1, max);
      if 0 < j < Count(|bytes|, max) {
        CountBound(|bytes|, j, max);
        FullNext(j, max);
        LaterPiece(bytes, Full(j - 1, max), max);
      }
    }
  }

  lemma FullNext(j: nat, max: nat)
    requires j > 0
    ensures Full(j, max) == Full(j - 1, max) + max
  {
  }

  lemma LaterPiece(bytes: seq<byte>, at: nat, max: nat)
    requires at + max <= |bytes|
    ensures PieceAt(bytes[max..], at, max) == PieceAt(bytes, at + max, max)
  {
  }

  lemma {:induction false} UnmarkedAt(pieces: seq<seq<byte>>)
    ensures |Unmarked(pieces)| == |pieces|
    ensures forall j :: 0 <= j < |pieces| ==> Unmarked(pieces)[j] == Packet(pieces[j], false)
  {
    if pieces != [] {
      UnmarkedAt(pieces[1..]);
    }
  }

  lemma {:induction false} MarkedAt(pieces: seq<seq<byte>>, end: bool)
    ensures |Marked(pieces, end)| == |pieces|
    ensures forall j :: 0 <= j < |pieces| ==> Marked(pieces, end)[j] == Packet(pieces[j], end && j == |pieces| - 1)
  {
    if |pieces| > 1 {
      MarkedAt(pieces[1..], end);
    }
  }

  // ----- where they are

  lemma PesCount(f: Frame, i: nat, max: nat)
    requires IsFrame(f) && i < |f.pes| && max > 0
    ensures |PesPackets(f, i, max)| == Start(f, i + 1, max) - Start(f, i, max)
  {
    hide IsFrame, Clip, Meta, MetaSize, Split, EndsStream, Unmarked, Marked;
    PesIsPes(f, i);
    SplitAt(MetaBytes(f, i), 0, max);
    SplitAt(f.pes[i].data, 0, max);
    UnmarkedAt(Split(MetaBytes(f, i), max));
    MarkedAt(Split(f.pes[i].data, max), EndsStream(f, i));
  }

  lemma {:induction false} StartGrows(f: Frame, i: nat, j: nat, max: nat)
    requires IsFrame(f) && i <= j <= |f.pes| && max > 0
    ensures Start(f, i, max) <= Start(f, j, max)
    decreases j - i
  {
    hide IsFrame, MetaBytes;
    if i < j {
      StartGrows(f, i, j - 1, max);
    }
  }

  /** The packets of one PES among those from an earlier one on. */
  lemma {:induction false} PesInPackets(f: Frame, i: nat, k: nat, max: nat)
    requires IsFrame(f) && i <= k < |f.pes| && max > 0
    ensures var (a, b, o) := (Start(f, k, max), Start(f, k + 1, max), Start(f, i, max));
            && o <= a <= b <= o + |PacketsFrom(f, i, max)|
            && PacketsFrom(f, i, max)[a - o..b - o] == PesPackets(f, k, max)
    decreases k - i
  {
    hide IsFrame, PesPackets, Start;
    var here := PesPackets(f, i, max);
    var later := PacketsFrom(f, i + 1, max);
    PacketsCons(f, i, max);
    PesCount(f, i, max);
    StartGrows(f, i, k, max);
    StartGrows(f, k, k + 1, max);
    hide PacketsFrom;
    if i == k {
      assert (here + later)[0..|here|] == here;
    } else {
      StartGrows(f, i + 1, k, max);
      PesInPackets(f, i + 1, k, max);
      var (a, b, o) := (Start(f, k, max), Start(f, k + 1, max), Start(f, i + 1, max));
      ShiftedSlice(here, later, a - o, b - o);
    }
  }

  lemma ShiftedSlice<T>(x: seq<T>, y: seq<T>, a: nat, b: nat)
    requires a <= b <= |y|
    ensures (x + y)[|x| + a..|x| + b] == y[a..b]
  {
  }

  lemma {:induction false} PacketCount(f: Frame, i: nat, max: nat)
    requires IsFrame(f) && i <= |f.pes| && max > 0
    ensures Start(f, i, max) + |PacketsFrom(f, i, max)| == Start(f, |f.pes|, max)
    decreases |f.pes| - i
  {
    hide IsFrame, PesPackets, Start;
    if i < |f.pes| {
      PacketsCons(f, i, max);
      PesCount(f, i, max);
      PacketCount(f, i + 1, max);
    }
  }

  /** Packet j of the metadata in front of PES i: its piece of the metadata, without marker. */
  lemma MetaPacket(f: Frame, i: nat, j: nat, max: nat)
    requires IsFrame(f) && i < |f.pes| && max > 0 && j < Count(|MetaBytes(f, i)|, max)
    ensures var k := Start(f, i, max) + j;
            k < |PacketsFrom(f, 0, max)| && PacketsFrom(f, 0, max)[k] == Packet(PieceAt(MetaBytes(f, i), Full(j, max), max), false)
  {
    hide IsFrame, Clip, Meta, MetaSize, Split, EndsStream, Unmarked, Marked, PacketsFrom, Start, Full, Count;
    PesInPackets(f, 0, i, max);
    PesCount(f, i, max);
    NoneBeforeFirst(f, max);
    var all := PacketsFrom(f, 0, max);
    SplitAt(MetaBytes(f, i), j, max);
    UnmarkedAt(Split(MetaBytes(f, i), max));
    assert PesPackets(f, i, max)[j] == Unmarked(Split(MetaBytes(f, i), max))[j];
    InSlice(all, Start(f, i, max), Start(f, i + 1, max), j);
  }

  lemma NoneBeforeFirst(f: Frame, max: nat)
    requires IsFrame(f) && max > 0
    ensures Start(f, 0, max) == 0
  {
  }

  lemma InSlice<T>(s: seq<T>, a: nat, b: nat, j: nat)
    requires a <= b <= |s| && j < b - a
    ensures s[a..b][j] == s[a + j]
  {
  }

  /** Packet j of the data of PES i: its piece of the data. It is marked exactly if it is the last one and no PES of
      that stream id comes behind. */
  lemma DataPacket(f: Frame, i: nat, j: nat, max: nat)
    requires IsFrame(f) && i < |f.pes| && max > 0 && j < Count(|f.pes[i].data|, max)
    ensures f.pes[i].Pes?
    ensures var k := DataStart(f, i, max) + j; var data := f.pes[i].data;
            && k < |PacketsFrom(f, 0, max)|
            && PacketsFrom(f, 0, max)[k].payload == PieceAt(data, Full(j, max), max)
            && (PacketsFrom(f, 0, max)[k].marker <==>
                  j == Count(|data|, max) - 1 && forall l :: i < l < |f.pes| ==> f.pes[l].header.id != f.pes[i].header.id)
  {
    hide IsFrame, Clip, Meta, MetaSize, Split, Unmarked, Marked, PacketsFrom, Start, Full, Count;
    PesIsPes(f, i);
    PesInPackets(f, 0, i, max);
    PesCount(f, i, max);
    NoneBeforeFirst(f, max);
    StartNext(f, i, max);
    var all := PacketsFrom(f, 0, max);
    var n := Count(|MetaBytes(f, i)|, max);
    SplitAt(MetaBytes(f, i), 0, max);
    UnmarkedAt(Split(MetaBytes(f, i), max));
    SplitAt(f.pes[i].data, j, max);
    MarkedAt(Split(f.pes[i].data, max), EndsStream(f, i));
    assert PesPackets(f, i, max)[n + j] == Marked(Split(f.pes[i].data, max), EndsStream(f, i))[j];
    InSlice(all, Start(f, i, max), Start(f, i + 1, max), n + j);
  }

  lemma StartNext(f: Frame, i: nat, max: nat)
    requires IsFrame(f) && i < |f.pes| && max > 0
    ensures Start(f, i + 1, max) == DataStart(f, i, max) + Count(|f.pes[i].data|, max)
    ensures Start(f, i, max) <= DataStart(f, i, max)
  {
    hide IsFrame, MetaBytes;
  }

  /** Every packet is of the metadata or the data of some PES. */
  lemma {:induction false} Belongs(f: Frame, n: nat, k: nat, max: nat) returns (i: nat)
    requires IsFrame(f) && n <= |f.pes| && max > 0 && k < Start(f, n, max)
    ensures i < n && Start(f, i, max) <= k < Start(f, i + 1, max)
  {
    hide IsFrame, MetaBytes;
    if k >= Start(f, n - 1, max) {
      i := n - 1;
    } else {
      i := Belongs(f, n - 1, k, max);
    }
  }

  /** The last packet of the data of PES i, which ends its stream. */
  predicate EndsAt(f: Frame, i: nat, k: nat, max: nat)
    requires IsFrame(f) && i < |f.pes| && max > 0
  {
    f.pes[i].data != [] && k + 1 == Start(f, i + 1, max)
    && forall l :: i < l < |f.pes| ==> f.pes[l].header.id != f.pes[i].header.id
  }

  /** A packet of a frame is marked exactly if it is the last packet of the data of a PES behind which none of
      that stream id comes. */
  lemma MarkedIff(f: Frame, k: nat, max: nat)
    requires IsFrame(f) && max > 0 && k < |PacketsFrom(f, 0, max)|
    ensures PacketsFrom(f, 0, max)[k].marker <==> exists i :: 0 <= i < |f.pes| && EndsAt(f, i, k, max)
  {
    hide IsFrame, MetaBytes, PacketsFrom, Start;
    PacketCount(f, 0, max);
    NoneBeforeFirst(f, max);
    var i := Belongs(f, |f.pes|, k, max);
    MarkedHere(f, i, k, max);
    forall l | 0 <= l < |f.pes| && EndsAt(f, l, k, max) ensures l == i {
      DataCounts(f, l, max);
      StartNext(f, l, max);
      if l < i {
        StartGrows(f, l + 1, i, max);
      } else if l > i {
        StartGrows(f, i + 1, l, max);
      }
    }
  }

  lemma DataCounts(f: Frame, i: nat, max: nat)
    requires IsFrame(f) && i < |f.pes| && max > 0
    ensures Count(|f.pes[i].data|, max) == 0 <==> f.pes[i].data == []
  {
  }

  lemma MarkedHere(f: Frame, i: nat, k: nat, max: nat)
    requires IsFrame(f) && i < |f.pes| && max > 0 && Start(f, i, max) <= k < Start(f, i + 1, max)
    ensures k < |PacketsFrom(f, 0, max)| && (PacketsFrom(f, 0, max)[k].marker <==> EndsAt(f, i, k, max))
  {
    hide IsFrame, MetaBytes, PacketsFrom, Start, Count, DataStart;
    StartNext(f, i, max);
    DataCounts(f, i, max);
    if k < DataStart(f, i, max) {
      DataStartIs(f, i, max);
      MetaPacket(f, i, k - Start(f, i, max), max);
    } else {
      DataPacket(f, i, k - DataStart(f, i, max), max);
    }
  }

  lemma DataStartIs(f: Frame, i: nat, max: nat)
    requires IsFrame(f) && i < |f.pes| && max > 0
    ensures DataStart(f, i, max) == Start(f, i, max) + Count(|MetaBytes(f, i)|, max)
  {
  }

  /** Behind a marked packet no data of its stream follows; so a stream has at most one. */
  lemma NothingBehindMarker(f: Frame, i: nat, k: nat, i2: nat, k2: nat, max: nat)
    requires IsFrame(f) && max > 0 && i < |f.pes| && EndsAt(f, i, k, max)
    requires i2 < |f.pes| && f.pes[i2].header.id == f.pes[i].header.id
    requires DataStart(f, i2, max) <= k2 < Start(f, i2 + 1, max)
    ensures k2 <= k && (EndsAt(f, i2, k2, max) ==> k2 == k)
  {
    hide IsFrame, MetaBytes, Start, DataStart;
    StartGrows(f, i2 + 1, i + 1, max);
  }
}
