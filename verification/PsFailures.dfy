/** Inputs at which program stream packs do not come back: one for each condition of the round trips. */
module PsFailures {
  import opened Bytes
  import opened Sequences
  import opened Options
  import opened PsPacks
  import opened PsMachine
  import opened PsPrint
  import opened PsRoundTrip
  import opened PsFrames
  import opened PsRtp

  /** A header of a video stream with the given flags and fields. */
  function VideoHeader(packetLength: nat, flags: byte, headerDataLength: byte, esRate: seq<byte>, trickMode: seq<byte>,
                       ext: Extension): PesHeader {
    Full(0xE0, packetLength, 0x80, flags, headerDataLength, [], [], [], esRate, trickMode, [], [], ext)
  }

  /** A trick mode byte behind an ES rate is looked for in the rate itself. */
  lemma EsRateIsLost()
    ensures var h := VideoHeader(7, 0x18, 4, [1, 2, 3], [9], NoExtension);
            && Consistent(h) && EsRateFlag(h.flags) && !Survives(h)
            && !Parses(Pes(h, []), [], Run(START, Print(Pes(h, [])) + []))
            && DecodePesHeader(h.id, h.packetLength, h.b0, h.flags, h.headerDataLength, Fields(h)) != Ok(h)
  {
    var h := VideoHeader(7, 0x18, 4, [1, 2, 3], [9], NoExtension);
    assert AfterEsRate(h)[0] == 9 && h.esRate[0] == 1;
    hide Run, Parses, Print, DecodePesHeader;
    PesParsesIff(Pes(h, []), []);
    EsRateDecodesIff(h, []);
    NothingBehind(Fields(h));
  }

  /** With a trick mode byte that repeats the rate's first one, it comes back. */
  lemma RepeatedEsRateComesBack()
    ensures var h := VideoHeader(7, 0x18, 4, [1, 2, 3], [1], NoExtension);
            && Consistent(h) && EsRateFlag(h.flags) && Survives(h)
            && Parses(Pes(h, []), [], Run(START, Print(Pes(h, [])) + []))
  {
    var h := VideoHeader(7, 0x18, 4, [1, 2, 3], [1], NoExtension);
    assert AfterEsRate(h) == [1] && [1, 2, 3][..1] == [1];
    hide Run, Parses, Print;
    PesParsesIff(Pes(h, []), []);
  }

  /** An extension with no field of its own stays in the writer's buffer. */
  lemma ExtensionIsLost()
    ensures var h := VideoHeader(4, 1, 1, [], [], Extension(0, [], [], [], [], []));
            && Consistent(h) && !EsRateFlag(h.flags) && !Flushed(h.ext)
            && PrintPesHeader(h) != EncodePesHeader(h)
            && !Parses(Pes(h, []), [], Run(START, Print(Pes(h, [])) + []))
  {
    var h := VideoHeader(4, 1, 1, [], [], Extension(0, [], [], [], [], []));
    hide Run, Parses, Print, PrintPesHeader, EncodePesHeader;
    PesParsesIff(Pes(h, []), []);
    PrintIsEncodeIff(h);
  }

  /** A system header of fewer bytes than it has at least passes the check exactly with a length of 2 or 5:
      the stream infos are then expected to be 65532 or 65535 bytes long. */
  lemma ShortSysPassesIff(raw: seq<byte>)
    requires |raw| == 8 && BigEndian16(raw) < 6
    ensures Fire(KSys, raw) != Fail(SysHeaderLengthError) <==> BigEndian16(raw) == 2 || BigEndian16(raw) == 5
    ensures Fire(KSys, raw).Go? ==> Need(Fire(KSys, raw).state.kind) == 65530 + BigEndian16(raw)
  {
    hide BigEndian16;
  }

  // ----- frames

  /** A frame of a pack header and one PES with a header of nothing but stuffing. */
  function VideoFrame(psm: Option<Pack>, headerDataLength: byte, data: seq<byte>): Frame {
    Frame(Zeros(10), None, psm, [Pes(VideoHeader(3 + headerDataLength as int + |data|, 0, headerDataLength, [], [], NoExtension), data)])
  }

  lemma VideoFrameOk(psm: Option<Pack>, headerDataLength: byte, data: seq<byte>)
    requires |data| < 0x1000 && (psm.Some? ==> psm.value.Psm? && WellFormed(psm.value))
    ensures var f := VideoFrame(psm, headerDataLength, data);
            && IsFrame(f) && forall i :: 0 <= i < |FramePacks(f)| ==> WellFormed(FramePacks(f)[i])
  {
    hide PrintInfos;
  }

  /** With a header data length of 247 the computed size is 0 instead of 256, and the header is cut off. */
  lemma HeaderSizeWraps(max: nat)
    requires max > 0
    ensures var f := VideoFrame(None, 247, [1]);
            && IsFrame(f) && (forall i :: 0 <= i < |FramePacks(f)| ==> WellFormed(FramePacks(f)[i]))
            && HeaderSize(f.pes[0].header) == 0
            && Concat(Payloads(PacketsFrom(f, 0, max))) != PrintAll(FramePacks(f))
  {
    hide IsFrame, FramePacks, WellFormed, PacketsFrom, PrintAll;
    var f := VideoFrame(None, 247, [1]);
    VideoFrameOk(None, 247, [1]);
    WrappedSizeCuts(f, max);
  }

  /** A stream map of 65530 bytes, all but ten of them descriptors. */
  function LongMap(): (p: Pack)
    ensures p.Psm? && p.psmLength == 65530
  {
    Psm(65530, 0, 0, Zeros(65520), [], [0, 0, 0, 0])
  }

  lemma LongMapOk()
    ensures WellFormed(LongMap())
  {
    hide Zeros;
  }

  /** It counts as empty. */
  lemma StreamMapSizeWraps(max: nat)
    requires max > 0
    ensures var f := VideoFrame(Some(LongMap()), 0, [1]);
            && IsFrame(f) && (forall i :: 0 <= i < |FramePacks(f)| ==> WellFormed(FramePacks(f)[i]))
            && PackSize(Some(LongMap())) == 0
            && Concat(Payloads(PacketsFrom(f, 0, max))) != PrintAll(FramePacks(f))
  {
    hide IsFrame, FramePacks, WellFormed, PacketsFrom, PrintAll, LongMap;
    LongMapOk();
    VideoFrameOk(Some(LongMap()), 0, [1]);
    WrappedSizeCuts(VideoFrame(Some(LongMap()), 0, [1]), max);
  }

  lemma WrappedSizeCuts(f: Frame, max: nat)
    requires IsFrame(f) && (forall i :: 0 <= i < |FramePacks(f)| ==> WellFormed(FramePacks(f)[i]))
    requires f.pes != [] && !NoWrap(f, 0) && max > 0
    ensures Concat(Payloads(PacketsFrom(f, 0, max))) != PrintAll(FramePacks(f))
  {
    hide IsFrame, FramePacks, WellFormed, PacketsFrom, PrintAll, SizesSuffice;
    SizesSufficeIff(f);
    PayloadsAreFrameIff(f, max);
  }

  /** A last PES without data does not come back. */
  lemma EmptyLastPesIsPending(max: nat)
    requires max > 0
    ensures var f := VideoFrame(None, 0, []);
            && IsFrame(f) && (forall i :: 0 <= i < |FramePacks(f)| ==> WellFormed(FramePacks(f)[i])) && NoWrap(f, 0)
            && Group(None, RunChunks(START, Payloads(PacketsFrom(f, 0, max))).0) != Grouping(Some(f), [])
  {
    var f := VideoFrame(None, 0, []);
    VideoFrameOk(None, 0, []);
    hide IsFrame, FramePacks, WellFormed, PacketsFrom, Group, RunChunks;
    PackagedFrameComesBackIff(f, max);
  }
}
