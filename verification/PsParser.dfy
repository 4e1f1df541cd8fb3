/** The incremental parser object of media/ps/parser.go, proved to take the steps of the machine. */
module PsParser {
  import opened Bytes
  import opened Sequences
  import opened Options
  import opened StartCode
  import opened NeedParsers
  import opened PsPacks
  import opened PsMachine

  datatype ParserState =
    | FindStartCode
    | ParsePsh
    | ParsePshStuffing
    | ParseSys
    | ParseSysStreamInfos
    | ParsePsmPacketLength
    | ParsePsmHeader
    | ParsePesPacketLength
    | ParseHeaderDataLength
    | ParsePesHeader
    | ParsePacketData

  /** The loop of parseSYSStreamInfos. */
  method ReadSysInfos(raw: seq<byte>) returns (infos: seq<SysStreamInfo>)
    ensures infos == DecodeSysInfos(raw)
  {
    var rest := raw;
    var i := 0;
    infos := [];
    while i < |raw| / 3
      invariant 0 <= i <= |raw| / 3 && |rest| == |raw| - 3 * i
      invariant infos + DecodeSysInfos(rest) == DecodeSysInfos(raw)
    {
      infos := infos + [SysStreamInfo(rest[0], rest[1], rest[2])];
      rest := rest[3..];
      i := i + 1;
    }
  }

  /** The loop of parsePSMHeader over the elementary stream map. */
  method ReadInfos(raw: seq<byte>) returns (r: Result<seq<ElementaryStreamInfo>>)
    ensures r == DecodeInfos(raw, |raw|, 0)
  {
    hide EntryLength;
    var rest, min := raw, 0;
    var infos: seq<ElementaryStreamInfo> := [];
    assert DecodeInfos(raw, |raw|, 0).Ok? ==> [] + DecodeInfos(raw, |raw|, 0).value == DecodeInfos(raw, |raw|, 0).value;
    while |rest| >= 4
      invariant min >= 0
      invariant DecodeInfos(raw, |raw|, 0)
                == match DecodeInfos(rest, |raw|, min) case Ok(more) => Ok(infos + more) case Err(e) => Err(e)
      decreases |rest|
    {
      var length := EntryLength(rest, |raw|, min);
      match length
      case Err(e) => return Err(e);
      case Ok((n, min2)) =>
        ghost var before := infos;
        ghost var entry := ElementaryStreamInfo(rest[0], rest[1], rest[4..4 + n]);
        ghost var more := DecodeInfos(rest[4 + n..], |raw|, min2);
        assert more.Ok? ==> before + ([entry] + more.value) == before + [entry] + more.value;
        infos := infos + [ElementaryStreamInfo(rest[0], rest[1], rest[4..4 + n])];
        rest, min := rest[4 + n..], min2;
    }
    if |rest| > 0 {
      return Err(PsmMapLengthError);
    }
    assert infos + [] == infos;
    r := Ok(infos);
  }

  class Parser {
    const finder: StartCodeFinder
    const needParser: NeedParser
    var state: ParserState
    /** The last byte of the start code last found. */
    var startCode: byte
    var bytes10: seq<byte>
    var headerLength: nat
    var bytes6: seq<byte>
    var sysInfos: seq<SysStreamInfo>
    var psm: Pack
    var pesLength: nat
    var pesB0: byte
    var pesFlags: byte
    var headerDataLength: byte
    var pesHeader: PesHeader
    var pesChunks: seq<seq<byte>>

    /** What the parser collects bytes for. */
    ghost function Collected(): Kind
      requires !state.FindStartCode? && !state.ParsePshStuffing?
      reads this
    {
      match state
      case ParsePsh => KPsh
      case ParseSys => KSys
      case ParseSysStreamInfos => KSysInfos(headerLength, bytes6)
      case ParsePsmPacketLength => KPsmLength
      case ParsePsmHeader => KPsmBody(if psm.Psm? then psm.psmLength else 0)
      case ParsePesPacketLength => KPesLength(startCode)
      case ParseHeaderDataLength => KPesFixed(startCode, pesLength)
      case ParsePesHeader => KPesHeader(startCode, pesLength, pesB0, pesFlags, headerDataLength)
      case ParsePacketData => KPesData(pesHeader)
    }

    /** The machine state the fields stand for. */
    ghost function Abs(): State
      requires finder.Valid()
      reads this, finder, finder.buffer, needParser
    {
      match state
      case FindStartCode => Finding(finder.Carry())
      case ParsePshStuffing => Stuffing(bytes10, needParser.size)
      case _ => Needing(Collected(), Concat(needParser.cache))
    }

    /** The start code belongs to what is being parsed. */
    ghost predicate CodeMatches()
      reads this
    {
      match state
      case FindStartCode => true
      case ParsePsh => startCode == PACK_START
      case ParsePshStuffing => startCode == PACK_START
      case ParseSys => startCode == SYSTEM_START
      case ParseSysStreamInfos => startCode == SYSTEM_START
      case ParsePsmPacketLength => startCode == PROGRAM_STREAM_MAP
      case ParsePsmHeader => startCode == PROGRAM_STREAM_MAP && psm.Psm?
      case ParsePacketData => IsPes(startCode) && pesHeader.id == startCode
      case _ => IsPes(startCode)
    }

    ghost predicate Valid()
      reads this, finder, finder.buffer, needParser
    {
      && finder.Valid() && CodeMatches() && InDomain(Abs())
      && match state
         case FindStartCode => needParser.cache == [] && needParser.size == 0
         case ParsePshStuffing =>
           needParser.Skipping() && finder.Carry() == [] && |bytes10| == 10 && needParser.need == PackStuffingLength(bytes10)
         case _ =>
           needParser.Collecting() && needParser.need == Need(Collected()) && finder.Carry() == []
    }

    static predicate IsPes(id: byte) {
      id != PACK_START && id != SYSTEM_START && id != PROGRAM_STREAM_MAP
    }

    constructor ()
      ensures Valid() && Abs() == START && Cleared()
      ensures fresh(finder) && fresh(finder.buffer) && fresh(needParser)
    {
      finder := new StartCodeFinder();
      needParser := new NeedParser();
      state := FindStartCode;
      startCode, bytes10, headerLength, bytes6, sysInfos := 0, [], 0, [], [];
      psm := Psm(0, 0, 0, [], [], []);
      pesLength, pesB0, pesFlags, headerDataLength, pesHeader, pesChunks := 0, 0, 0, 0, Plain(0, 0), [];
    }

    /** Pack: what was completed last, by its start code. */
    function Pack(): Pack
      reads this
    {
      if startCode == PACK_START then Psh(bytes10)
      else if startCode == SYSTEM_START then Sys(headerLength, bytes6, sysInfos)
      else if startCode == PROGRAM_STREAM_MAP then psm
      else Pes(pesHeader, Concat(pesChunks))
    }

    /** A complete PES carries the start code it was found behind. */
    ghost predicate CodeOfPack()
      reads this
    {
      IsPes(startCode) ==> pesHeader.id == startCode
    }

    /** SetSYS and SetPSM with fresh packs, as a caller does once it has taken a pack: the parser
        appends stream infos to the packs it is given. */
    ghost predicate Cleared()
      reads this
    {
      sysInfos == [] && (psm.Psm? ==> psm.infos == [])
    }

    /** Hands over the complete pack and sets a fresh one in its place; behind start code 0 there is none. */
    method TakePack() returns (pack: Option<Pack>)
      requires Valid() && Abs().Finding?
      modifies this
      ensures Valid() && Abs() == old(Abs()) && Cleared()
      ensures pack == if old(startCode) == 0 then None else Some(old(Pack()))
    {
      pack := if startCode == 0 then None else Some(Pack());
      sysInfos := [];
      psm := Psm(0, 0, 0, [], [], []);
      pesChunks := [];
    }

    method Reset()
      requires finder.Valid()
      modifies this, finder, needParser
      ensures Valid() && Abs() == START && Cleared()
    {
      sysInfos := [];
      psm := Psm(0, 0, 0, [], [], []);
      pesChunks := [];
      needParser.Reset();
      state := FindStartCode;
      finder.Reset();
      startCode := 0;
    }

    /** One state method: it takes the machine's step. An error leaves the fields to Reset. */
    method FindCode(data: seq<byte>) returns (remain: seq<byte>)
      requires Valid() && Cleared() && state.FindStartCode? && data != []
      modifies this, finder, finder.buffer, needParser
      ensures Valid() && Cleared() && Advance(old(Abs()), data) == Step(Abs(), remain, [])
    {
      hide FindIn, BigEndian16, SysInfoSize;
      FoundCarriesNothing(finder.Carry(), data);
      var code, rest, ok := finder.Find(data);
      remain := rest;
      startCode := code[3];
      if ok {
        if startCode == PACK_START {
          state := ParsePsh;
          needParser.SetNeed(10);
        } else if startCode == SYSTEM_START {
          state := ParseSys;
          needParser.SetNeed(8);
        } else if startCode == PROGRAM_STREAM_MAP {
          state := ParsePsmPacketLength;
          needParser.SetNeed(2);
        } else {
          state := ParsePesPacketLength;
          needParser.SetNeed(2);
        }
        CollectingNext();
      }
    }

    static lemma FoundCarriesNothing(carry: seq<byte>, data: seq<byte>)
      requires InDomain(Finding(carry)) && data != []
      ensures FindIn(carry + data).Carried? ==> InDomain(Finding(FindIn(carry + data).carry))
    {
      hide Rank, FindIn;
      FindingProgress(carry, data);
    }

    /** The first half of a state method: collects the bytes the state needs. */
    method Collect(data: seq<byte>) returns (remain: seq<byte>, ok: bool, raw: seq<byte>)
      requires Valid() && !state.FindStartCode? && !state.ParsePshStuffing? && data != []
      modifies needParser
      ensures var k := Collected();
              if ok
              then |raw| == Need(k) && InDomain(Needing(k, raw))
                   && Advance(old(Abs()), data) == StepOf(Fire(k, raw), remain)
                   && needParser.cache == [] && needParser.size == 0 && Concat(needParser.chunks) == raw
              else Valid() && Advance(old(Abs()), data) == Step(Abs(), remain, [])
    {
      hide Fire, Need;
      ghost var k := Collected();
      ghost var acc := Concat(needParser.cache);
      remain, ok := needParser.Parse(data);
      raw := needParser.Merge();
      assert k == Collected();
      assert ok ==> raw == acc + data[..Need(k) - |acc|];
      assert InDomain(Needing(k, acc));
    }

    lemma CollectingFacts()
      requires Valid() && !state.FindStartCode? && !state.ParsePshStuffing?
      ensures finder.Valid() && finder.Carry() == [] && CodeMatches()
      ensures Abs().Needing? && Abs().kind == Collected() && InDomain(Abs())
    {
      hide FindIn, Need;
    }

    /** The fields after a state method has set up the next state to collect for. */
    lemma CollectingNext()
      requires finder.Valid() && finder.Carry() == [] && CodeMatches()
      requires !state.FindStartCode? && !state.ParsePshStuffing?
      requires needParser.cache == [] && needParser.size == 0 && needParser.need == Need(Collected())
      requires InDomain(Needing(Collected(), []))
      ensures Valid() && Abs() == Needing(Collected(), [])
    {
      assert Concat(needParser.cache) == [];
    }

    lemma FindingNext()
      requires finder.Valid() && finder.Carry() == [] && state.FindStartCode?
      requires needParser.cache == [] && needParser.size == 0
      ensures Valid() && Abs() == START
    {
      assert FindIn([]).Carried?;
    }

    method ReadPsh(data: seq<byte>) returns (remain: seq<byte>)
      requires Valid() && Cleared() && state.ParsePsh? && data != []
      modifies this, needParser
      ensures Valid() && Cleared() && Advance(old(Abs()), data) == Step(Abs(), remain, [])
    {
      hide Advance;
      var ok, raw;
      remain, ok, raw := Collect(data);
      if ok {
        bytes10 := raw;
        state := ParsePshStuffing;
        needParser.SetNeed(PackStuffingLength(bytes10));
      }
    }

    method SkipStuffing(data: seq<byte>) returns (remain: seq<byte>, ok: bool)
      requires Valid() && Cleared() && state.ParsePshStuffing? && data != []
      modifies this, needParser
      ensures Valid() && Advance(old(Abs()), data) == Step(Abs(), remain, if ok then [Packed(Pack())] else [])
      ensures !ok ==> Cleared()
      ensures ok ==> Abs() == START
      ensures ok ==> CodeOfPack()
    {
      remain, ok := needParser.Skip(data);
      if ok {
        state := FindStartCode;
        FindingNext();
      }
    }

    method ReadSys(data: seq<byte>) returns (remain: seq<byte>, err: Option<PsError>)
      requires Valid() && Cleared() && state.ParseSys? && data != []
      modifies this, needParser
      ensures err.None? ==> Valid() && Cleared() && Advance(old(Abs()), data) == Step(Abs(), remain, [])
      ensures err.Some? ==> finder.Valid() && Advance(old(Abs()), data) == Step(START, remain, [Failed(err.value)])
    {
      hide Advance, BigEndian16, FindIn, Valid, Abs;
      CollectingFacts();
      var ok, raw;
      err := None;
      remain, ok, raw := Collect(data);
      if ok {
        headerLength := BigEndian16(raw);
        var size := SysInfoSize(headerLength);
        if size % 3 != 0 {
          return remain, Some(SysHeaderLengthError);
        }
        bytes6 := raw[2..];
        state := ParseSysStreamInfos;
        needParser.SetNeed(size);
        CollectingNext();
      }
    }

    method ReadSysStreamInfos(data: seq<byte>) returns (remain: seq<byte>, ok: bool)
      requires Valid() && Cleared() && state.ParseSysStreamInfos? && data != []
      modifies this, needParser
      ensures Valid() && Advance(old(Abs()), data) == Step(Abs(), remain, if ok then [Packed(Pack())] else [])
      ensures !ok ==> Cleared()
      ensures ok ==> Abs() == START
      ensures ok ==> CodeOfPack()
    {
      hide Advance, DecodeSysInfos;
      var raw;
      remain, ok, raw := Collect(data);
      if ok {
        var infos := ReadSysInfos(raw);
        sysInfos := sysInfos + infos;
        assert sysInfos == infos;
        state := FindStartCode;
        FindingNext();
      }
    }

    method ReadPsmPacketLength(data: seq<byte>) returns (remain: seq<byte>, err: Option<PsError>)
      requires Valid() && Cleared() && state.ParsePsmPacketLength? && data != []
      modifies this, needParser
      ensures err.None? ==> Valid() && Cleared() && Advance(old(Abs()), data) == Step(Abs(), remain, [])
      ensures err.Some? ==> finder.Valid() && Advance(old(Abs()), data) == Step(START, remain, [Failed(err.value)])
    {
      hide Advance, BigEndian16;
      var ok, raw;
      err := None;
      remain, ok, raw := Collect(data);
      if ok {
        var n := BigEndian16(raw);
        psm := Psm(n, 0, 0, [], [], []);
        if n < 10 {
          return remain, Some(PsmLengthError);
        }
        state := ParsePsmHeader;
        needParser.SetNeed(n);
        CollectingNext();
      }
    }

    /** The decoding of parsePSMHeader. */
    method DecodeStreamMap(raw: seq<byte>) returns (r: Result<Pack>)
      requires psm.Psm? && |raw| == psm.psmLength >= 10
      ensures r == DecodePsm(psm.psmLength, raw)
    {
      var infoLength := BigEndian16(raw[2..]);
      var min := (10 + infoLength) % 0x1_0000;
      if psm.psmLength < min {
        return Err(PsmLengthError);
      }
      if |raw| < 4 + infoLength + 2 {
        return Err(Fault);
      }
      var mapLength := BigEndian16(raw[4 + infoLength..]);
      var rest := raw[6 + infoLength..];
      min := (min + mapLength) % 0x1_0000;
      if psm.psmLength < min {
        return Err(PsmLengthError);
      }
      if |rest| < mapLength {
        return Err(Fault);
      }
      var infos := ReadInfos(rest[..mapLength]);
      if infos.Err? {
        return Err(infos.error);
      }
      var tail := rest[mapLength..];
      if |tail| < 4 {
        return Err(Fault);
      }
      if |tail| > 4 {
        return Err(PsmLengthError);
      }
      r := Ok(Psm(psm.psmLength, raw[0], raw[1], raw[4..4 + infoLength], infos.value, tail));
    }

    method ReadPsmHeader(data: seq<byte>) returns (remain: seq<byte>, ok: bool, err: Option<PsError>)
      requires Valid() && Cleared() && state.ParsePsmHeader? && data != []
      modifies this, needParser
      ensures err.None? ==>
        Valid() && Advance(old(Abs()), data) == Step(Abs(), remain, if ok then [Packed(Pack())] else [])
        && if ok then Abs() == START else Cleared()
      ensures err.Some? ==> !ok
      ensures err.Some? ==> finder.Valid() && Advance(old(Abs()), data) == Step(START, remain, [Failed(err.value)])
      ensures ok ==> CodeOfPack()
    {
      hide Advance, DecodePsm;
      var raw;
      err := None;
      remain, ok, raw := Collect(data);
      if ok {
        var r := DecodeStreamMap(raw);
        match r
        case Err(e) =>
          return remain, false, Some(e);
        case Ok(p) =>
          psm := p;
          state := FindStartCode;
          PsmIsPsm(raw);
          FindingNext();
      }
    }

    lemma PsmIsPsm(raw: seq<byte>)
      requires |raw| >= 10 && DecodePsm(|raw|, raw).Ok?
      ensures DecodePsm(|raw|, raw).value.Psm?
    {
    }

    method ReadPesPacketLength(data: seq<byte>) returns (remain: seq<byte>, err: Option<PsError>)
      requires Valid() && Cleared() && state.ParsePesPacketLength? && data != []
      modifies this, needParser
      ensures err.None? ==> Valid() && Cleared() && Advance(old(Abs()), data) == Step(Abs(), remain, [])
      ensures err.Some? ==> finder.Valid() && Advance(old(Abs()), data) == Step(START, remain, [Failed(err.value)])
    {
      hide Advance, BigEndian16, HasNoHeader, FindIn, Fire, Valid, Abs, InDomain;
      CollectingFacts();
      var ok, raw;
      err := None;
      remain, ok, raw := Collect(data);
      if ok {
        FirePesLength(startCode, raw);
        pesLength := BigEndian16(raw);
        if HasNoHeader(startCode) {
          pesHeader := Plain(startCode, pesLength);
          state := ParsePacketData;
          needParser.SetNeed(pesLength);
        } else {
          if pesLength < 3 {
            return remain, Some(PesLengthError);
          }
          state := ParseHeaderDataLength;
          needParser.SetNeed(3);
        }
        CollectingNext();
      }
    }

    static lemma FirePesLength(id: byte, raw: seq<byte>)
      requires |raw| == 2
      ensures var n := BigEndian16(raw);
              Fire(KPesLength(id), raw)
              == (if HasNoHeader(id) then Go(Needing(KPesData(Plain(id, n)), []))
                 else if n < 3 then Fail(PesLengthError)
                 else Go(Needing(KPesFixed(id, n), [])))
      ensures InDomain(Needing(KPesData(Plain(id, BigEndian16(raw))), []))
      ensures BigEndian16(raw) >= 3 ==> InDomain(Needing(KPesFixed(id, BigEndian16(raw)), []))
    {
      hide BigEndian16, HasNoHeader, FindIn;
    }

    static lemma FirePesFixed(id: byte, n: nat, raw: seq<byte>)
      requires |raw| == 3 && InDomain(Needing(KPesFixed(id, n), raw))
      ensures var next := Needing(KPesHeader(id, n, raw[0], raw[1], raw[2]), []);
              && Fire(KPesFixed(id, n), raw) == (if n < 3 + raw[2] as int then Fail(PesLengthError) else Go(next))
              && (n >= 3 + raw[2] as int ==> InDomain(next))
    {
      hide FindIn;
    }

    method ReadHeaderDataLength(data: seq<byte>) returns (remain: seq<byte>, err: Option<PsError>)
      requires Valid() && Cleared() && state.ParseHeaderDataLength? && data != []
      modifies this, needParser
      ensures err.None? ==> Valid() && Cleared() && Advance(old(Abs()), data) == Step(Abs(), remain, [])
      ensures err.Some? ==> finder.Valid() && Advance(old(Abs()), data) == Step(START, remain, [Failed(err.value)])
    {
      hide Advance, FindIn, Fire, Valid, Abs, InDomain;
      CollectingFacts();
      var ok, raw;
      err := None;
      remain, ok, raw := Collect(data);
      if ok {
        FirePesFixed(startCode, pesLength, raw);
        headerDataLength := raw[2];
        if pesLength < 3 + headerDataLength as int {
          return remain, Some(PesLengthError);
        }
        pesB0, pesFlags := raw[0], raw[1];
        state := ParsePesHeader;
        needParser.SetNeed(headerDataLength);
        CollectingNext();
      }
    }

    static lemma FirePesHeader(id: byte, n: nat, b0: byte, flags: byte, hdl: byte, raw: seq<byte>)
      requires |raw| == hdl as int && n >= 3 + hdl as int
      ensures Fire(KPesHeader(id, n, b0, flags, hdl), raw)
              == match DecodePesHeader(id, n, b0, flags, hdl, raw)
                 case Ok(h) => Go(Needing(KPesData(h), []))
                 case Err(e) => Fail(e)
    {
      hide DecodePesHeader, FindIn;
    }

    method ReadPesHeader(data: seq<byte>) returns (remain: seq<byte>, err: Option<PsError>)
      requires Valid() && Cleared() && state.ParsePesHeader? && data != []
      modifies this, needParser
      ensures err.None? ==> Valid() && Cleared() && Advance(old(Abs()), data) == Step(Abs(), remain, [])
      ensures err.Some? ==> finder.Valid() && Advance(old(Abs()), data) == Step(START, remain, [Failed(err.value)])
    {
      hide Advance, DecodePesHeader, FindIn, Fire, Valid, Abs;
      CollectingFacts();
      var ok, raw;
      err := None;
      remain, ok, raw := Collect(data);
      if ok {
        FirePesHeader(startCode, pesLength, pesB0, pesFlags, headerDataLength, raw);
        var r := DecodePesHeader(startCode, pesLength, pesB0, pesFlags, headerDataLength, raw);
        match r
        case Err(e) =>
          return remain, Some(e);
        case Ok(h) =>
          DecodedKeeps(startCode, pesLength, pesB0, pesFlags, headerDataLength, raw);
          pesHeader := h;
          state := ParsePacketData;
          needParser.SetNeed(pesLength - headerDataLength as int - 3);
          CollectingNext();
      }
    }

    method ReadPacketData(data: seq<byte>) returns (remain: seq<byte>, ok: bool)
      requires Valid() && Cleared() && state.ParsePacketData? && data != []
      modifies this, needParser
      ensures Valid() && Advance(old(Abs()), data) == Step(Abs(), remain, if ok then [Packed(Pack())] else [])
      ensures !ok ==> Cleared()
      ensures ok ==> Abs() == START
      ensures ok ==> CodeOfPack()
    {
      hide Advance;
      var raw;
      remain, ok, raw := Collect(data);
      if ok {
        pesChunks := needParser.chunks;
        state := FindStartCode;
        FindingNext();
      }
    }

    /** The switch inside the loop of Parse. */
    method StepOnce(data: seq<byte>) returns (remain: seq<byte>, ok: bool, err: Option<PsError>)
      requires Valid() && Cleared() && data != []
      modifies this, finder, finder.buffer, needParser
      ensures finder.Valid() && (ok ==> err.None?)
      ensures err.None? ==> Valid() && if ok then Abs() == START else Cleared()
      ensures ok ==> CodeOfPack()
      ensures Advance(old(Abs()), data)
              == if err.Some? then Step(START, remain, [Failed(err.value)])
                 else Step(Abs(), remain, if ok then [Packed(Pack())] else [])
    {
      hide Advance, InDomain, FindIn, Pack;
      ok, err := false, None;
      match state
      case FindStartCode => remain := FindCode(data);
      case ParsePsh => remain := ReadPsh(data);
      case ParsePshStuffing => remain, ok := SkipStuffing(data);
      case ParseSys => remain, err := ReadSys(data);
      case ParseSysStreamInfos => remain, ok := ReadSysStreamInfos(data);
      case ParsePsmPacketLength => remain, err := ReadPsmPacketLength(data);
      case ParsePsmHeader => remain, ok, err := ReadPsmHeader(data);
      case ParsePesPacketLength => remain, err := ReadPesPacketLength(data);
      case ParseHeaderDataLength => remain, err := ReadHeaderDataLength(data);
      case ParsePesHeader => remain, err := ReadPesHeader(data);
      case ParsePacketData => remain, ok := ReadPacketData(data);
    }

    /** Parse: stops at the first pack or error; what it answers, and then what the machine makes of
        the remaining bytes, is what the machine makes of all of them. */
    method Parse(data: seq<byte>) returns (ok: bool, remain: seq<byte>, err: Option<PsError>)
      requires Valid() && Cleared()
      modifies this, finder, finder.buffer, needParser
      ensures Valid() && (ok ==> err.None?) && (!ok ==> Cleared())
      ensures ok || err.Some? ==> Abs() == START
      ensures ok ==> CodeOfPack()
      ensures !ok && err.None? ==> remain == []
      ensures Run(old(Abs()), data) == Then(Answer(ok, Pack(), err), Run(Abs(), remain))
      ensures |remain| < |data| || (remain == data && (data == [] || Rank(Abs()) < Rank(old(Abs()))))
    {
      hide Advance, InDomain, Progress, Run, Rank, Pack, FindIn;
      remain, ok, err := data, false, None;
      ThenNothing(Run(Abs(), data));
      while remain != []
        invariant Valid() && Cleared() && !ok && err.None?
        invariant Run(Abs(), remain) == Run(old(Abs()), data)
        invariant |remain| < |data| || (remain == data && Rank(Abs()) <= Rank(old(Abs())))
        decreases |remain|, Rank(Abs())
      {
        ghost var before := Abs();
        ghost var had := remain;
        assert Progress(before, had, Advance(before, had)) by { AdvanceStaysInDomain(before, had); }
        RunUnfold(before, had);
        remain, ok, err := StepOnce(remain);
        MakesProgress(before, had, Advance(before, had));
        if err.Some? {
          Reset();
          return;
        }
        if ok {
          return;
        }
        ThenNothing(Run(Abs(), remain));
      }
    }

    static lemma MakesProgress(s: State, data: seq<byte>, t: Step)
      requires Progress(s, data, t)
      ensures |t.remain| < |data| || (t.remain == data && Rank(t.state) < Rank(s))
    {
    }
  }

  /** What one call of Parse answers. */
  function Answer(ok: bool, pack: Pack, err: Option<PsError>): seq<Event> {
    if ok then [Packed(pack)] else if err.Some? then [Failed(err.value)] else []
  }

  /** Events, and those of a later run behind them. */
  function Then(events: seq<Event>, later: (seq<Event>, State)): (seq<Event>, State) {
    (events + later.0, later.1)
  }

  lemma ThenNothing(later: (seq<Event>, State))
    ensures Then([], later) == later
  {
    assert [] + later.0 == later.0;
  }
}
