/** Parsing undoes printing, for lists of packs and under every chunking of the bytes. */
module PsRoundTrip {
  import opened Bytes
  import opened Sequences
  import opened StartCode
  import opened PsPacks
  import opened PsMachine
  import opened PsPrint

  /** Exactly the bytes a state waits for lead to the next state. */
  lemma CollectGo(k: Kind, raw: seq<byte>, rest: seq<byte>, next: State)
    requires |raw| == Need(k) && InDomain(Needing(k, [])) && InDomain(Needing(k, raw)) && raw + rest != []
    requires Fire(k, raw) == Go(next)
    ensures InDomain(next) && Run(Needing(k, []), raw + rest) == Run(next, rest)
  {
    hide Fire, Need, Run, InDomain;
    FireStaysInDomain(k, raw);
    var data := raw + rest;
    assert data[..|raw|] == raw && data[|raw|..] == rest && [] + raw == raw;
    RunUnfold(Needing(k, []), data);
    assert [] + Run(next, rest).0 == Run(next, rest).0;
  }

  /** Exactly the bytes a state waits for end its pack. */
  lemma CollectEmit(k: Kind, raw: seq<byte>, rest: seq<byte>, p: Pack)
    requires |raw| == Need(k) && InDomain(Needing(k, [])) && InDomain(Needing(k, raw)) && raw + rest != []
    requires Fire(k, raw) == Emit(p)
    ensures Run(Needing(k, []), raw + rest) == ([Packed(p)] + Run(START, rest).0, Run(START, rest).1)
  {
    hide Fire, Need, Run, InDomain;
    var data := raw + rest;
    assert data[..|raw|] == raw && data[|raw|..] == rest && [] + raw == raw;
    RunUnfold(Needing(k, []), data);
  }

  lemma FrontIsFirst(id: byte, rest: seq<byte>)
    ensures FindIn(StartBytes(id) + rest) == Found(id, rest)
  {
    var data := StartBytes(id) + rest;
    assert CodeAt(data, 0) && FirstCode(data) == 0;
    assert data[4..] == rest;
  }

  /** A start code at the very front is the first one. */
  lemma StartCodeInFront(id: byte, rest: seq<byte>)
    ensures InDomain(AfterCode(id)) && Run(START, StartBytes(id) + rest) == Run(AfterCode(id), rest)
  {
    hide FindIn, Run, StartBytes;
    var data := StartBytes(id) + rest;
    FrontIsFirst(id, rest);
    assert [] + data == data && data != [] by { FoundLonger(data); }
    StartInDomain();
    RunUnfold(START, data);
    assert [] + Run(AfterCode(id), rest).0 == Run(AfterCode(id), rest).0;
  }

  lemma FoundLonger(data: seq<byte>)
    requires FindIn(data).Found?
    ensures |data| >= 4
  {
  }

  lemma StartInDomain()
    ensures InDomain(START)
  {
  }

  /** The state in which a printed pack leaves the parser when nothing follows. */
  function Pending(p: Pack): State
    requires EndsWithNothing(p)
  {
    match p
    case Psh(b) => Stuffing(b, 0)
    case Sys(headerLength, bytes6, _) => Needing(KSysInfos(headerLength, bytes6), [])
    case Pes(h, _) =>
      if h.Full? && h.headerDataLength == 0
      then Needing(KPesHeader(h.id, h.packetLength, h.b0, h.flags, h.headerDataLength), [])
      else Needing(KPesData(h), [])
  }

  /** The outcome of a printed pack: itself, or, with nothing behind its last empty part, the
      pending state. */
  predicate Parses(p: Pack, rest: seq<byte>, r: (seq<Event>, State)) {
    if rest == [] && EndsWithNothing(p) then r == ([], Pending(p))
    else r == ([Packed(p)] + Run(START, rest).0, Run(START, rest).1)
  }

  /** The last part of a pack, possibly empty. */
  lemma LastPart(k: Kind, p: Pack, body: seq<byte>, rest: seq<byte>)
    requires |body| == Need(k) && InDomain(Needing(k, [])) && InDomain(Needing(k, body))
    requires Fire(k, body) == Emit(p)
    requires (EndsWithNothing(p) <==> body == []) && (body == [] ==> Pending(p) == Needing(k, []))
    ensures Parses(p, rest, Run(Needing(k, []), body + rest))
  {
    hide Fire, Need, Run, InDomain, EndsWithNothing, Pending;
    if body + rest == [] {
      RunNothing(Needing(k, []));
    } else {
      CollectEmit(k, body, rest, p);
    }
  }

  lemma PshParses(p: Pack, rest: seq<byte>)
    requires p.Psh? && WellFormed(p)
    ensures Parses(p, rest, Run(START, Print(p) + rest))
  {
    var n := PackStuffingLength(p.bytes10);
    var after := Stuff(n) + rest;
    assert Print(p) + rest == StartBytes(PACK_START) + (p.bytes10 + after);
    StartCodeInFront(PACK_START, p.bytes10 + after);
    hide Run, Fire;
    FirePsh(p.bytes10);
    CollectGo(KPsh, p.bytes10, after, Stuffing(p.bytes10, 0));
    if after != [] {
      assert after[n..] == rest;
      RunUnfold(Stuffing(p.bytes10, 0), after);
    } else {
      RunNothing(Stuffing(p.bytes10, 0));
    }
  }

  lemma FirePsh(b: seq<byte>)
    requires |b| == 10
    ensures Fire(KPsh, b) == Go(Stuffing(b, 0))
  {
  }

  lemma RunNothing(s: State)
    requires InDomain(s)
    ensures Run(s, []) == ([], s)
  {
  }

  lemma FireSys(p: Pack)
    requires p.Sys? && WellFormed(p)
    ensures |PutUint16(p.headerLength) + p.bytes6| == 8
    ensures Fire(KSys, PutUint16(p.headerLength) + p.bytes6) == Go(Needing(KSysInfos(p.headerLength, p.bytes6), []))
    ensures Fire(KSysInfos(p.headerLength, p.bytes6), PrintSysInfos(p.streamInfos)) == Emit(p)
  {
    hide PrintSysInfos, DecodeSysInfos, BigEndian16;
    Uint16Decodes(p.headerLength, p.bytes6);
    assert (PutUint16(p.headerLength) + p.bytes6)[2..] == p.bytes6;
    SysInfosDecode(p.streamInfos);
  }

  lemma SysParses(p: Pack, rest: seq<byte>)
    requires p.Sys? && WellFormed(p)
    ensures Parses(p, rest, Run(START, Print(p) + rest))
  {
    hide Fire, PutUint16, PrintSysInfos, DecodeSysInfos, Run, Parses;
    var head := PutUint16(p.headerLength) + p.bytes6;
    var body := PrintSysInfos(p.streamInfos);
    var k := KSysInfos(p.headerLength, p.bytes6);
    Assoc(StartBytes(SYSTEM_START), head + body, rest);
    Assoc(head, body, rest);
    StartCodeInFront(SYSTEM_START, head + (body + rest));
    FireSys(p);
    CollectGo(KSys, head, body + rest, Needing(k, []));
    LastPart(k, p, body, rest);
  }

  lemma FirePsm(p: Pack)
    requires p.Psm? && WellFormed(p)
    ensures Fire(KPsmLength, PutUint16(p.psmLength)) == Go(Needing(KPsmBody(p.psmLength), []))
    ensures |PsmBody(p)| == p.psmLength && Fire(KPsmBody(p.psmLength), PsmBody(p)) == Emit(p)
  {
    Uint16Decodes(p.psmLength, []);
    assert PutUint16(p.psmLength) + [] == PutUint16(p.psmLength);
    PsmDecodes(p);
  }

  lemma PsmParses(p: Pack, rest: seq<byte>)
    requires p.Psm? && WellFormed(p)
    ensures Parses(p, rest, Run(START, Print(p) + rest))
  {
    hide Fire, PsmBody, Run, Parses, PrintInfos;
    var head := PutUint16(p.psmLength);
    var body := PsmBody(p);
    Assoc(StartBytes(PROGRAM_STREAM_MAP), head + body, rest);
    Assoc(head, body, rest);
    StartCodeInFront(PROGRAM_STREAM_MAP, head + (body + rest));
    FirePsm(p);
    CollectGo(KPsmLength, head, body + rest, Needing(KPsmBody(p.psmLength), []));
    LastPart(KPsmBody(p.psmLength), p, body, rest);
  }

  lemma FireData(p: Pack)
    requires p.Pes? && DataSize(p.header) == |p.data|
    ensures Fire(KPesData(p.header), p.data) == Emit(p)
  {
  }

  lemma FirePlain(h: PesHeader)
    requires h.Plain? && HasNoHeader(h.id) && h.packetLength < 0x1_0000
    ensures Fire(KPesLength(h.id), PutUint16(h.packetLength)) == Go(Needing(KPesData(h), []))
  {
    Uint16Decodes(h.packetLength, []);
    assert PutUint16(h.packetLength) + [] == PutUint16(h.packetLength);
  }

  lemma PlainParses(p: Pack, rest: seq<byte>)
    requires p.Pes? && p.header.Plain? && WellFormed(p)
    ensures Parses(p, rest, Run(START, Print(p) + rest))
  {
    hide Fire, Run, Parses, HasNoHeader;
    var h := p.header;
    var head := PutUint16(h.packetLength);
    assert Print(p) == StartBytes(h.id) + head + p.data;
    Assoc(StartBytes(h.id), head, p.data);
    Assoc(StartBytes(h.id), head + p.data, rest);
    Assoc(head, p.data, rest);
    StartCodeInFront(h.id, head + (p.data + rest));
    FirePlain(h);
    CollectGo(KPesLength(h.id), head, p.data + rest, Needing(KPesData(h), []));
    FireData(p);
    LastPart(KPesData(h), p, p.data, rest);
  }

  lemma HeaderLayout(h: PesHeader)
    requires h.Full? && h.id != 0
    ensures PrintPesHeader(h)
            == StartBytes(h.id) + (PutUint16(h.packetLength) + ([h.b0, h.flags, h.headerDataLength] + PrintedData(h)))
  {
    hide WriteExtension, Fields, StartBytes, PutUint16;
    var out := WriteExtension(h.ext).0;
    var stuffing := Stuff(h.headerDataLength as int - |Fields(h)| - |out|);
    Assoc(Fields(h), out, stuffing);
    var three := [h.b0, h.flags, h.headerDataLength];
    Assoc(StartBytes(h.id) + PutUint16(h.packetLength), three, PrintedData(h));
    Assoc(StartBytes(h.id), PutUint16(h.packetLength), three + PrintedData(h));
  }

  lemma FullLayout(p: Pack, rest: seq<byte>)
    requires p.Pes? && p.header.Full? && p.header.id != 0
    ensures var h := p.header;
            Print(p) + rest
            == StartBytes(h.id) + (PutUint16(h.packetLength)
               + ([h.b0, h.flags, h.headerDataLength] + (PrintedData(h) + (p.data + rest))))
  {
    hide PrintPesHeader, StartBytes, PutUint16, PrintedData;
    var h := p.header;
    HeaderLayout(h);
    var tail := p.data + rest;
    var three := [h.b0, h.flags, h.headerDataLength];
    Assoc(PrintPesHeader(h), p.data, rest);
    Assoc(StartBytes(h.id), PutUint16(h.packetLength) + (three + PrintedData(h)), tail);
    Assoc(PutUint16(h.packetLength), three + PrintedData(h), tail);
    Assoc(three, PrintedData(h), tail);
  }

  lemma FullFires(h: PesHeader)
    requires h.Full? && Consistent(h)
    ensures Fire(KPesLength(h.id), PutUint16(h.packetLength)) == Go(Needing(KPesFixed(h.id, h.packetLength), []))
    ensures Fire(KPesFixed(h.id, h.packetLength), [h.b0, h.flags, h.headerDataLength])
            == Go(Needing(KPesHeader(h.id, h.packetLength, h.b0, h.flags, h.headerDataLength), []))
  {
    hide DecodePesHeader, MatchesFlags, BigEndian16;
    Uint16Decodes(h.packetLength, []);
    assert PutUint16(h.packetLength) + [] == PutUint16(h.packetLength);
  }

  lemma FullHeaderFires(h: PesHeader)
    requires h.Full? && Consistent(h) && Survives(h)
    ensures |PrintedData(h)| == h.headerDataLength
    ensures Fire(KPesHeader(h.id, h.packetLength, h.b0, h.flags, h.headerDataLength), PrintedData(h))
            == Go(Needing(KPesData(h), []))
  {
    hide DecodePesHeader, MatchesFlags, Survives, PrintedData;
    PrintedDataDecodesIff(h);
  }

  /** The start code, the length and the three fixed bytes lead to the header data. */
  lemma FullStarts(p: Pack, rest: seq<byte>)
    requires p.Pes? && p.header.Full? && Consistent(p.header)
    ensures var h := p.header; var k := KPesHeader(h.id, h.packetLength, h.b0, h.flags, h.headerDataLength);
            Run(START, Print(p) + rest) == Run(Needing(k, []), PrintedData(h) + (p.data + rest))
  {
    hide Run, Print, MatchesFlags, PrintedData, Survives, StartBytes, Fire, HasNoHeader, FindIn;
    var h := p.header;
    var head := PutUint16(h.packetLength);
    var fixed := [h.b0, h.flags, h.headerDataLength];
    var after := PrintedData(h) + (p.data + rest);
    FullLayout(p, rest);
    FullFires(h);
    StartCodeInFront(h.id, head + (fixed + after));
    var k2 := KPesFixed(h.id, h.packetLength);
    CollectGo(KPesLength(h.id), head, fixed + after, Needing(k2, []));
    CollectGo(k2, fixed, after, Needing(KPesHeader(h.id, h.packetLength, h.b0, h.flags, h.headerDataLength), []));
  }

  lemma FullParses(p: Pack, rest: seq<byte>)
    requires p.Pes? && p.header.Full? && WellFormed(p)
    ensures Parses(p, rest, Run(START, Print(p) + rest))
  {
    hide Run, Print, MatchesFlags, PrintedData, Survives, Fire, HasNoHeader, FindIn, Parses;
    var h := p.header;
    var tail := p.data + rest;
    var k := KPesHeader(h.id, h.packetLength, h.b0, h.flags, h.headerDataLength);
    FullHeaderFires(h);
    FireData(p);
    FullStarts(p, rest);
    if PrintedData(h) + tail == [] {
      RunNothing(Needing(k, []));
      PendingParses(p, rest);
    } else {
      CollectGo(k, PrintedData(h), tail, Needing(KPesData(h), []));
      if h.headerDataLength == 0 {
        CollectEmit(KPesData(h), p.data, rest, p);
        EmittedParses(p, rest);
      } else {
        LastPart(KPesData(h), p, p.data, rest);
      }
    }
  }

  lemma PendingParses(p: Pack, rest: seq<byte>)
    requires rest == [] && EndsWithNothing(p)
    ensures Parses(p, rest, ([], Pending(p)))
  {
  }

  lemma EmittedParses(p: Pack, rest: seq<byte>)
    requires rest != [] || !EndsWithNothing(p)
    ensures Parses(p, rest, ([Packed(p)] + Run(START, rest).0, Run(START, rest).1))
  {
  }

  /** One printed pack, whatever follows it. */
  lemma PackParses(p: Pack, rest: seq<byte>)
    requires WellFormed(p)
    ensures Parses(p, rest, Run(START, Print(p) + rest))
  {
    hide Run, Print;
    match p
    case Psh(_) => PshParses(p, rest);
    case Sys(_, _, _) => SysParses(p, rest);
    case Psm(_, _, _, _, _, _) => PsmParses(p, rest);
    case Pes(h, _) => if h.Plain? { PlainParses(p, rest); } else { FullParses(p, rest); }
  }

  /** For a PES pack with consistent lengths and flags, parsing gives it back exactly when its
      header survives: no other condition is needed, and none of the two can be dropped. */
  lemma PesParsesIff(p: Pack, rest: seq<byte>)
    requires p.Pes? && Consistent(p.header) && DataSize(p.header) == |p.data|
    ensures Parses(p, rest, Run(START, Print(p) + rest)) <==> Survives(p.header)
  {
    hide Run, Print, Consistent, Survives, Parses;
    if Survives(p.header) {
      PackParses(p, rest);
    } else {
      Lost(p, rest);
    }
  }

  lemma Lost(p: Pack, rest: seq<byte>)
    requires p.Pes? && Consistent(p.header) && DataSize(p.header) == |p.data| && !Survives(p.header)
    ensures !Parses(p, rest, Run(START, Print(p) + rest))
  {
    hide Run, Print, MatchesFlags, PrintedData, DecodePesHeader, HasNoHeader, FindIn;
    var h := p.header;
    var hdl := h.headerDataLength;
    var tail := p.data + rest;
    var k := KPesHeader(h.id, h.packetLength, h.b0, h.flags, hdl);
    PrintedDataDecodesIff(h);
    FullStarts(p, rest);
    SomethingToLose(h);
    var decoded := DecodePesHeader(h.id, h.packetLength, h.b0, h.flags, hdl, PrintedData(h));
    var data := PrintedData(h) + tail;
    assert data[..hdl] == PrintedData(h) && data[hdl..] == tail && [] + PrintedData(h) == PrintedData(h);
    RunUnfold(Needing(k, []), data);
    if decoded.Ok? {
      DecodedKeeps(h.id, h.packetLength, h.b0, h.flags, hdl, PrintedData(h));
      var other := decoded.value;
      assert [] + Run(Needing(KPesData(other), []), tail).0 == Run(Needing(KPesData(other), []), tail).0;
      FireData(Pes(other, p.data));
      if tail == [] {
        RunNothing(Needing(KPesData(other), []));
      } else {
        CollectEmit(KPesData(other), p.data, rest, Pes(other, p.data));
        assert Run(START, Print(p) + rest).0[0] == Packed(Pes(other, p.data));
        assert ([Packed(p)] + Run(START, rest).0)[0] == Packed(p);
      }
    } else {
      assert Run(START, Print(p) + rest).0[0] == Failed(decoded.error);
      assert ([Packed(p)] + Run(START, rest).0)[0] == Packed(p);
    }
  }

  /** A header that does not survive has at least one byte of header data. */
  lemma SomethingToLose(h: PesHeader)
    requires Consistent(h) && !Survives(h)
    ensures h.Full? && h.headerDataLength > 0
  {
  }

  /** The last pack, when its last part is empty, waits for one more byte. */
  predicate LastPends(ps: seq<Pack>) {
    ps != [] && EndsWithNothing(ps[|ps| - 1])
  }

  /** All packs and what the rest gives, or all but a pending last one. */
  function Expected(ps: seq<Pack>, rest: seq<byte>): (seq<Event>, State) {
    if rest == [] && LastPends(ps) then (PackEvents(ps[..|ps| - 1]), Pending(ps[|ps| - 1]))
    else (PackEvents(ps) + Run(START, rest).0, Run(START, rest).1)
  }

  lemma ExpectedCons(ps: seq<Pack>, rest: seq<byte>)
    requires |ps| >= 2
    ensures Expected(ps, rest) == ([Packed(ps[0])] + Expected(ps[1..], rest).0, Expected(ps[1..], rest).1)
  {
    hide Run, EndsWithNothing;
    if rest == [] && LastPends(ps) {
      var n := |ps| - 1;
      assert ps[..n][1..] == ps[1..][..n - 1] && ps[..n][0] == ps[0];
    } else {
      Assoc([Packed(ps[0])], PackEvents(ps[1..]), Run(START, rest).0);
    }
  }

  lemma ExpectedOne(p: Pack, rest: seq<byte>)
    requires Parses(p, rest, Run(START, Print(p) + rest))
    ensures Run(START, PrintAll([p]) + rest) == Expected([p], rest)
  {
    hide Run, EndsWithNothing, Print;
    assert PrintAll([p]) == Print(p) + PrintAll([]) == Print(p);
    assert PackEvents([p]) == [Packed(p)] + PackEvents([]) == [Packed(p)];
    assert [p][..0] == [];
  }

  lemma {:induction false} ListParses(ps: seq<Pack>, rest: seq<byte>)
    requires forall i :: 0 <= i < |ps| ==> WellFormed(ps[i])
    ensures Run(START, PrintAll(ps) + rest) == Expected(ps, rest)
  {
    if ps == [] {
      assert PrintAll(ps) + rest == rest && PackEvents(ps) + Run(START, rest).0 == Run(START, rest).0;
    } else {
      hide Run, Print, WellFormed, EndsWithNothing, Expected;
      if |ps| == 1 {
        assert ps == [ps[0]];
        PackParses(ps[0], rest);
        ExpectedOne(ps[0], rest);
      } else {
        assert PrintAll(ps) == Print(ps[0]) + PrintAll(ps[1..]);
        var after := PrintAll(ps[1..]) + rest;
        assert after != [] by { PrintNotEmpty(ps[1]); }
        Assoc(Print(ps[0]), PrintAll(ps[1..]), rest);
        PackParses(ps[0], after);
        ListParses(ps[1..], rest);
        ExpectedCons(ps, rest);
      }
    }
  }

  lemma PrintNotEmpty(p: Pack)
    requires WellFormed(p)
    ensures Print(p) != []
  {
  }

  /** Parsing undoes printing under every chunking. A last pack that ends with an empty part is still
      pending, and comes out with the next byte, whatever that is. */
  lemma ParseUndoesPrint(ps: seq<Pack>, chunks: seq<seq<byte>>, next: seq<byte>)
    requires forall i :: 0 <= i < |ps| ==> WellFormed(ps[i])
    requires Concat(chunks) == PrintAll(ps)
    ensures !LastPends(ps) ==> RunChunks(START, chunks) == (PackEvents(ps), START)
    ensures LastPends(ps) ==> RunChunks(START, chunks) == (PackEvents(ps[..|ps| - 1]), Pending(ps[|ps| - 1]))
    ensures next != [] ==>
      RunChunks(START, chunks + [next]) == (PackEvents(ps) + Run(START, next).0, Run(START, next).1)
  {
    hide Run, Print, WellFormed, EndsWithNothing, RunChunks;
    ChunkingDoesNotMatter(START, chunks);
    ListParses(ps, []);
    assert PrintAll(ps) + [] == PrintAll(ps);
    RunNothing(START);
    assert PackEvents(ps) + [] == PackEvents(ps);
    if next != [] {
      ChunkingDoesNotMatter(START, chunks + [next]);
      ConcatSnoc(chunks, next);
      ListParses(ps, next);
    }
  }
}
