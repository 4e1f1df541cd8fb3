/** The demultiplexer of media/ps/parser.go as a machine on values: one step is one pass of the loop
    in Parse. Whatever the chunks, the machine depends on the concatenated bytes only. */
module PsMachine {
  import opened Bytes
  import opened Sequences
  import opened StartCode
  import opened PsPacks

  /** What the parser is collecting bytes for. */
  datatype Kind =
    | KPsh
    | KSys
    | KSysInfos(headerLength: nat, bytes6: seq<byte>)
    | KPsmLength
    | KPsmBody(psmLength: nat)
    | KPesLength(id: byte)
    | KPesFixed(id: byte, packetLength: nat)
    | KPesHeader(id: byte, packetLength: nat, b0: byte, flags: byte, headerDataLength: byte)
    | KPesData(header: PesHeader)

  datatype State =
    | Finding(carry: seq<byte>)
    | Needing(kind: Kind, acc: seq<byte>)
    | Stuffing(bytes10: seq<byte>, skipped: nat)

  datatype Event = Packed(pack: Pack) | Failed(error: PsError)

  /** The answers for a list of packs. */
  function PackEvents(packs: seq<Pack>): seq<Event> {
    if packs == [] then [] else [Packed(packs[0])] + PackEvents(packs[1..])
  }

  function Need(k: Kind): nat {
    match k
    case KPsh => 10
    case KSys => 8
    case KSysInfos(headerLength, _) => SysInfoSize(headerLength)
    case KPsmLength => 2
    case KPsmBody(n) => n
    case KPesLength(_) => 2
    case KPesFixed(_, _) => 3
    case KPesHeader(_, _, _, _, hdl) => hdl
    case KPesData(h) => if DataSize(h) < 0 then 0 else DataSize(h)
  }

  function Rank(s: State): nat {
    match s
    case Finding(_) => 0
    case Stuffing(_, _) => 1
    case Needing(k, _) =>
      match k
      case KPsh => 2
      case KSys => 2
      case KSysInfos(_, _) => 1
      case KPsmLength => 2
      case KPsmBody(_) => 1
      case KPesLength(_) => 4
      case KPesFixed(_, _) => 3
      case KPesHeader(_, _, _, _, _) => 2
      case KPesData(_) => 1
  }

  /** The parser's state invariant. */
  predicate InDomain(s: State) {
    match s
    case Finding(carry) => |carry| <= 3 && FindIn(carry).Carried?
    case Stuffing(b, skipped) => |b| == 10 && skipped <= PackStuffingLength(b)
    case Needing(k, acc) =>
      |acc| <= Need(k)
      && (k.KPsmBody? ==> k.psmLength >= 10)
      && (k.KPesFixed? ==> k.packetLength >= 3)
      && (k.KPesHeader? ==> k.packetLength >= 3 + k.headerDataLength as int)
      && (k.KPesData? ==> DataSize(k.header) >= 0)
  }

  const START := Finding([])

  /** findStartCode: where each start code leads. */
  function AfterCode(id: byte): State {
    if id == PACK_START then Needing(KPsh, [])
    else if id == SYSTEM_START then Needing(KSys, [])
    else if id == PROGRAM_STREAM_MAP then Needing(KPsmLength, [])
    else Needing(KPesLength(id), [])
  }

  datatype Outcome = Go(state: State) | Emit(pack: Pack) | Fail(error: PsError)

  /** What a state method does once it has all the bytes it needs. */
  function Fire(k: Kind, raw: seq<byte>): Outcome
    requires |raw| == Need(k) && InDomain(Needing(k, raw))
  {
    match k
    case KPsh => Go(Stuffing(raw, 0))
    case KSys =>
      var headerLength := BigEndian16(raw);
      if SysInfoSize(headerLength) % 3 != 0 then Fail(SysHeaderLengthError)
      else Go(Needing(KSysInfos(headerLength, raw[2..]), []))
    case KSysInfos(headerLength, bytes6) => Emit(Sys(headerLength, bytes6, DecodeSysInfos(raw)))
    case KPsmLength =>
      var n := BigEndian16(raw);
      if n < 10 then Fail(PsmLengthError) else Go(Needing(KPsmBody(n), []))
    case KPsmBody(n) =>
      (match DecodePsm(n, raw)
       case Ok(p) => Emit(p)
       case Err(e) => Fail(e))
    case KPesLength(id) =>
      var n := BigEndian16(raw);
      if HasNoHeader(id) then Go(Needing(KPesData(Plain(id, n)), []))
      else if n < 3 then Fail(PesLengthError)
      else Go(Needing(KPesFixed(id, n), []))
    case KPesFixed(id, n) =>
      if n < 3 + raw[2] as int then Fail(PesLengthError)
      else Go(Needing(KPesHeader(id, n, raw[0], raw[1], raw[2]), []))
    case KPesHeader(id, n, b0, flags, hdl) =>
      (match DecodePesHeader(id, n, b0, flags, hdl, raw)
       case Ok(h) => Go(Needing(KPesData(h), []))
       case Err(e) => Fail(e))
    case KPesData(h) => Emit(Pes(h, raw))
  }

  lemma DecodedKeeps(id: byte, n: nat, b0: byte, flags: byte, hdl: byte, raw: seq<byte>)
    ensures var r := DecodePesHeader(id, n, b0, flags, hdl, raw);
            r.Ok? ==> r.value.Full? && r.value.id == id && r.value.packetLength == n && r.value.headerDataLength == hdl
  {
    hide TakeTimes, TakeIf, TakeEsRate, TakeSmallFields, TakeExtension;
  }

  lemma FireStaysInDomain(k: Kind, raw: seq<byte>)
    requires |raw| == Need(k) && InDomain(Needing(k, raw))
    ensures match Fire(k, raw)
            case Go(s) => InDomain(s) && Rank(s) < Rank(Needing(k, raw))
            case Emit(_) => true
            case Fail(_) => true
  {
  }

  datatype Step = Step(state: State, remain: seq<byte>, events: seq<Event>)

  /** Where an outcome leaves the loop. */
  function StepOf(o: Outcome, remain: seq<byte>): Step {
    match o
    case Go(s) => Step(s, remain, [])
    case Emit(p) => Step(START, remain, [Packed(p)])
    case Fail(e) => Step(START, remain, [Failed(e)])
  }

  /** One pass of the loop in Parse over non-empty data. */
  function Advance(s: State, data: seq<byte>): Step
    requires InDomain(s) && data != []
  {
    match s
    case Finding(carry) =>
      (match FindIn(carry + data)
       case Found(id, rest) => Step(AfterCode(id), rest, [])
       case Carried(c) => Step(Finding(c), [], []))
    case Stuffing(bytes10, skipped) =>
      var n := PackStuffingLength(bytes10) - skipped;
      if |data| >= n then Step(START, data[n..], [Packed(Psh(bytes10))])
      else Step(Stuffing(bytes10, skipped + |data|), [], [])
    case Needing(k, acc) =>
      var n := Need(k) - |acc|;
      if |data| >= n then StepOf(Fire(k, acc + data[..n]), data[n..])
      else Step(Needing(k, acc + data), [], [])
  }

  predicate Progress(s: State, data: seq<byte>, t: Step) {
    InDomain(t.state) && |t.remain| <= |data|
    && (|t.remain| == |data| ==> t.remain == data && Rank(t.state) < Rank(s))
  }

  lemma FindingProgress(carry: seq<byte>, data: seq<byte>)
    requires InDomain(Finding(carry)) && data != []
    ensures Progress(Finding(carry), data, Advance(Finding(carry), data))
  {
    hide FindIn;
    if FindIn(carry + data).Carried? {
      CarriedIsFinal(carry + data);
    }
  }

  lemma StuffingProgress(bytes10: seq<byte>, skipped: nat, data: seq<byte>)
    requires InDomain(Stuffing(bytes10, skipped)) && data != []
    ensures Progress(Stuffing(bytes10, skipped), data, Advance(Stuffing(bytes10, skipped), data))
  {
    assert FindIn([]).Carried?;
    hide FindIn;
    var n := PackStuffingLength(bytes10) - skipped;
    assert n == 0 ==> data[n..] == data;
  }

  lemma NeedingProgress(k: Kind, acc: seq<byte>, data: seq<byte>)
    requires InDomain(Needing(k, acc)) && data != []
    ensures Progress(Needing(k, acc), data, Advance(Needing(k, acc), data))
  {
    hide FindIn, Fire, Need, StepOf, Rank, Progress;
    var n := Need(k) - |acc|;
    if |data| >= n {
      FireStaysInDomain(k, acc + data[..n]);
      RankOfKind(k, acc, acc + data[..n]);
      FiredProgress(Needing(k, acc), Fire(k, acc + data[..n]), data, n);
    } else {
      CollectedProgress(k, acc, data);
    }
  }

  lemma RankOfKind(k: Kind, acc: seq<byte>, acc2: seq<byte>)
    ensures Rank(Needing(k, acc)) == Rank(Needing(k, acc2))
  {
  }

  lemma CollectedProgress(k: Kind, acc: seq<byte>, data: seq<byte>)
    requires InDomain(Needing(k, acc)) && |acc| + |data| < Need(k)
    requires data != []
    ensures Progress(Needing(k, acc), data, Step(Needing(k, acc + data), [], []))
  {
    hide Rank, Need;
  }

  lemma FiredProgress(s: State, o: Outcome, data: seq<byte>, n: nat)
    requires s.Needing? && n <= |data|
    requires o.Go? ==> InDomain(o.state) && Rank(o.state) < Rank(s)
    ensures Progress(s, data, StepOf(o, data[n..]))
  {
    assert FindIn([]).Carried?;
    hide FindIn, Need;
    assert n == 0 ==> data[n..] == data;
  }

  lemma AdvanceStaysInDomain(s: State, data: seq<byte>)
    requires InDomain(s) && data != []
    ensures Progress(s, data, Advance(s, data))
  {
    hide Progress, Advance, InDomain;
    match s
    case Finding(carry) => FindingProgress(carry, data);
    case Stuffing(bytes10, skipped) => StuffingProgress(bytes10, skipped, data);
    case Needing(k, acc) => NeedingProgress(k, acc, data);
  }

  /** Everything the parser does with the bytes of one stretch of the stream. */
  function Run(s: State, data: seq<byte>): (r: (seq<Event>, State))
    requires InDomain(s)
    ensures InDomain(r.1)
    decreases |data|, Rank(s)
  {
    if data == [] then ([], s)
    else
      AdvanceStaysInDomain(s, data);
      var t := Advance(s, data);
      var (events, last) := Run(t.state, t.remain);
      (t.events + events, last)
  }

  /** Calling Parse on one chunk after the other, each until nothing remains of it. */
  function RunChunks(s: State, chunks: seq<seq<byte>>): (r: (seq<Event>, State))
    requires InDomain(s)
    ensures InDomain(r.1)
    decreases chunks
  {
    if chunks == [] then ([], s)
    else
      var (e1, s1) := Run(s, chunks[0]);
      var (e2, s2) := RunChunks(s1, chunks[1..]);
      (e1 + e2, s2)
  }

  // ----- independence from the chunking

  lemma AdvanceFinding(carry: seq<byte>, a: seq<byte>, b: seq<byte>)
    requires InDomain(Finding(carry)) && a != [] && b != []
    ensures var t := Advance(Finding(carry), a); var u := Advance(Finding(carry), a + b);
            if FindIn(carry + a).Carried?
            then InDomain(t.state) && t.remain == [] && t.events == [] && Advance(t.state, b) == u
            else u == t.(remain := t.remain + b)
  {
    assert carry + (a + b) == carry + a + b;
    AdvanceStaysInDomain(Finding(carry), a);
    if FindIn(carry + a).Carried? {
      CarryEnough(carry + a, b);
    } else {
      FoundStable(carry + a, b);
    }
  }

  lemma AdvanceNeeding(k: Kind, acc: seq<byte>, a: seq<byte>, b: seq<byte>)
    requires InDomain(Needing(k, acc)) && a != [] && b != []
    ensures var t := Advance(Needing(k, acc), a); var u := Advance(Needing(k, acc), a + b);
            if |acc| + |a| < Need(k)
            then InDomain(t.state) && t.remain == [] && t.events == [] && Advance(t.state, b) == u
            else u == t.(remain := t.remain + b)
  {
    hide Fire, FindIn, Need;
    var n := Need(k) - |acc|;
    if |a| >= n {
      assert (a + b)[..n] == a[..n] && (a + b)[n..] == a[n..] + b;
    } else {
      assert acc + (a + b) == acc + a + b;
      if |a + b| >= n {
        var m := n - |a|;
        assert acc + (a + b)[..n] == acc + a + b[..m];
        assert (a + b)[n..] == b[m..];
      }
    }
  }

  lemma AdvanceStuffing(bytes10: seq<byte>, skipped: nat, a: seq<byte>, b: seq<byte>)
    requires InDomain(Stuffing(bytes10, skipped)) && a != [] && b != []
    ensures var t := Advance(Stuffing(bytes10, skipped), a); var u := Advance(Stuffing(bytes10, skipped), a + b);
            if skipped + |a| < PackStuffingLength(bytes10)
            then InDomain(t.state) && t.remain == [] && t.events == [] && Advance(t.state, b) == u
            else u == t.(remain := t.remain + b)
  {
    var n := PackStuffingLength(bytes10) - skipped;
    if |a| >= n {
      assert (a + b)[n..] == a[n..] + b;
    } else if |a + b| >= n {
      assert (a + b)[n..] == b[n - |a|..];
    }
  }

  /** Either the step is the same with more bytes behind it, or it took all the bytes in and goes on
      with the next ones as if they had been there from the start. */
  lemma AdvanceSplit(s: State, a: seq<byte>, b: seq<byte>)
    requires InDomain(s) && a != [] && b != []
    ensures var t := Advance(s, a); var u := Advance(s, a + b);
            || u == t.(remain := t.remain + b)
            || (InDomain(t.state) && t.remain == [] && t.events == [] && Advance(t.state, b) == u)
  {
    match s
    case Finding(carry) => AdvanceFinding(carry, a, b);
    case Needing(k, acc) => AdvanceNeeding(k, acc, a, b);
    case Stuffing(bytes10, skipped) => AdvanceStuffing(bytes10, skipped, a, b);
  }

  /** The first pass of a run. */
  lemma RunUnfold(s: State, data: seq<byte>)
    requires InDomain(s) && data != []
    ensures var t := Advance(s, data);
            InDomain(t.state) && Run(s, data) == (t.events + Run(t.state, t.remain).0, Run(t.state, t.remain).1)
  {
    AdvanceStaysInDomain(s, data);
  }

  /** Parsing the two parts one after the other. */
  function RunTwice(s: State, a: seq<byte>, b: seq<byte>): (seq<Event>, State)
    requires InDomain(s)
  {
    var (e1, s1) := Run(s, a);
    var (e2, s2) := Run(s1, b);
    (e1 + e2, s2)
  }

  lemma RunTwiceUnfold(s: State, a: seq<byte>, b: seq<byte>)
    requires InDomain(s) && a != []
    ensures var t := Advance(s, a);
            InDomain(t.state) && RunTwice(s, a, b)
            == (t.events + RunTwice(t.state, t.remain, b).0, RunTwice(t.state, t.remain, b).1)
  {
    hide Advance, InDomain, Run;
    RunUnfold(s, a);
    var t := Advance(s, a);
    var (e1, s1) := Run(t.state, t.remain);
    assert t.events + (e1 + Run(s1, b).0) == t.events + e1 + Run(s1, b).0;
  }

  lemma RunTwiceEmpty(s: State, data: seq<byte>)
    requires InDomain(s)
    ensures RunTwice(s, [], data) == Run(s, data) == RunTwice(s, data, [])
  {
    hide Advance, InDomain;
    assert [] + Run(s, data).0 == Run(s, data).0 == Run(s, data).0 + [];
  }

  /** Parsing a stream in two parts is parsing it in one. */
  lemma {:induction false} RunSplit(s: State, a: seq<byte>, b: seq<byte>)
    requires InDomain(s)
    ensures Run(s, a + b) == RunTwice(s, a, b)
    decreases |a|, Rank(s)
  {
    hide Advance, InDomain, Rank, Run, RunTwice;
    if a == [] {
      assert a + b == b;
      RunTwiceEmpty(s, b);
    } else if b == [] {
      assert a + b == a;
      RunTwiceEmpty(s, a);
    } else {
      AdvanceSplit(s, a, b);
      AdvanceStaysInDomain(s, a);
      RunTwiceUnfold(s, a, b);
      RunUnfold(s, a + b);
      var t := Advance(s, a);
      if Advance(s, a + b) == t.(remain := t.remain + b) {
        RunSplit(t.state, t.remain, b);
      } else {
        RunTwiceEmpty(t.state, b);
        RunUnfold(t.state, b);
        assert [] + Run(t.state, b).0 == Run(t.state, b).0;
      }
    }
  }

  /** For any bytes, well-formed or not, the packs, the errors and the final state depend on the
      concatenated bytes and not on the chunks they came in. */
  lemma {:induction false} ChunkingDoesNotMatter(s: State, chunks: seq<seq<byte>>)
    requires InDomain(s)
    ensures RunChunks(s, chunks) == Run(s, Concat(chunks))
    decreases chunks
  {
    if chunks != [] {
      hide Run, InDomain;
      var (e1, s1) := Run(s, chunks[0]);
      ChunkingDoesNotMatter(s1, chunks[1..]);
      RunSplit(s, chunks[0], Concat(chunks[1..]));
    }
  }
}
