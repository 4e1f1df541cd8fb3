/** Bytes are not made up: the packs that the parser of media/ps/parser.go gives, and those of the frames put
    together from them, take at least as many bytes as they were read from. */
module PsWeights {
  import opened Bytes
  import opened Sequences
  import opened Options
  import opened StartCode
  import opened PsPacks
  import opened PsMachine
  import opened PsFrames

  function HeaderWeight(h: PesHeader): nat {
    if h.Plain? then 6 else 9 + h.headerDataLength as int
  }

  /** How many bytes a pack takes in a stream, by its own lengths. */
  function Weight(p: Pack): nat {
    match p
    case Psh(b) => 14 + if |b| == 10 then PackStuffingLength(b) else 0
    case Sys(headerLength, _, _) => 12 + SysInfoSize(headerLength)
    case Psm(n, _, _, _, _, _) => 6 + n
    case Pes(h, data) => HeaderWeight(h) + |data|
  }

  function EventsWeight(events: seq<Event>): nat {
    if events == [] then 0
    else (if events[0].Packed? then Weight(events[0].pack) else 0) + EventsWeight(events[1..])
  }

  /** What was read of the pack under way in front of the bytes that a state collects. */
  function KindWeight(k: Kind): nat {
    match k
    case KPsh => 4
    case KSys => 4
    case KSysInfos(_, _) => 12
    case KPsmLength => 4
    case KPsmBody(_) => 6
    case KPesLength(_) => 4
    case KPesFixed(_, _) => 6
    case KPesHeader(_, _, _, _, _) => 9
    case KPesData(h) => HeaderWeight(h)
  }

  function StateWeight(s: State): nat {
    match s
    case Finding(carry) => |carry|
    case Stuffing(_, skipped) => 14 + skipped
    case Needing(k, acc) => KindWeight(k) + |acc|
  }

  lemma FireWeighs(k: Kind, raw: seq<byte>)
    requires |raw| == Need(k) && InDomain(Needing(k, raw))
    ensures match Fire(k, raw)
            case Go(s) => StateWeight(s) <= KindWeight(k) + |raw|
            case Emit(p) => Weight(p) <= KindWeight(k) + |raw|
            case Fail(_) => true
  {
    hide DecodePesHeader, DecodeInfos, FindIn, DecodeSysInfos, BigEndian16;
    if k.KPesHeader? {
      DecodedKeeps(k.id, k.packetLength, k.b0, k.flags, k.headerDataLength, raw);
    }
  }

  lemma OneEvent(e: Event)
    ensures EventsWeight([e]) == if e.Packed? then Weight(e.pack) else 0
  {
    assert [e][1..] == [];
  }

  lemma OutcomeWeighs(o: Outcome, remain: seq<byte>, n: nat)
    requires match o case Go(s) => StateWeight(s) <= n case Emit(p) => Weight(p) <= n case Fail(_) => true
    ensures var t := StepOf(o, remain);
            EventsWeight(t.events) + StateWeight(t.state) + |t.remain| <= n + |remain|
  {
    hide Weight;
    match o
    case Go(_) =>
    case Emit(p) => OneEvent(Packed(p));
    case Fail(e) => OneEvent(Failed(e));
  }

  lemma CarryFits(stream: seq<byte>)
    ensures FindIn(stream).Carried? ==> |FindIn(stream).carry| <= |stream|
  {
    hide FirstCode;
  }

  /** One pass of the parser's loop. */
  lemma AdvanceWeighs(s: State, data: seq<byte>)
    requires InDomain(s) && data != []
    ensures var t := Advance(s, data);
            EventsWeight(t.events) + StateWeight(t.state) + |t.remain| <= StateWeight(s) + |data|
  {
    hide FindIn, Fire, Need, Rank;
    match s
    case Finding(carry) => CarryFits(carry + data);
    case Stuffing(bytes10, skipped) => OneEvent(Packed(Psh(bytes10)));
    case Needing(k, acc) =>
      var n := Need(k) - |acc|;
      if |data| >= n {
        var raw := acc + data[..n];
        KindOnly(k, acc, raw);
        FireWeighs(k, raw);
        OutcomeWeighs(Fire(k, raw), data[n..], KindWeight(k) + |raw|);
      }
  }

  lemma KindOnly(k: Kind, acc: seq<byte>, raw: seq<byte>)
    requires InDomain(Needing(k, acc)) && |raw| == Need(k)
    ensures InDomain(Needing(k, raw))
  {
    hide Need;
  }

  lemma {:induction false} EventsWeightSplit(a: seq<Event>, b: seq<Event>)
    ensures EventsWeight(a + b) == EventsWeight(a) + EventsWeight(b)
  {
    if a == [] {
      NothingBefore(b);
    } else {
      assert (a + b)[1..] == a[1..] + b;
      EventsWeightSplit(a[1..], b);
    }
  }

  /** The packs of a stretch take no more bytes than it has, with what was pending in front of it. */
  lemma {:induction false} RunWeighs(s: State, data: seq<byte>)
    requires InDomain(s)
    ensures EventsWeight(Run(s, data).0) <= StateWeight(s) + |data|
    decreases |data|, Rank(s)
  {
    hide Advance, InDomain, EventsWeight, StateWeight, Rank, Run;
    if data == [] {
      RunNothing(s);
      NoEvents();
    } else {
      var t := Advance(s, data);
      AdvanceStaysInDomain(s, data);
      AdvanceWeighs(s, data);
      RunUnfold(s, data);
      RunWeighs(t.state, t.remain);
      EventsWeightSplit(t.events, Run(t.state, t.remain).0);
    }
  }

  lemma RunNothing(s: State)
    requires InDomain(s)
    ensures Run(s, []) == ([], s)
  {
  }

  lemma NoEvents()
    ensures EventsWeight([]) == 0
  {
  }

  // ----- frames

  function PacksWeight(packs: seq<Pack>): nat {
    if packs == [] then 0 else Weight(packs[0]) + PacksWeight(packs[1..])
  }

  function PartWeight(p: Option<Pack>): nat {
    if p.Some? then Weight(p.value) else 0
  }

  function FrameWeight(f: Frame): nat {
    Weight(Psh(f.psh)) + PartWeight(f.sys) + PartWeight(f.psm) + PacksWeight(f.pes)
  }

  function CurrentWeight(cur: Option<Frame>): nat {
    if cur.Some? then FrameWeight(cur.value) else 0
  }

  lemma {:induction false} PacksWeightSplit(a: seq<Pack>, b: seq<Pack>)
    ensures PacksWeight(a + b) == PacksWeight(a) + PacksWeight(b)
  {
    hide Weight;
    if a == [] {
      NothingBefore(b);
    } else {
      assert (a + b)[1..] == a[1..] + b;
      PacksWeightSplit(a[1..], b);
    }
  }

  lemma OnePack(p: Pack)
    ensures PacksWeight([p]) == Weight(p)
  {
    hide Weight;
    assert [p][1..] == [];
  }

  lemma GroupStepWeighs(cur: Option<Frame>, ev: Event)
    ensures CurrentWeight(GroupStep(cur, ev).current) <= CurrentWeight(cur) + EventsWeight([ev])
  {
    hide Weight;
    OneEvent(ev);
    if cur.Some? && ev.Packed? && ev.pack.Pes? {
      PacksWeightSplit(cur.value.pes, [ev.pack]);
      OnePack(ev.pack);
    }
  }

  /** The frame under construction takes no more bytes than the packs it was put together from. */
  lemma {:induction false} GroupWeighs(cur: Option<Frame>, events: seq<Event>)
    ensures CurrentWeight(Group(cur, events).current) <= CurrentWeight(cur) + EventsWeight(events)
    decreases events
  {
    if events != [] {
      hide CurrentWeight, GroupStep, EventsWeight;
      GroupStepWeighs(cur, events[0]);
      GroupWeighs(GroupStep(cur, events[0]).current, events[1..]);
      assert events == [events[0]] + events[1..];
      EventsWeightSplit([events[0]], events[1..]);
    }
  }

  /** A frame that is put together from a stream takes no more bytes than the stream has. */
  lemma FrameWeighs(chunks: seq<seq<byte>>, f: Frame)
    requires Group(None, RunChunks(START, chunks).0).current == Some(f)
    ensures FrameWeight(f) <= |Concat(chunks)|
  {
    hide Group, Run, RunChunks, FrameWeight, EventsWeight;
    ChunkingDoesNotMatter(START, chunks);
    RunWeighs(START, Concat(chunks));
    GroupWeighs(None, Run(START, Concat(chunks)).0);
  }
}
