/** What the parser of media/ps/parser.go makes of a stream, and what the WriteTo methods print, byte for byte:
    each kind of pack with its start code, its lengths and its bits written out. */
module PsBytes {
  import opened Bytes
  import opened Sequences
  import opened StartCode
  import opened PsPacks
  import opened PsMachine
  import opened PsPrint
  import opened PsRoundTrip

  /** A stretch that gives one pack, and then what the rest gives. */
  predicate GivesPack(p: Pack, stretch: seq<byte>, rest: seq<byte>) {
    Run(START, stretch + rest) == ([Packed(p)] + Run(START, rest).0, Run(START, rest).1)
  }

  /** A stretch that gives one error, and then what the rest gives. */
  predicate GivesError(e: PsError, stretch: seq<byte>, rest: seq<byte>) {
    Run(START, stretch + rest) == ([Failed(e)] + Run(START, rest).0, Run(START, rest).1)
  }

  lemma CollectFail(k: Kind, raw: seq<byte>, rest: seq<byte>, e: PsError)
    requires |raw| == Need(k) && InDomain(Needing(k, [])) && InDomain(Needing(k, raw)) && raw + rest != []
    requires Fire(k, raw) == Fail(e)
    ensures Run(Needing(k, []), raw + rest) == ([Failed(e)] + Run(START, rest).0, Run(START, rest).1)
  {
    hide Fire, Need, Run, InDomain;
    var data := raw + rest;
    assert data[..|raw|] == raw && data[|raw|..] == rest && [] + raw == raw;
    RunUnfold(Needing(k, []), data);
  }

  // ----- pack headers

  lemma StuffingBits(b: seq<byte>, q: nat, n: nat)
    requires |b| == 10 && b[9] as int == 8 * q + n && n < 8
    ensures PackStuffingLength(b) == n
  {
  }

  lemma PshStarts(b: seq<byte>)
    requires |b| == 10
    ensures AfterCode(0xBA) == Needing(KPsh, []) && InDomain(Needing(KPsh, [])) && InDomain(Needing(KPsh, b))
    ensures InDomain(Stuffing(b, 0)) && Need(KPsh) == 10 && Fire(KPsh, b) == Go(Stuffing(b, 0))
  {
  }

  lemma StuffingSkipped(b: seq<byte>, s: seq<byte>, rest: seq<byte>)
    requires |b| == 10 && |s| == PackStuffingLength(b) && s + rest != []
    ensures InDomain(Stuffing(b, 0)) && Advance(Stuffing(b, 0), s + rest) == Step(START, rest, [Packed(Psh(b))])
  {
    assert (s + rest)[|s|..] == rest;
  }

  /** The last three bits of a pack header say how many stuffing bytes follow, whatever these are. */
  lemma PackHeaderBytes(b: seq<byte>, q: nat, n: nat, s: seq<byte>, rest: seq<byte>)
    requires |b| == 10 && b[9] as int == 8 * q + n && n < 8 && |s| == n && s + rest != []
    ensures Run(START, [0, 0, 1, 0xBA] + b + s + rest) == ([Packed(Psh(b))] + Run(START, rest).0, Run(START, rest).1)
  {
    hide Run, Fire, FindIn, AfterCode, InDomain, Need, Advance, PackStuffingLength;
    var after := s + rest;
    Assoc([0, 0, 1, 0xBA] + b, s, rest);
    Assoc([0, 0, 1, 0xBA], b, after);
    StuffingBits(b, q, n);
    PshStarts(b);
    StartCodeInFront(0xBA, b + after);
    CollectGo(KPsh, b, after, Stuffing(b, 0));
    StuffingSkipped(b, s, rest);
    RunUnfold(Stuffing(b, 0), after);
  }

  lemma {:induction false} StuffingIsOnes(n: nat)
    ensures |Stuff(n)| == n && forall i :: 0 <= i < n ==> Stuff(n)[i] == 0xff
  {
    StuffIsFull(n);
  }

  /** It is written with that many bytes of 0xff behind it. */
  lemma PackHeaderWritten(b: seq<byte>, q: nat, n: nat)
    requires |b| == 10 && b[9] as int == 8 * q + n && n < 8
    ensures |Print(Psh(b))| == 14 + n && Print(Psh(b))[..14] == [0, 0, 1, 0xBA] + b
    ensures forall i :: 14 <= i < 14 + n ==> Print(Psh(b))[i] == 0xff
  {
    StuffingIsOnes(n);
    Assoc([0, 0, 1, 0xBA], b, Stuff(n));
    assert Print(Psh(b)) == [0, 0, 1, 0xBA] + b + Stuff(n);
  }

  // ----- system headers

  /** Stream infos of three bytes each. */
  predicate AreInfos(entries: seq<byte>, infos: seq<SysStreamInfo>) {
    |entries| == 3 * |infos|
    && forall i :: 0 <= i < |infos| ==> infos[i] == SysStreamInfo(entries[3 * i], entries[3 * i + 1], entries[3 * i + 2])
  }

  lemma {:induction false} InfosPrinted(infos: seq<SysStreamInfo>)
    ensures AreInfos(PrintSysInfos(infos), infos)
  {
    if infos != [] {
      InfosPrinted(infos[1..]);
      var rest := PrintSysInfos(infos[1..]);
      var all := PrintSysInfos(infos);
      assert all == [infos[0].streamId, infos[0].b0, infos[0].b1] + rest;
      forall i | 0 <= i < |infos|
        ensures infos[i] == SysStreamInfo(all[3 * i], all[3 * i + 1], all[3 * i + 2])
      {
        if i > 0 {
          assert infos[1..][i - 1] == SysStreamInfo(rest[3 * (i - 1)], rest[3 * (i - 1) + 1], rest[3 * (i - 1) + 2]);
          assert all[3 * i] == rest[3 * i - 3] && all[3 * i + 1] == rest[3 * i - 2] && all[3 * i + 2] == rest[3 * i - 1];
        }
      }
    }
  }

  lemma SameInfos(a: seq<byte>, b: seq<byte>, infos: seq<SysStreamInfo>)
    requires AreInfos(a, infos) && AreInfos(b, infos)
    ensures a == b
  {
    forall k | 0 <= k < |a| ensures a[k] == b[k] {
      var i := k / 3;
      assert infos[i] == SysStreamInfo(a[3 * i], a[3 * i + 1], a[3 * i + 2]);
      assert infos[i] == SysStreamInfo(b[3 * i], b[3 * i + 1], b[3 * i + 2]);
      assert k == 3 * i || k == 3 * i + 1 || k == 3 * i + 2;
    }
  }

  lemma LengthPrinted(hi: byte, lo: byte)
    ensures PutUint16(0x100 * hi as int + lo as int) == [hi, lo]
  {
  }

  /** A system header: two bytes of length, six of flags, and three for each stream, as many as the length says. */
  lemma SystemHeaderBytes(hi: byte, lo: byte, six: seq<byte>, entries: seq<byte>, infos: seq<SysStreamInfo>, rest: seq<byte>)
    requires |six| == 6 && AreInfos(entries, infos) && 0x100 * hi as int + lo as int == 6 + 3 * |infos|
    requires entries + rest != []
    ensures Print(Sys(6 + 3 * |infos|, six, infos)) == [0, 0, 1, 0xBB] + ([hi, lo] + six + entries)
    ensures GivesPack(Sys(6 + 3 * |infos|, six, infos), [0, 0, 1, 0xBB] + ([hi, lo] + six + entries), rest)
  {
    hide Run;
    var p := Sys(6 + 3 * |infos|, six, infos);
    InfosPrinted(infos);
    SameInfos(entries, PrintSysInfos(infos), infos);
    LengthPrinted(hi, lo);
    PackParses(p, rest);
  }

  /** A length that leaves no whole number of streams is an error behind the flags. */
  lemma SystemHeaderError(hi: byte, lo: byte, six: seq<byte>, rest: seq<byte>)
    requires |six| == 6 && 0x100 * hi as int + lo as int >= 6 && (0x100 * hi as int + lo as int) % 3 != 0
    ensures GivesError(SysHeaderLengthError, [0, 0, 1, 0xBB] + ([hi, lo] + six), rest)
  {
    hide Run, FindIn;
    var raw := [hi, lo] + six;
    Assoc([0, 0, 1, 0xBB], raw, rest);
    StartCodeInFront(0xBB, raw + rest);
    assert BigEndian16(raw) == 0x100 * hi as int + lo as int;
    CollectFail(KSys, raw, rest, SysHeaderLengthError);
  }

  // ----- stream maps

  /** An entry of a stream map: type, id, two bytes of length, and that many bytes of descriptors. */
  predicate IsEntry(e: seq<byte>, info: ElementaryStreamInfo) {
    && |e| == 4 + |info.descriptors| && e[0] == info.typ && e[1] == info.id
    && 0x100 * e[2] as int + e[3] as int == |info.descriptors| && e[4..] == info.descriptors
  }

  lemma {:induction false} EntriesPrinted(entries: seq<seq<byte>>, infos: seq<ElementaryStreamInfo>)
    requires |entries| == |infos| && forall i :: 0 <= i < |infos| ==> IsEntry(entries[i], infos[i])
    ensures PrintInfos(infos) == Concat(entries)
  {
    if infos != [] {
      EntryPrinted(entries[0], infos[0]);
      EntriesPrinted(entries[1..], infos[1..]);
    }
  }

  lemma EntryPrinted(e: seq<byte>, info: ElementaryStreamInfo)
    requires IsEntry(e, info)
    ensures PrintInfo(info) == e
  {
    LengthPrinted(e[2], e[3]);
    assert e == [e[0], e[1], e[2], e[3]] + e[4..];
    assert PrintInfo(info) == [info.typ, info.id] + [e[2], e[3]] + info.descriptors;
  }

  /** A stream map: its length, two bytes, and three parts: descriptors and entries, each behind two bytes of
      length, and four bytes of checksum. */
  lemma StreamMapBytes(hi: byte, lo: byte, two: seq<byte>, dh: byte, dl: byte, descriptors: seq<byte>, mh: byte, ml: byte,
                       entries: seq<seq<byte>>, infos: seq<ElementaryStreamInfo>, crc: seq<byte>, rest: seq<byte>)
    requires |two| == 2 && |crc| == 4
    requires |entries| == |infos| && forall i :: 0 <= i < |infos| ==> IsEntry(entries[i], infos[i])
    requires 0x100 * dh as int + dl as int == |descriptors| && 0x100 * mh as int + ml as int == |Concat(entries)|
    requires 0x100 * hi as int + lo as int == 10 + |descriptors| + |Concat(entries)|
    ensures var p := Psm(10 + |descriptors| + |Concat(entries)|, two[0], two[1], descriptors, infos, crc);
            var stretch := [0, 0, 1, 0xBC] + ([hi, lo] + (two + [dh, dl] + (descriptors + ([mh, ml] + (Concat(entries) + crc)))));
            Print(p) == stretch && GivesPack(p, stretch, rest)
  {
    hide Run, Print, PrintInfos, IsEntry, Concat;
    EntriesPrinted(entries, infos);
    var p := Psm(10 + |descriptors| + |Concat(entries)|, two[0], two[1], descriptors, infos, crc);
    StreamMapPrinted(p, hi, lo, two, dh, dl, mh, ml);
    PackParses(p, rest);
    NotNothing(p);
  }

  lemma StreamMapPrinted(p: Pack, hi: byte, lo: byte, two: seq<byte>, dh: byte, dl: byte, mh: byte, ml: byte)
    requires p.Psm? && |two| == 2 && two[0] == p.p0 && two[1] == p.p1
    requires 0x100 * dh as int + dl as int == |p.descriptors| && 0x100 * mh as int + ml as int == |PrintInfos(p.infos)|
    requires 0x100 * hi as int + lo as int == p.psmLength
    ensures Print(p) == [0, 0, 1, 0xBC] + ([hi, lo] + (two + [dh, dl]
                        + (p.descriptors + ([mh, ml] + (PrintInfos(p.infos) + p.crc32)))))
  {
    hide PrintInfos, PutUint16;
    LengthPrinted(hi, lo);
    LengthPrinted(dh, dl);
    LengthPrinted(mh, ml);
    assert two == [p.p0, p.p1];
  }

  lemma NotNothing(p: Pack)
    requires p.Psm?
    ensures !EndsWithNothing(p)
  {
  }

  /** A stream map of fewer than ten bytes is an error. */
  lemma StreamMapError(hi: byte, lo: byte, rest: seq<byte>)
    requires 0x100 * hi as int + lo as int < 10
    ensures GivesError(PsmLengthError, [0, 0, 1, 0xBC] + [hi, lo], rest)
  {
    hide Run, FindIn;
    Assoc([0, 0, 1, 0xBC], [hi, lo], rest);
    StartCodeInFront(0xBC, [hi, lo] + rest);
    assert BigEndian16([hi, lo]) == 0x100 * hi as int + lo as int;
    CollectFail(KPsmLength, [hi, lo], rest, PsmLengthError);
  }

  // ----- PES packets

  /** Seven stream ids come without a PES header: after their length, all is data. */
  lemma PlainPesBytes(id: byte, hi: byte, lo: byte, data: seq<byte>, rest: seq<byte>)
    requires id == 0xBE || id == 0xBF || id == 0xF0 || id == 0xF1 || id == 0xF2 || id == 0xF8 || id == 0xFF
    requires 0x100 * hi as int + lo as int == |data| && data + rest != []
    ensures Print(Pes(Plain(id, |data|), data)) == [0, 0, 1, id] + ([hi, lo] + data)
    ensures GivesPack(Pes(Plain(id, |data|), data), [0, 0, 1, id] + ([hi, lo] + data), rest)
  {
    hide Run;
    var p := Pes(Plain(id, |data|), data);
    LengthPrinted(hi, lo);
    Assoc([0, 0, 1, id], [hi, lo], data);
    PackParses(p, rest);
  }

  /** All others but those of pack headers, system headers and stream maps have one. */
  predicate HasHeader(id: byte) {
    id != 0xBA && id != 0xBB && id != 0xBC && id != 0xBE && id != 0xBF && id != 0xF0 && id != 0xF1 && id != 0xF2
    && id != 0xF8 && id != 0xFF
  }

  lemma PesStarts(id: byte, hi: byte, lo: byte, rest: seq<byte>)
    requires HasHeader(id) && 0x100 * hi as int + lo as int >= 3
    ensures var k := KPesFixed(id, 0x100 * hi as int + lo as int);
            InDomain(Needing(k, [])) && Run(START, [0, 0, 1, id] + ([hi, lo] + rest)) == Run(Needing(k, []), rest)
  {
    hide Run, FindIn;
    StartCodeInFront(id, [hi, lo] + rest);
    assert BigEndian16([hi, lo]) == 0x100 * hi as int + lo as int;
    CollectGo(KPesLength(id), [hi, lo], rest, Needing(KPesFixed(id, 0x100 * hi as int + lo as int), []));
  }

  /** A packet too short for the fixed bytes of its header is an error. */
  lemma PesLengthIsError(id: byte, hi: byte, lo: byte, rest: seq<byte>)
    requires HasHeader(id) && 0x100 * hi as int + lo as int < 3
    ensures GivesError(PesLengthError, [0, 0, 1, id] + [hi, lo], rest)
  {
    hide Run, FindIn;
    Assoc([0, 0, 1, id], [hi, lo], rest);
    StartCodeInFront(id, [hi, lo] + rest);
    assert BigEndian16([hi, lo]) == 0x100 * hi as int + lo as int;
    CollectFail(KPesLength(id), [hi, lo], rest, PesLengthError);
  }

  /** And so is one too short for its header data. */
  lemma HeaderDataIsError(id: byte, hi: byte, lo: byte, b0: byte, flags: byte, n: byte, rest: seq<byte>)
    requires HasHeader(id) && 3 <= 0x100 * hi as int + lo as int < 3 + n as int
    ensures GivesError(PesLengthError, [0, 0, 1, id] + ([hi, lo] + [b0, flags, n]), rest)
  {
    hide Run, FindIn;
    Assoc([hi, lo], [b0, flags, n], rest);
    Assoc([0, 0, 1, id], [hi, lo] + [b0, flags, n], rest);
    PesStarts(id, hi, lo, [b0, flags, n] + rest);
    CollectFail(KPesFixed(id, 0x100 * hi as int + lo as int), [b0, flags, n], rest, PesLengthError);
  }

  /** A byte by its bits, the highest first. */
  function Byte(b7: bool, b6: bool, b5: bool, b4: bool, b3: bool, b2: bool, b1: bool, b0: bool): byte {
    (if b7 then 128 else 0) + (if b6 then 64 else 0) + (if b5 then 32 else 0) + (if b4 then 16 else 0)
    + (if b3 then 8 else 0) + (if b2 then 4 else 0) + (if b1 then 2 else 0) + if b0 then 1 else 0
  }

  lemma HighBits(b7: bool, b6: bool, b5: bool, low: nat)
    requires low < 32
    ensures var b := ((if b7 then 128 else 0) + (if b6 then 64 else 0) + (if b5 then 32 else 0) + low) as byte;
            && (PtsOnly(b) <==> b7 && !b6) && (PtsAndDts(b) <==> b7 && b6) && (EscrFlag(b) <==> b5)
            && (PrivateDataFlag(b) <==> b7) && (PackHeaderFlag(b) <==> b6) && (CounterFlag(b) <==> b5)
  {
  }

  lemma MiddleBits(high: nat, b4: bool, b3: bool, low: nat)
    requires high < 8 && low < 8
    ensures var b := (32 * high + (if b4 then 16 else 0) + (if b3 then 8 else 0) + low) as byte;
            (EsRateFlag(b) <==> b4) && (TrickModeFlag(b) <==> b3) && (PStdBufferFlag(b) <==> b4)
  {
    var m := 4 * high + (if b4 then 2 else 0) + if b3 then 1 else 0;
    var b := 8 * m + low;
    assert b / 8 == m && b / 16 == m / 2;
  }

  lemma LowBits(high: nat, b2: bool, b1: bool, b0: bool)
    requires high < 32
    ensures var b := (8 * high + (if b2 then 4 else 0) + (if b1 then 2 else 0) + if b0 then 1 else 0) as byte;
            (CopyInfoFlag(b) <==> b2) && (CrcFlag(b) <==> b1) && (ExtensionFlag(b) <==> b0) && (ExtensionFlag2(b) <==> b0)
  {
    var q := 2 * high + if b2 then 1 else 0;
    var h := 2 * q + if b1 then 1 else 0;
    var b := 2 * h + if b0 then 1 else 0;
    assert b / 2 == h && b / 4 == h / 2 == q;
  }

  lemma FlagBits(b7: bool, b6: bool, b5: bool, b4: bool, b3: bool, b2: bool, b1: bool, b0: bool)
    ensures var b := Byte(b7, b6, b5, b4, b3, b2, b1, b0);
            && (PtsOnly(b) <==> b7 && !b6) && (PtsAndDts(b) <==> b7 && b6)
            && (EscrFlag(b) <==> b5) && (EsRateFlag(b) <==> b4) && (TrickModeFlag(b) <==> b3)
            && (CopyInfoFlag(b) <==> b2) && (CrcFlag(b) <==> b1) && (ExtensionFlag(b) <==> b0)
            && (PrivateDataFlag(b) <==> b7) && (PackHeaderFlag(b) <==> b6) && (CounterFlag(b) <==> b5)
            && (PStdBufferFlag(b) <==> b4) && (ExtensionFlag2(b) <==> b0)
  {
    hide PtsOnly, PtsAndDts, EscrFlag, EsRateFlag, TrickModeFlag, CopyInfoFlag, CrcFlag, ExtensionFlag;
    hide PrivateDataFlag, PackHeaderFlag, CounterFlag, PStdBufferFlag, ExtensionFlag2;
    var h := (if b7 then 4 else 0) + (if b6 then 2 else 0) + if b5 then 1 else 0;
    var m := 4 * h + (if b4 then 2 else 0) + if b3 then 1 else 0;
    var l := (if b2 then 4 else 0) + (if b1 then 2 else 0) + if b0 then 1 else 0;
    HighBits(b7, b6, b5, (if b4 then 16 else 0) + (if b3 then 8 else 0) + l);
    MiddleBits(h, b4, b3, l);
    LowBits(m, b2, b1, b0);
  }

  /** A field that is there, or not. */
  predicate There(field: seq<byte>, flag: bool, n: nat) {
    |field| == if flag then n else 0
  }

  /** A field with a byte of length in front, if it is there. */
  function WithLength(field: seq<byte>, flag: bool): seq<byte>
    requires |field| < 0x100
  {
    if flag then [|field|] + field else []
  }

  /** A PES header by its flags: time stamps of five bytes, a clock of six, a rate of three, and so on. */
  predicate FieldsByFlags(h: PesHeader, t1: bool, t0: bool, clock: bool, rate: bool, trick: bool, copy: bool, crc: bool, ext: bool)
    requires h.Full?
  {
    && h.flags == Byte(t1, t0, clock, rate, trick, copy, crc, ext)
    && There(h.pts, t1, 5) && There(h.dts, t1 && t0, 5) && There(h.escr, clock, 6) && There(h.esRate, rate, 3)
    && There(h.trickMode, trick, 1) && There(h.copyInfo, copy, 1) && There(h.crc, crc, 2) && (h.ext.Extension? <==> ext)
  }

  /** An extension by its own flags, three of which mean nothing. */
  predicate ExtensionByFlags(e: Extension, private: bool, pack: bool, counter: bool, buffer: bool, x: bool, y: bool, z: bool, more: bool)
    requires e.Extension?
  {
    && e.base == Byte(private, pack, counter, buffer, x, y, z, more)
    && There(e.privateData, private, 16) && |e.packHeader| < 0x100 && (!pack ==> e.packHeader == [])
    && There(e.counter, counter, 2) && There(e.pStdBuffer, buffer, 2) && |e.field| < 0x100 && (!more ==> e.field == [])
  }

  /** An extension in bytes. */
  function ByFlags(e: Extension, pack: bool, more: bool): seq<byte>
    requires e.Extension? && |e.packHeader| < 0x100 && |e.field| < 0x100
  {
    [e.base] + (e.privateData + (WithLength(e.packHeader, pack) + (e.counter + (e.pStdBuffer + WithLength(e.field, more)))))
  }

  lemma ExtensionLaidOut(e: Extension, private: bool, pack: bool, counter: bool, buffer: bool, x: bool, y: bool, z: bool, more: bool)
    requires e.Extension? && ExtensionByFlags(e, private, pack, counter, buffer, x, y, z, more)
    ensures ExtensionMatchesFlags(e, true)
    ensures ExtensionBytes(e) == ByFlags(e, pack, more)
  {
    FlagBits(private, pack, counter, buffer, x, y, z, more);
    hide PrivateDataFlag, PackHeaderFlag, CounterFlag, PStdBufferFlag, ExtensionFlag2, Byte;
  }

  lemma FieldsMatch(h: PesHeader, t1: bool, t0: bool, clock: bool, rate: bool, trick: bool, copy: bool, crc: bool, ext: bool)
    requires h.Full? && FieldsByFlags(h, t1, t0, clock, rate, trick, copy, crc, ext)
    requires h.ext.Extension? ==> ExtensionMatchesFlags(h.ext, true)
    ensures MatchesFlags(h) && (EsRateFlag(h.flags) <==> rate)
  {
    FlagBits(t1, t0, clock, rate, trick, copy, crc, ext);
    hide PtsOnly, PtsAndDts, EscrFlag, EsRateFlag, TrickModeFlag, CopyInfoFlag, CrcFlag, ExtensionFlag, Byte;
  }

  /** From the header data on, if it decodes to a header. */
  lemma HeaderGives(h: PesHeader, hi: byte, lo: byte, raw: seq<byte>, data: seq<byte>, rest: seq<byte>)
    requires h.Full? && HasHeader(h.id) && |raw| == h.headerDataLength as int && data + rest != []
    requires h.packetLength == 0x100 * hi as int + lo as int == 3 + |raw| + |data|
    requires DecodePesHeader(h.id, h.packetLength, h.b0, h.flags, h.headerDataLength, raw) == Ok(h)
    ensures GivesPack(Pes(h, data), [0, 0, 1, h.id] + ([hi, lo] + ([h.b0, h.flags, h.headerDataLength] + (raw + data))), rest)
  {
    hide Run, FindIn, DecodePesHeader, Fire;
    var fixed := [h.b0, h.flags, h.headerDataLength];
    var after := raw + (data + rest);
    Assoc([0, 0, 1, h.id], [hi, lo] + (fixed + (raw + data)), rest);
    Assoc([hi, lo], fixed + (raw + data), rest);
    Assoc(fixed, raw + data, rest);
    Assoc(raw, data, rest);
    PesStarts(h.id, hi, lo, fixed + after);
    HeaderFires(h, raw, data);
    var k := KPesHeader(h.id, h.packetLength, h.b0, h.flags, h.headerDataLength);
    CollectGo(KPesFixed(h.id, h.packetLength), fixed, after, Needing(k, []));
    CollectGo(k, raw, data + rest, Needing(KPesData(h), []));
    CollectEmit(KPesData(h), data, rest, Pes(h, data));
  }

  lemma HeaderFires(h: PesHeader, raw: seq<byte>, data: seq<byte>)
    requires h.Full? && HasHeader(h.id) && |raw| == h.headerDataLength as int && h.packetLength == 3 + |raw| + |data|
    requires DecodePesHeader(h.id, h.packetLength, h.b0, h.flags, h.headerDataLength, raw) == Ok(h)
    ensures Fire(KPesFixed(h.id, h.packetLength), [h.b0, h.flags, h.headerDataLength])
            == Go(Needing(KPesHeader(h.id, h.packetLength, h.b0, h.flags, h.headerDataLength), []))
    ensures Fire(KPesHeader(h.id, h.packetLength, h.b0, h.flags, h.headerDataLength), raw) == Go(Needing(KPesData(h), []))
    ensures Fire(KPesData(h), data) == Emit(Pes(h, data))
  {
    hide DecodePesHeader, FindIn;
  }

  /** The optional fields in their order. */
  function FieldBytes(h: PesHeader): seq<byte>
    requires h.Full?
  {
    h.pts + (h.dts + (h.escr + (h.esRate + (h.trickMode + (h.copyInfo + h.crc)))))
  }

  lemma FieldsGive(h: PesHeader, rate: bool, hi: byte, lo: byte, stuffing: seq<byte>, data: seq<byte>, rest: seq<byte>)
    requires h.Full? && HasHeader(h.id) && h.id != 0 && MatchesFlags(h) && (EsRateFlag(h.flags) <==> rate)
    requires rate ==> AfterEsRate(h) == []
    requires |FieldBytes(h)| + |ExtensionBytes(h.ext)| + |stuffing| == h.headerDataLength as int
    requires h.packetLength == 0x100 * hi as int + lo as int == 3 + h.headerDataLength as int + |data|
    requires data + rest != []
    ensures GivesPack(Pes(h, data), [0, 0, 1, h.id] + ([hi, lo] + ([h.b0, h.flags, h.headerDataLength]
                      + (FieldBytes(h) + (ExtensionBytes(h.ext) + stuffing) + data))), rest)
  {
    hide Run, FindIn, DecodePesHeader, ExtensionBytes, MatchesFlags, AfterEsRate, GivesPack;
    var after := ExtensionBytes(h.ext) + stuffing;
    assert Consistent(h);
    if rate {
      EsRateDecodesIff(h, after);
    } else {
      PlainFieldsDecodeIff(h, after);
    }
    HeaderGives(h, hi, lo, Fields(h) + after, data, rest);
  }

  /** A PES packet without an extension, and with nothing behind an ES rate: each field as its flag says, any
      stuffing, and the data. */
  lemma PesBytes(h: PesHeader, t1: bool, t0: bool, clock: bool, rate: bool, trick: bool, copy: bool, crc: bool,
                 hi: byte, lo: byte, stuffing: seq<byte>, data: seq<byte>, rest: seq<byte>)
    requires h.Full? && HasHeader(h.id) && h.id != 0 && FieldsByFlags(h, t1, t0, clock, rate, trick, copy, crc, false)
    requires rate ==> !trick && !copy && !crc
    requires |FieldBytes(h)| + |stuffing| == h.headerDataLength as int
    requires h.packetLength == 0x100 * hi as int + lo as int == 3 + h.headerDataLength as int + |data|
    requires data + rest != []
    ensures GivesPack(Pes(h, data), [0, 0, 1, h.id] + ([hi, lo] + ([h.b0, h.flags, h.headerDataLength]
                      + (FieldBytes(h) + stuffing + data))), rest)
  {
    hide FieldBytes, GivesPack, MatchesFlags;
    FieldsMatch(h, t1, t0, clock, rate, trick, copy, crc, false);
    NothingBefore(stuffing);
    FieldsGive(h, rate, hi, lo, stuffing, data, rest);
  }

  /** With an extension, and no ES rate: its flags, private data of sixteen bytes, a pack header behind its length,
      a counter and a buffer size of two bytes each, and a last field behind its length. */
  lemma PesExtensionBytes(h: PesHeader, t1: bool, t0: bool, clock: bool, trick: bool, copy: bool, crc: bool,
                          private: bool, pack: bool, counter: bool, buffer: bool, x: bool, y: bool, z: bool, more: bool,
                          hi: byte, lo: byte, stuffing: seq<byte>, data: seq<byte>, rest: seq<byte>)
    requires h.Full? && HasHeader(h.id) && h.id != 0 && FieldsByFlags(h, t1, t0, clock, false, trick, copy, crc, true)
    requires ExtensionByFlags(h.ext, private, pack, counter, buffer, x, y, z, more)
    requires |FieldBytes(h)| + |ByFlags(h.ext, pack, more)| + |stuffing| == h.headerDataLength as int
    requires h.packetLength == 0x100 * hi as int + lo as int == 3 + h.headerDataLength as int + |data|
    requires data + rest != []
    ensures GivesPack(Pes(h, data), [0, 0, 1, h.id] + ([hi, lo] + ([h.b0, h.flags, h.headerDataLength]
                      + (FieldBytes(h) + (ByFlags(h.ext, pack, more) + stuffing) + data))), rest)
  {
    hide FieldBytes, GivesPack, MatchesFlags, ByFlags, ExtensionBytes, ExtensionMatchesFlags;
    ExtensionLaidOut(h.ext, private, pack, counter, buffer, x, y, z, more);
    FieldsMatch(h, t1, t0, clock, false, trick, copy, crc, true);
    FieldsGive(h, false, hi, lo, stuffing, data, rest);
  }

  // ----- PES headers as they are written

  /** Without an extension, the fields and as many bytes of 0xff as the declared length leaves. */
  lemma PesWritten(h: PesHeader, hi: byte, lo: byte, ones: seq<byte>, data: seq<byte>)
    requires h.Full? && h.id != 0 && h.ext.NoExtension? && h.packetLength == 0x100 * hi as int + lo as int
    requires |FieldBytes(h)| + |ones| == h.headerDataLength as int && forall i :: 0 <= i < |ones| ==> ones[i] == 0xff
    ensures Print(Pes(h, data)) == [0, 0, 1, h.id] + [hi, lo] + [h.b0, h.flags, h.headerDataLength] + (FieldBytes(h) + ones) + data
  {
    LengthPrinted(hi, lo);
    StuffingIsOnes(|ones|);
    assert Stuff(|ones|) == ones;
    NothingBehind(FieldBytes(h));
  }

  /** With an extension that ends in a field of its own, that extension as well. */
  lemma PesExtensionWritten(h: PesHeader, t1: bool, t0: bool, clock: bool, rate: bool, trick: bool, copy: bool, crc: bool,
                            private: bool, pack: bool, counter: bool, buffer: bool, x: bool, y: bool, z: bool,
                            hi: byte, lo: byte, ones: seq<byte>, data: seq<byte>)
    requires h.Full? && HasHeader(h.id) && h.id != 0 && FieldsByFlags(h, t1, t0, clock, rate, trick, copy, crc, true)
    requires ExtensionByFlags(h.ext, private, pack, counter, buffer, x, y, z, true)
    requires |FieldBytes(h)| + |ByFlags(h.ext, pack, true)| + |ones| == h.headerDataLength as int
    requires h.packetLength == 0x100 * hi as int + lo as int && 3 + h.headerDataLength as int <= h.packetLength
    requires forall i :: 0 <= i < |ones| ==> ones[i] == 0xff
    ensures Print(Pes(h, data)) == [0, 0, 1, h.id] + [hi, lo] + [h.b0, h.flags, h.headerDataLength]
                                   + ((FieldBytes(h) + ByFlags(h.ext, pack, true)) + ones) + data
  {
    hide MatchesFlags, ByFlags, ExtensionBytes, ExtensionMatchesFlags, FieldBytes, Fields, PrintPesHeader, ExtensionFlag2, Byte;
    ExtensionLaidOut(h.ext, private, pack, counter, buffer, x, y, z, true);
    FieldsMatch(h, t1, t0, clock, rate, trick, copy, crc, true);
    FlagBits(private, pack, counter, buffer, x, y, z, true);
    SameFields(h);
    PrintIsEncodeIff(h);
    LengthPrinted(hi, lo);
    StuffingIsOnes(|ones|);
    assert Stuff(|ones|) == ones;
  }

  lemma SameFields(h: PesHeader)
    requires h.Full?
    ensures Fields(h) == FieldBytes(h)
  {
  }
}
