/** What the WriteTo methods of media/ps write, and that parsing undoes it under every chunking. */
module PsPrint {
  import opened Bytes
  import opened Sequences
  import opened PsPacks

  // ----- the bytes of each pack

  function StartBytes(id: byte): seq<byte> {
    [0, 0, 1, id]
  }

  function PutUint16(n: nat): seq<byte> {
    [n / 0x100 % 0x100, n % 0x100]
  }

  function Stuff(n: int): (s: seq<byte>)
    ensures |s| == if n < 0 then 0 else n
    decreases n
  {
    if n <= 0 then [] else [0xff] + Stuff(n - 1)
  }

  function PrintSysInfos(infos: seq<SysStreamInfo>): (s: seq<byte>)
    ensures |s| == 3 * |infos|
  {
    if infos == [] then []
    else [infos[0].streamId, infos[0].b0, infos[0].b1] + PrintSysInfos(infos[1..])
  }

  function PrintInfo(i: ElementaryStreamInfo): seq<byte> {
    [i.typ, i.id] + PutUint16(|i.descriptors|) + i.descriptors
  }

  function PrintInfos(infos: seq<ElementaryStreamInfo>): seq<byte> {
    if infos == [] then [] else PrintInfo(infos[0]) + PrintInfos(infos[1..])
  }

  function Counted(flag: bool, field: seq<byte>): seq<byte> {
    if flag then [|field| % 0x100] + field else []
  }

  /** The optional fields before the extension, in the order of section 2.4.3.6 of ISO/IEC 13818-1. */
  function Fields(h: PesHeader): seq<byte>
    requires h.Full?
  {
    h.pts + (h.dts + (h.escr + (h.esRate + (h.trickMode + (h.copyInfo + h.crc)))))
  }

  function ExtensionBytes(e: Extension): seq<byte> {
    match e
    case NoExtension => []
    case Extension(base, privateData, packHeader, counter, pStd, field) =>
      [base] + (privateData + (Counted(PackHeaderFlag(base), packHeader)
      + (counter + (pStd + Counted(ExtensionFlag2(base), field)))))
  }

  /** The extension's flag byte, private data and pack header: bytes already passed on, and bytes
      still in the 16-byte buffer. */
  function WriteExtensionHead(e: Extension): (seq<byte>, seq<byte>)
    requires e.Extension?
  {
    var (out, buf) := if PrivateDataFlag(e.base) then ([e.base] + e.privateData, []) else ([], [e.base]);
    if PackHeaderFlag(e.base) then (out + (buf + Counted(true, e.packHeader)), []) else (out, buf)
  }

  /** How the extension is written: what is in the buffer behind the last field is never flushed. */
  function WriteExtension(e: Extension): (seq<byte>, seq<byte>) {
    match e
    case NoExtension => ([], [])
    case Extension(base, _, _, counter, pStd, field) =>
      var (out, buf) := WriteExtensionHead(e);
      var more := buf + counter + pStd;
      if ExtensionFlag2(base) then (out + (more + Counted(true, field)), []) else (out, more)
  }

  function HeaderPrefix(h: PesHeader): seq<byte> {
    StartBytes(h.id) + PutUint16(h.packetLength)
    + if h.Plain? then [] else [h.b0, h.flags, h.headerDataLength]
  }

  /** PESHeader.WriteTo: the stuffing fills what the bytes passed on leave of the header data. A header
      with stream id 0 counts as empty. */
  function PrintPesHeader(h: PesHeader): seq<byte> {
    if h.id == 0 then [] else
    match h
    case Plain(_, _) => HeaderPrefix(h)
    case Full(_, _, _, _, hdl, _, _, _, _, _, _, _, _) =>
      var data := Fields(h) + WriteExtension(h.ext).0;
      HeaderPrefix(h) + (data + Stuff(hdl as int - |data|))
  }

  /** The header as section 2.4.3.6 of ISO/IEC 13818-1 lays it out. */
  function EncodePesHeader(h: PesHeader): seq<byte> {
    match h
    case Plain(_, _) => HeaderPrefix(h)
    case Full(_, _, _, _, hdl, _, _, _, _, _, _, _, _) =>
      var data := Fields(h) + ExtensionBytes(h.ext);
      HeaderPrefix(h) + (data + Stuff(hdl as int - |data|))
  }

  function Print(p: Pack): seq<byte> {
    match p
    case Psh(b) => StartBytes(PACK_START) + (b + Stuff(if |b| == 10 then PackStuffingLength(b) else 0))
    case Sys(headerLength, bytes6, infos) =>
      StartBytes(SYSTEM_START) + ((PutUint16(headerLength) + bytes6) + PrintSysInfos(infos))
    case Psm(_, _, _, _, _, _) => StartBytes(PROGRAM_STREAM_MAP) + (PutUint16(p.psmLength) + PsmBody(p))
    case Pes(h, data) => PrintPesHeader(h) + data
  }

  function PsmBody(p: Pack): seq<byte>
    requires p.Psm?
  {
    [p.p0, p.p1] + PutUint16(|p.descriptors|)
    + (p.descriptors + (PutUint16(|PrintInfos(p.infos)|) + (PrintInfos(p.infos) + p.crc32)))
  }

  function PrintAll(ps: seq<Pack>): seq<byte> {
    if ps == [] then [] else Print(ps[0]) + PrintAll(ps[1..])
  }

  // ----- well-formed packs

  predicate Sized(field: seq<byte>, flag: bool, n: nat) {
    |field| == if flag then n else 0
  }

  /** Each optional field is there exactly when its flag is on. */
  predicate ExtensionMatchesFlags(e: Extension, flag: bool) {
    match e
    case NoExtension => !flag
    case Extension(base, privateData, packHeader, counter, pStd, field) =>
      flag
      && Sized(privateData, PrivateDataFlag(base), 16)
      && |packHeader| < 0x100 && (!PackHeaderFlag(base) ==> packHeader == [])
      && Sized(counter, CounterFlag(base), 2)
      && Sized(pStd, PStdBufferFlag(base), 2)
      && |field| < 0x100 && (!ExtensionFlag2(base) ==> field == [])
  }

  predicate MatchesFlags(h: PesHeader)
    requires h.Full?
  {
    && Sized(h.pts, PtsOnly(h.flags) || PtsAndDts(h.flags), 5)
    && Sized(h.dts, PtsAndDts(h.flags), 5)
    && Sized(h.escr, EscrFlag(h.flags), 6)
    && Sized(h.esRate, EsRateFlag(h.flags), 3)
    && Sized(h.trickMode, TrickModeFlag(h.flags), 1)
    && Sized(h.copyInfo, CopyInfoFlag(h.flags), 1)
    && Sized(h.crc, CrcFlag(h.flags), 2)
    && ExtensionMatchesFlags(h.ext, ExtensionFlag(h.flags))
  }

  /** Field lengths, flags and declared lengths agree. */
  predicate Consistent(h: PesHeader) {
    h.packetLength < 0x1_0000
    && h.id != 0 && h.id != PACK_START && h.id != SYSTEM_START && h.id != PROGRAM_STREAM_MAP
    && if h.Plain? then HasNoHeader(h.id)
       else !HasNoHeader(h.id) && MatchesFlags(h)
            && |Fields(h)| + |ExtensionBytes(h.ext)| <= h.headerDataLength
            && 3 + h.headerDataLength as int <= h.packetLength
  }

  predicate WellFormed(p: Pack) {
    match p
    case Psh(b) => |b| == 10
    case Sys(headerLength, bytes6, infos) =>
      |bytes6| == 6 && headerLength == 6 + 3 * |infos| && headerLength < 0x1_0000
    case Psm(n, _, _, descriptors, infos, crc) =>
      |crc| == 4 && n == 10 + |descriptors| + |PrintInfos(infos)| && n < 0x1_0000
    case Pes(h, data) => Consistent(h) && Survives(h) && DataSize(h) == |data|
  }

  /** The last thing the parser waits for behind this pack is zero bytes long. */
  predicate EndsWithNothing(p: Pack) {
    match p
    case Psh(b) => |b| == 10 && PackStuffingLength(b) == 0
    case Sys(_, _, infos) => infos == []
    case Psm(_, _, _, _, _, _) => false
    case Pes(_, data) => data == []
  }

  // ----- decoding undoes printing, body by body

  lemma Uint16Decodes(n: nat, rest: seq<byte>)
    requires n < 0x1_0000
    ensures BigEndian16(PutUint16(n) + rest) == n
  {
  }

  lemma {:induction false} SysInfosDecode(infos: seq<SysStreamInfo>)
    ensures DecodeSysInfos(PrintSysInfos(infos)) == infos
  {
    if infos != [] {
      SysInfosDecode(infos[1..]);
      assert PrintSysInfos(infos)[3..] == PrintSysInfos(infos[1..]);
    }
  }

  lemma InfoLayout(i: ElementaryStreamInfo, rest: seq<byte>)
    ensures var raw := PrintInfo(i) + rest; var n := |i.descriptors|;
            && |raw| == 4 + n + |rest| && raw[0] == i.typ && raw[1] == i.id
            && raw[2..] == PutUint16(n) + (i.descriptors + rest)
            && raw[4..4 + n] == i.descriptors && raw[4 + n..] == rest
  {
  }

  lemma EntryFits(raw: seq<byte>, mapLength: nat, min: nat, n: nat)
    requires 4 + n <= |raw| && n == BigEndian16(raw[2..]) && min + |raw| == mapLength < 0x1_0000
    ensures EntryLength(raw, mapLength, min) == Ok((n, min + 4 + n))
  {
    hide BigEndian16;
  }

  /** One pass of the loop over the elementary stream map, when nothing wraps. */
  lemma InfosUnfold(raw: seq<byte>, mapLength: nat, min: nat, n: nat, infos: seq<ElementaryStreamInfo>)
    requires 4 + n <= |raw| && n == BigEndian16(raw[2..]) && min + |raw| == mapLength < 0x1_0000
    requires DecodeInfos(raw[4 + n..], mapLength, min + 4 + n) == Ok(infos)
    ensures DecodeInfos(raw, mapLength, min) == Ok([ElementaryStreamInfo(raw[0], raw[1], raw[4..4 + n])] + infos)
  {
    hide BigEndian16, EntryLength;
    EntryFits(raw, mapLength, min, n);
  }

  lemma InfoDecodes(i: ElementaryStreamInfo, rest: seq<byte>, mapLength: nat, min: nat, infos: seq<ElementaryStreamInfo>)
    requires min + |PrintInfo(i)| + |rest| == mapLength < 0x1_0000
    requires DecodeInfos(rest, mapLength, min + |PrintInfo(i)|) == Ok(infos)
    ensures DecodeInfos(PrintInfo(i) + rest, mapLength, min) == Ok([i] + infos)
  {
    hide PrintInfo, PutUint16, BigEndian16, DecodeInfos;
    InfoLayout(i, rest);
    Uint16Decodes(|i.descriptors|, i.descriptors + rest);
    InfosUnfold(PrintInfo(i) + rest, mapLength, min, |i.descriptors|, infos);
  }

  lemma PrintInfosCons(infos: seq<ElementaryStreamInfo>)
    ensures PrintInfos(infos) == if infos == [] then [] else PrintInfo(infos[0]) + PrintInfos(infos[1..])
  {
    hide PrintInfo;
  }

  lemma NoInfosDecode(mapLength: nat, min: nat)
    ensures DecodeInfos([], mapLength, min) == Ok([])
  {
  }

  lemma {:induction false} InfosDecode(infos: seq<ElementaryStreamInfo>, mapLength: nat, min: nat)
    requires min + |PrintInfos(infos)| == mapLength < 0x1_0000
    ensures DecodeInfos(PrintInfos(infos), mapLength, min) == Ok(infos)
  {
    hide PrintInfo, DecodeInfos, PrintInfos;
    PrintInfosCons(infos);
    if infos == [] {
      NoInfosDecode(mapLength, min);
    } else {
      InfosDecode(infos[1..], mapLength, min + |PrintInfo(infos[0])|);
      InfoDecodes(infos[0], PrintInfos(infos[1..]), mapLength, min, infos[1..]);
      assert [infos[0]] + infos[1..] == infos;
    }
  }

  /** Where the parts of a printed stream map body lie. */
  lemma PsmLayout(p: Pack)
    requires p.Psm? && WellFormed(p)
    ensures var raw := PsmBody(p); var n := |p.descriptors|; var infos := PrintInfos(p.infos);
            && |raw| == p.psmLength && raw[0] == p.p0 && raw[1] == p.p1
            && raw[2..] == PutUint16(n) + (p.descriptors + (PutUint16(|infos|) + (infos + p.crc32)))
            && raw[4..4 + n] == p.descriptors
            && raw[4 + n..] == PutUint16(|infos|) + (infos + p.crc32)
            && raw[6 + n..] == infos + p.crc32
  {
    hide PrintInfos;
  }

  lemma PsmDecodes(p: Pack)
    requires p.Psm? && WellFormed(p)
    ensures |PsmBody(p)| == p.psmLength && DecodePsm(p.psmLength, PsmBody(p)) == Ok(p)
  {
    hide PrintInfos, DecodeInfos, PsmBody, BigEndian16, PutUint16;
    PsmLayout(p);
    var raw := PsmBody(p);
    var n := |p.descriptors|;
    var infos := PrintInfos(p.infos);
    Uint16Decodes(n, p.descriptors + (PutUint16(|infos|) + (infos + p.crc32)));
    Uint16Decodes(|infos|, infos + p.crc32);
    var rest := raw[6 + n..];
    assert rest[..|infos|] == infos && rest[|infos|..] == p.crc32;
    InfosDecode(p.infos, |infos|, 0);
  }

  // ----- the PES header

  /** A field of the right size is taken off the front, as long as the running length fits. */
  lemma TakeField(field: seq<byte>, rest: seq<byte>, min: nat, flag: bool, n: nat, hdl: byte)
    requires Sized(field, flag, n) && min + |field| <= hdl
    ensures TakeIf(flag, Cursor(field + rest, min), n, hdl) == Ok((field, Cursor(rest, min + |field|)))
  {
    assert (field + rest)[..|field|] == field && (field + rest)[|field|..] == rest;
    assert !flag ==> field + rest == rest;
  }

  lemma TakeIfOn(c: Cursor, n: nat, hdl: byte)
    ensures TakeIf(true, c, n, hdl) == Take(c, n, hdl)
  {
  }

  lemma TakeCountedField(field: seq<byte>, rest: seq<byte>, min: nat, flag: bool, hdl: byte)
    requires |field| < 0x100 && (!flag ==> field == [])
    requires min + |Counted(flag, field)| <= hdl
    ensures TakeCounted(flag, Cursor(Counted(flag, field) + rest, min), hdl)
            == Ok((field, Cursor(rest, min + |Counted(flag, field)|)))
  {
    hide Take, TakeIf;
    if flag {
      var n: seq<byte> := [|field|];
      Assoc(n, field, rest);
      TakeField(n, field + rest, min, true, 1, hdl);
      TakeIfOn(Cursor(n + (field + rest), min), 1, hdl);
      TakeField(field, rest, min + 1, true, |field|, hdl);
      TakeIfOn(Cursor(field + rest, min + 1), |field|, hdl);
    } else {
      NothingBefore(rest);
    }
  }

  lemma TakeTimesFields(h: PesHeader, rest: seq<byte>)
    requires h.Full? && MatchesFlags(h) && |h.pts| + |h.dts| <= h.headerDataLength
    ensures TakeTimes(h.flags, Cursor(h.pts + (h.dts + rest), 0), h.headerDataLength)
            == Ok((h.pts, h.dts, Cursor(rest, |h.pts| + |h.dts|)))
  {
    var all := h.pts + (h.dts + rest);
    if PtsOnly(h.flags) {
      assert h.dts + rest == rest && all[..5] == h.pts && all[5..] == rest;
    } else if PtsAndDts(h.flags) {
      assert all[..10] == h.pts + h.dts && all[10..] == rest;
      assert (h.pts + h.dts)[..5] == h.pts && (h.pts + h.dts)[5..] == h.dts;
    } else {
      assert all == rest;
    }
  }

  /** The extension fields as the parser meets them, with what follows. */
  lemma ExtensionLayout(e: Extension, rest: seq<byte>)
    requires e.Extension?
    ensures ExtensionBytes(e) + rest
            == [e.base] + (e.privateData + (Counted(PackHeaderFlag(e.base), e.packHeader)
            + (e.counter + (e.pStdBuffer + (Counted(ExtensionFlag2(e.base), e.field) + rest)))))
  {
    hide Counted;
    var last := Counted(ExtensionFlag2(e.base), e.field);
    var r3 := e.pStdBuffer + last;
    var r2 := e.counter + r3;
    var r1 := Counted(PackHeaderFlag(e.base), e.packHeader) + r2;
    var r0 := e.privateData + r1;
    Assoc(e.pStdBuffer, last, rest);
    Assoc(e.counter, r3, rest);
    Assoc(Counted(PackHeaderFlag(e.base), e.packHeader), r2, rest);
    Assoc(e.privateData, r1, rest);
    Assoc([e.base], r0, rest);
  }

  lemma ExtensionTailDecodes(e: Extension, rest: seq<byte>, m2: nat, hdl: byte)
    requires e.Extension? && ExtensionMatchesFlags(e, true)
    requires m2 + |e.counter| + |e.pStdBuffer| + |Counted(ExtensionFlag2(e.base), e.field)| <= hdl
    ensures TakeExtensionTail(e.base,
              Cursor(e.counter + (e.pStdBuffer + (Counted(ExtensionFlag2(e.base), e.field) + rest)), m2), hdl)
            == Ok((e.counter, e.pStdBuffer, e.field,
                   Cursor(rest, m2 + |e.counter| + |e.pStdBuffer| + |Counted(ExtensionFlag2(e.base), e.field)|)))
  {
    hide TakeIf, TakeCounted, Counted;
    var b := e.base;
    var r4 := Counted(ExtensionFlag2(b), e.field) + rest;
    TakeField(e.counter, e.pStdBuffer + r4, m2, CounterFlag(b), 2, hdl);
    TakeField(e.pStdBuffer, r4, m2 + |e.counter|, PStdBufferFlag(b), 2, hdl);
    TakeCountedField(e.field, rest, m2 + |e.counter| + |e.pStdBuffer|, ExtensionFlag2(b), hdl);
  }

  lemma ExtensionFieldsDecode(e: Extension, rest: seq<byte>, m0: nat, hdl: byte)
    requires e.Extension? && ExtensionMatchesFlags(e, true)
    requires m0 - 1 + |ExtensionBytes(e)| <= hdl
    ensures TakeExtensionFields(e.base,
              Cursor(e.privateData + (Counted(PackHeaderFlag(e.base), e.packHeader)
              + (e.counter + (e.pStdBuffer + (Counted(ExtensionFlag2(e.base), e.field) + rest)))), m0), hdl)
            == Ok((e, Cursor(rest, m0 - 1 + |ExtensionBytes(e)|)))
  {
    hide TakeIf, TakeCounted, Counted, TakeExtensionTail;
    var b := e.base;
    var counted := Counted(PackHeaderFlag(b), e.packHeader);
    var r2 := e.counter + (e.pStdBuffer + (Counted(ExtensionFlag2(b), e.field) + rest));
    TakeField(e.privateData, counted + r2, m0, PrivateDataFlag(b), 16, hdl);
    TakeCountedField(e.packHeader, r2, m0 + |e.privateData|, PackHeaderFlag(b), hdl);
    ExtensionTailDecodes(e, rest, m0 + |e.privateData| + |counted|, hdl);
  }

  lemma ExtensionDecodes(h: PesHeader, rest: seq<byte>, min: nat)
    requires h.Full? && ExtensionMatchesFlags(h.ext, ExtensionFlag(h.flags))
    requires min + |ExtensionBytes(h.ext)| <= h.headerDataLength
    ensures TakeExtension(h.flags, Cursor(ExtensionBytes(h.ext) + rest, min), h.headerDataLength)
            == Ok((h.ext, Cursor(rest, min + |ExtensionBytes(h.ext)|)))
  {
    hide TakeExtensionFields, ExtensionFlag, PackHeaderFlag, ExtensionFlag2, Counted, ExtensionBytes;
    match h.ext
    case NoExtension =>
      NoExtensionBytes();
      NothingBefore(rest);
    case Extension(base, _, _, _, _, _) =>
      ExtensionLayout(h.ext, rest);
      ExtensionFieldsDecode(h.ext, rest, min + 1, h.headerDataLength);
      ByteFirst(base, h.ext.privateData + (Counted(PackHeaderFlag(base), h.ext.packHeader)
              + (h.ext.counter + (h.ext.pStdBuffer + (Counted(ExtensionFlag2(base), h.ext.field) + rest)))));
  }

  lemma NoExtensionBytes()
    ensures ExtensionBytes(NoExtension) == []
  {
  }

  lemma ByteFirst(b: byte, rest: seq<byte>)
    ensures ([b] + rest)[..1] == [b] && ([b] + rest)[1..] == rest && ([b] + rest)[0] == b
  {
  }

  lemma FieldsLayout(h: PesHeader, rest: seq<byte>)
    requires h.Full?
    ensures Fields(h) + rest
            == h.pts + (h.dts + (h.escr + (h.esRate + (h.trickMode + (h.copyInfo + (h.crc + rest))))))
  {
    var r5 := h.copyInfo + h.crc;
    var r4 := h.trickMode + r5;
    var r3 := h.esRate + r4;
    var r2 := h.escr + r3;
    var r1 := h.dts + r2;
    Assoc(h.copyInfo, h.crc, rest);
    Assoc(h.trickMode, r5, rest);
    Assoc(h.esRate, r4, rest);
    Assoc(h.escr, r3, rest);
    Assoc(h.dts, r2, rest);
    Assoc(h.pts, r1, rest);
  }

  lemma SmallFieldsDecode(h: PesHeader, rest: seq<byte>, m2: nat)
    requires h.Full? && MatchesFlags(h)
    requires m2 + |h.trickMode| + |h.copyInfo| + |h.crc| <= h.headerDataLength
    ensures TakeSmallFields(h.flags, Cursor(h.trickMode + (h.copyInfo + (h.crc + rest)), m2), h.headerDataLength)
            == Ok((h.trickMode, h.copyInfo, h.crc, Cursor(rest, m2 + |h.trickMode| + |h.copyInfo| + |h.crc|)))
  {
    hide TakeIf, ExtensionMatchesFlags;
    var hdl := h.headerDataLength;
    var r5 := h.crc + rest;
    TakeField(h.trickMode, h.copyInfo + r5, m2, TrickModeFlag(h.flags), 1, hdl);
    TakeField(h.copyInfo, r5, m2 + |h.trickMode|, CopyInfoFlag(h.flags), 1, hdl);
    TakeField(h.crc, rest, m2 + |h.trickMode| + |h.copyInfo|, CrcFlag(h.flags), 2, hdl);
  }

  // ----- what the parser takes is what it had in front of it

  lemma TakenIf(flag: bool, c: Cursor, n: nat, hdl: byte)
    ensures TakeIf(flag, c, n, hdl).Ok? ==>
              var (f, c1) := TakeIf(flag, c, n, hdl).value; c.rest == f + c1.rest
  {
  }

  lemma TakenCounted(flag: bool, c: Cursor, hdl: byte)
    ensures TakeCounted(flag, c, hdl).Ok? ==>
              var (f, c1) := TakeCounted(flag, c, hdl).value; c.rest == Counted(flag, f) + c1.rest
  {
    if TakeCounted(flag, c, hdl).Ok? && flag {
      var (n, c0) := Take(c, 1, hdl).value;
      var (f, c1) := TakeCounted(flag, c, hdl).value;
      assert n[0] == |f| && c.rest == n + c0.rest && n == [n[0]];
    }
  }

  lemma TakenExtensionTail(base: byte, c2: Cursor, hdl: byte)
    ensures TakeExtensionTail(base, c2, hdl).Ok? ==>
              var (counter, pStd, field, c5) := TakeExtensionTail(base, c2, hdl).value;
              c2.rest == counter + (pStd + (Counted(ExtensionFlag2(base), field) + c5.rest))
  {
    hide TakeIf, TakeCounted, Counted;
    if TakeExtensionTail(base, c2, hdl).Ok? {
      TakenIf(CounterFlag(base), c2, 2, hdl);
      var c3 := TakeIf(CounterFlag(base), c2, 2, hdl).value.1;
      TakenIf(PStdBufferFlag(base), c3, 2, hdl);
      TakenCounted(ExtensionFlag2(base), TakeIf(PStdBufferFlag(base), c3, 2, hdl).value.1, hdl);
    }
  }

  lemma TakenExtension(flags: byte, c: Cursor, hdl: byte)
    ensures TakeExtension(flags, c, hdl).Ok? ==>
              var (e, c7) := TakeExtension(flags, c, hdl).value; c.rest == ExtensionBytes(e) + c7.rest
  {
    if TakeExtension(flags, c, hdl).Ok? && ExtensionFlag(flags) {
      hide TakeIf, TakeCounted, Counted, TakeExtensionTail;
      var (b, c0) := Take(c, 1, hdl).value;
      var base := b[0];
      assert c.rest == [base] + c0.rest;
      TakenIf(PrivateDataFlag(base), c0, 16, hdl);
      var c1 := TakeIf(PrivateDataFlag(base), c0, 16, hdl).value.1;
      TakenCounted(PackHeaderFlag(base), c1, hdl);
      TakenExtensionTail(base, TakeCounted(PackHeaderFlag(base), c1, hdl).value.1, hdl);
      var (e, c7) := TakeExtension(flags, c, hdl).value;
      ExtensionLayout(e, c7.rest);
    }
  }

  lemma TakenSmallFields(flags: byte, c3: Cursor, hdl: byte)
    ensures TakeSmallFields(flags, c3, hdl).Ok? ==>
              var (trickMode, copyInfo, crc, c6) := TakeSmallFields(flags, c3, hdl).value;
              c3.rest == trickMode + (copyInfo + (crc + c6.rest))
  {
    hide TakeIf;
    if TakeSmallFields(flags, c3, hdl).Ok? {
      TakenIf(TrickModeFlag(flags), c3, 1, hdl);
      var c4 := TakeIf(TrickModeFlag(flags), c3, 1, hdl).value.1;
      TakenIf(CopyInfoFlag(flags), c4, 1, hdl);
      TakenIf(CrcFlag(flags), TakeIf(CopyInfoFlag(flags), c4, 1, hdl).value.1, 2, hdl);
    }
  }

  /** The header data behind the ES rate. */
  function AfterEsRate(h: PesHeader): seq<byte>
    requires h.Full?
  {
    h.trickMode + (h.copyInfo + (h.crc + ExtensionBytes(h.ext)))
  }

  lemma AfterEsRateLayout(h: PesHeader, rest: seq<byte>)
    requires h.Full?
    ensures AfterEsRate(h) + rest == h.trickMode + (h.copyInfo + (h.crc + (ExtensionBytes(h.ext) + rest)))
  {
    hide ExtensionBytes;
    var x := ExtensionBytes(h.ext);
    Assoc(h.crc, x, rest);
    Assoc(h.copyInfo, h.crc + x, rest);
    Assoc(h.trickMode, h.copyInfo + (h.crc + x), rest);
  }

  /** What the parser makes of the header data of a header with an ES rate: the fields behind the
      rate are looked for in its own three bytes. */
  lemma EsRateDecodes(h: PesHeader, after: seq<byte>)
    requires h.Full? && Consistent(h) && EsRateFlag(h.flags)
    ensures var m := |h.pts| + |h.dts| + |h.escr| + 3;
            var hdl := h.headerDataLength;
            var small := TakeSmallFields(h.flags, Cursor(h.esRate, m), hdl);
            DecodePesHeader(h.id, h.packetLength, h.b0, h.flags, hdl, Fields(h) + after)
            == match small
               case Err(e) => Err(e)
               case Ok((trickMode, copyInfo, crc, c6)) =>
                 match TakeExtension(h.flags, c6, hdl)
                 case Err(e) => Err(e)
                 case Ok((ext, _)) =>
                   Ok(h.(trickMode := trickMode, copyInfo := copyInfo, crc := crc, ext := ext))
  {
    hide TakeTimes, TakeIf, TakeSmallFields, TakeExtension, ExtensionBytes, ExtensionMatchesFlags;
    var hdl := h.headerDataLength;
    var r3 := h.trickMode + (h.copyInfo + (h.crc + after));
    FieldsLayout(h, after);
    var m1 := |h.pts| + |h.dts|;
    var m2 := m1 + |h.escr|;
    assert m2 + 3 <= |Fields(h)|;
    TakeTimesFields(h, h.escr + (h.esRate + r3));
    TakeField(h.escr, h.esRate + r3, m1, EscrFlag(h.flags), 6, hdl);
    TakeField(h.esRate, r3, m2, true, 3, hdl);
    TakeIfOn(Cursor(h.esRate + r3, m2), 3, hdl);
  }

  /** Without ES rate, the fields are found where they are, and then the extension. */
  lemma PlainFieldsDecode(h: PesHeader, after: seq<byte>)
    requires h.Full? && Consistent(h) && !EsRateFlag(h.flags)
    ensures DecodePesHeader(h.id, h.packetLength, h.b0, h.flags, h.headerDataLength, Fields(h) + after)
            == match TakeExtension(h.flags, Cursor(after, |Fields(h)|), h.headerDataLength)
               case Err(e) => Err(e)
               case Ok((ext, _)) => Ok(h.(ext := ext))
  {
    hide TakeTimes, TakeIf, TakeSmallFields, TakeExtension, ExtensionBytes, ExtensionMatchesFlags;
    var hdl := h.headerDataLength;
    var r3 := h.trickMode + (h.copyInfo + (h.crc + after));
    assert h.esRate + r3 == r3;
    FieldsLayout(h, after);
    var m1 := |h.pts| + |h.dts|;
    var m2 := m1 + |h.escr|;
    assert m2 + |h.trickMode| + |h.copyInfo| + |h.crc| == |Fields(h)|;
    TakeTimesFields(h, h.escr + r3);
    TakeField(h.escr, r3, m1, EscrFlag(h.flags), 6, hdl);
    SmallFieldsDecode(h, after, m2);
  }

  lemma EsRateDecodesIff(h: PesHeader, after: seq<byte>)
    requires h.Full? && Consistent(h) && EsRateFlag(h.flags)
    ensures DecodePesHeader(h.id, h.packetLength, h.b0, h.flags, h.headerDataLength, Fields(h) + after) == Ok(h)
            <==> AfterEsRate(h) <= h.esRate
  {
    hide TakeSmallFields, TakeExtension, ExtensionBytes, ExtensionMatchesFlags, DecodePesHeader;
    EsRateDecodes(h, after);
    var hdl := h.headerDataLength;
    var m := |h.pts| + |h.dts| + |h.escr| + 3;
    if AfterEsRate(h) <= h.esRate {
      var r := h.esRate[|AfterEsRate(h)|..];
      assert h.esRate == AfterEsRate(h) + r;
      AfterEsRateLayout(h, r);
      SmallFieldsDecode(h, ExtensionBytes(h.ext) + r, m);
      ExtensionDecodes(h, r, m + |h.trickMode| + |h.copyInfo| + |h.crc|);
    } else {
      TakenSmallFields(h.flags, Cursor(h.esRate, m), hdl);
      var small := TakeSmallFields(h.flags, Cursor(h.esRate, m), hdl);
      if small.Ok? {
        TakenExtension(h.flags, small.value.3, hdl);
        var extended := TakeExtension(h.flags, small.value.3, hdl);
        if extended.Ok? {
          AfterEsRateLayout(h, extended.value.1.rest);
        }
      }
    }
  }

  lemma PlainFieldsDecodeIff(h: PesHeader, after: seq<byte>)
    requires h.Full? && Consistent(h) && !EsRateFlag(h.flags)
    ensures DecodePesHeader(h.id, h.packetLength, h.b0, h.flags, h.headerDataLength, Fields(h) + after) == Ok(h)
            <==> ExtensionBytes(h.ext) <= after
  {
    hide TakeExtension, ExtensionBytes, ExtensionMatchesFlags, DecodePesHeader;
    PlainFieldsDecode(h, after);
    if ExtensionBytes(h.ext) <= after {
      var r := after[|ExtensionBytes(h.ext)|..];
      assert after == ExtensionBytes(h.ext) + r;
      ExtensionDecodes(h, r, |Fields(h)|);
    } else {
      TakenExtension(h.flags, Cursor(after, |Fields(h)|), h.headerDataLength);
    }
  }

  /** The header data as written: the fields, the extension bytes passed on, and stuffing. */
  function PrintedData(h: PesHeader): seq<byte>
    requires h.Full?
  {
    var out := WriteExtension(h.ext).0;
    Fields(h) + (out + Stuff(h.headerDataLength as int - |Fields(h)| - |out|))
  }

  predicate AllFull(s: seq<byte>) {
    forall i :: 0 <= i < |s| ==> s[i] == 0xff
  }

  /** When the writer passes all of an extension on, or leaves only bytes behind that look like stuffing:
      there is no extension, or it ends in a field of its own, or its flag byte was passed on with private
      data or a pack header and the counter and buffer bytes behind these are all 0xff. */
  predicate Flushed(e: Extension) {
    match e
    case NoExtension => true
    case Extension(base, _, _, counter, pStd, _) =>
      ExtensionFlag2(base) || ((PrivateDataFlag(base) || PackHeaderFlag(base)) && AllFull(counter) && AllFull(pStd))
  }

  /** These are the extensions of which the bytes left in the writer's buffer are all 0xff: a flag byte of
      0xff would announce a field. */
  lemma FlushedIff(e: Extension)
    ensures Flushed(e) <==> AllFull(WriteExtension(e).1)
  {
    if e.Extension? && !ExtensionFlag2(e.base) {
      var buf := WriteExtension(e).1;
      var head := WriteExtensionHead(e).1;
      assert buf == head + e.counter + e.pStdBuffer;
      FullParts(head, e.counter);
      FullParts(head + e.counter, e.pStdBuffer);
      assert !PrivateDataFlag(e.base) && !PackHeaderFlag(e.base) ==> head == [e.base] && head[0] != 0xff;
    }
  }

  lemma FullParts(a: seq<byte>, b: seq<byte>)
    ensures AllFull(a + b) <==> AllFull(a) && AllFull(b)
  {
    if AllFull(a + b) {
      assert forall i :: 0 <= i < |a| ==> a[i] == (a + b)[i];
      assert forall i :: 0 <= i < |b| ==> b[i] == (a + b)[|a| + i];
    }
  }

  /** When a header comes back from being written and parsed: with an ES rate, the fields behind it must
      repeat the rate's own bytes; without one, the extension must be passed on. */
  predicate Survives(h: PesHeader) {
    h.Full? ==> if EsRateFlag(h.flags) then AfterEsRate(h) <= h.esRate else Flushed(h.ext)
  }

  /** Parsing the written header data gives back the header exactly under that condition. */
  lemma PrintedDataDecodesIff(h: PesHeader)
    requires h.Full? && Consistent(h)
    ensures |PrintedData(h)| == h.headerDataLength
    ensures DecodePesHeader(h.id, h.packetLength, h.b0, h.flags, h.headerDataLength, PrintedData(h)) == Ok(h)
            <==> Survives(h)
  {
    hide DecodePesHeader, ExtensionBytes, WriteExtension, MatchesFlags, AllFull, Fields, AfterEsRate, Flushed;
    FlushedIff(h.ext);
    ExtensionSplits(h);
    var (out, buf) := WriteExtension(h.ext);
    var n := h.headerDataLength as int - |Fields(h)| - |out|;
    var after := out + Stuff(n);
    if EsRateFlag(h.flags) {
      EsRateDecodesIff(h, after);
    } else {
      PlainFieldsDecodeIff(h, after);
      PrefixOfStuffed(out, buf, n);
    }
  }

  lemma PrefixOfStuffed(out: seq<byte>, buf: seq<byte>, n: nat)
    requires |buf| <= n
    ensures out + buf <= out + Stuff(n) <==> AllFull(buf)
  {
    StuffIsFull(n);
    var all := out + Stuff(n);
    assert all[|out|..] == Stuff(n);
    if out + buf <= all {
      assert forall i :: 0 <= i < |buf| ==> buf[i] == all[|out| + i] == Stuff(n)[i];
    }
    if AllFull(buf) {
      assert forall i :: 0 <= i < |buf| ==> buf[i] == Stuff(n)[i];
    }
  }

  /** The written bytes are those of the standard's layout exactly when the extension is passed on. */
  lemma PrintIsEncodeIff(h: PesHeader)
    requires Consistent(h)
    ensures PrintPesHeader(h) == EncodePesHeader(h)
            <==> h.Plain? || Flushed(h.ext)
  {
    hide WriteExtension, ExtensionBytes, MatchesFlags, HeaderPrefix, Fields, Stuff, AllFull, Flushed;
    if h.Full? {
      FlushedIff(h.ext);
      ExtensionSplits(h);
      var (out, buf) := WriteExtension(h.ext);
      StuffedBuffer(HeaderPrefix(h), Fields(h), out, buf, h.headerDataLength as int);
    }
  }

  /** Stuffing in place of the bytes left behind is the same only if these look like stuffing. */
  lemma StuffedBuffer(prefix: seq<byte>, fields: seq<byte>, out: seq<byte>, buf: seq<byte>, n: nat)
    requires |fields| + |out + buf| <= n
    ensures var written := fields + out; var all := fields + (out + buf);
            prefix + (written + Stuff(n - |written|)) == prefix + (all + Stuff(n - |all|)) <==> AllFull(buf)
  {
    hide Stuff, AllFull;
    var rest := n - |fields| - |out| - |buf|;
    StuffSplits(|buf|, rest);
    FullIsStuff(buf);
    StuffedTail(prefix, fields, out, buf, Stuff(|buf|), Stuff(rest));
  }

  lemma FullIsStuff(buf: seq<byte>)
    ensures Stuff(|buf|) == buf <==> AllFull(buf)
  {
    StuffIsFull(|buf|);
  }

  lemma StuffedTail(prefix: seq<byte>, fields: seq<byte>, out: seq<byte>, buf: seq<byte>, full: seq<byte>, tail: seq<byte>)
    requires |buf| == |full|
    ensures prefix + ((fields + out) + (full + tail)) == prefix + ((fields + (out + buf)) + tail) <==> full == buf
  {
    Assoc(fields, out, buf);
    Assoc(fields + out, buf, tail);
    SamePrefix(prefix, (fields + out) + (full + tail), (fields + out) + (buf + tail));
    SamePrefix(fields + out, full + tail, buf + tail);
    SameSuffix(full, buf, tail);
  }

  lemma ExtensionSplits(h: PesHeader)
    requires h.Full? && MatchesFlags(h)
    ensures WriteExtension(h.ext).0 + WriteExtension(h.ext).1 == ExtensionBytes(h.ext)
  {
    match h.ext
    case NoExtension =>
    case Extension(base, privateData, packHeader, counter, pStd, field) =>
      hide PrivateDataFlag, PackHeaderFlag, CounterFlag, PStdBufferFlag, ExtensionFlag2, Counted;
      var counted := Counted(PackHeaderFlag(base), packHeader);
      var last := Counted(ExtensionFlag2(base), field);
      CountedCases(PackHeaderFlag(base), packHeader);
      CountedCases(ExtensionFlag2(base), field);
      assert !PrivateDataFlag(base) ==> privateData == [];
      WrittenInOrder(base, privateData, counted, counter, pStd, last);
  }

  lemma WrittenInOrder(base: byte, privateData: seq<byte>, counted: seq<byte>, counter: seq<byte>,
                       pStd: seq<byte>, last: seq<byte>)
    ensures var all := [base] + (privateData + (counted + (counter + (pStd + last))));
            var head := [base] + privateData;
            && (head + ([] + counted)) + (([] + counter + pStd) + last) + [] == all
            && (head + ([] + counted)) + ([] + counter + pStd) + last == all
            && head + (([] + counter + pStd) + last) + [] == [base] + (privateData + ([] + (counter + (pStd + last))))
            && head + ([] + counter + pStd) + last == [base] + (privateData + ([] + (counter + (pStd + last))))
            && (privateData == [] ==> ([] + ([base] + counted)) + (([] + counter + pStd) + last) + [] == all)
            && (privateData == [] ==> ([] + ([base] + counted)) + ([] + counter + pStd) + last == all)
            && (privateData == [] ==> [] + (([base] + counter + pStd) + last) + [] == [base] + (privateData + ([] + (counter + (pStd + last)))))
            && (privateData == [] ==> [] + ([base] + counter + pStd) + last == [base] + (privateData + ([] + (counter + (pStd + last)))))
  {
  }

  lemma CountedCases(flag: bool, field: seq<byte>)
    ensures flag ==> Counted(flag, field) == Counted(true, field)
    ensures !flag ==> Counted(flag, field) == []
  {
  }

  lemma {:induction false} StuffSplits(a: nat, b: nat)
    ensures Stuff(a + b) == Stuff(a) + Stuff(b)
  {
    if a > 0 {
      StuffSplits(a - 1, b);
    }
  }

  lemma {:induction false} StuffIsFull(n: nat)
    ensures forall i :: 0 <= i < n ==> Stuff(n)[i] == 0xff
  {
    if n > 0 {
      StuffIsFull(n - 1);
    }
  }
}
