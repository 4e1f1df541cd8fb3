/** The packs of a program stream and the decoding of their bodies (media/ps/psh.go, sys.go, psm.go,
    pes.go and the per-state methods of media/ps/parser.go). */
module PsPacks {
  import opened Bytes

  /** The parser's errors. Fault stands for a declared length that wraps the code's uint8 or uint16
      arithmetic, or that the code slices wrongly, so that it reads behind the bytes it has: a
      run-time panic there. */
  datatype PsError =
    | SysHeaderLengthError
    | PsmLengthError
    | PsmMapLengthError
    | PesLengthError
    | PesDataLengthError
    | Fault

  datatype Result<+T> = Ok(value: T) | Err(error: PsError) {
    predicate IsFailure() { Err? }
    function PropagateFailure<U>(): Result<U>
      requires Err?
    {
      Err(error)
    }
    function Extract(): T
      requires Ok?
    {
      value
    }
  }

  datatype SysStreamInfo = SysStreamInfo(streamId: byte, b0: byte, b1: byte)

  datatype ElementaryStreamInfo = ElementaryStreamInfo(typ: byte, id: byte, descriptors: seq<byte>)

  /** An optional PES field is empty when its flag is off. */
  datatype Extension =
    | NoExtension
    | Extension(base: byte, privateData: seq<byte>, packHeader: seq<byte>, counter: seq<byte>,
                pStdBuffer: seq<byte>, field: seq<byte>)

  /** A PES packet of one of the eight stream ids that carry no PES header, or one with a header. */
  datatype PesHeader =
    | Plain(id: byte, packetLength: nat)
    | Full(id: byte, packetLength: nat, b0: byte, flags: byte, headerDataLength: byte,
           pts: seq<byte>, dts: seq<byte>, escr: seq<byte>, esRate: seq<byte>,
           trickMode: seq<byte>, copyInfo: seq<byte>, crc: seq<byte>, ext: Extension)

  datatype Pack =
    | Psh(bytes10: seq<byte>)
    | Sys(headerLength: nat, bytes6: seq<byte>, streamInfos: seq<SysStreamInfo>)
    | Psm(psmLength: nat, p0: byte, p1: byte, descriptors: seq<byte>,
          infos: seq<ElementaryStreamInfo>, crc32: seq<byte>)
    | Pes(header: PesHeader, data: seq<byte>)

  const PACK_START: byte := 0xBA
  const SYSTEM_START: byte := 0xBB
  const PROGRAM_STREAM_MAP: byte := 0xBC

  predicate HasNoHeader(id: byte) {
    id == PROGRAM_STREAM_MAP || id == 0xBE || id == 0xBF || id == 0xF0 || id == 0xF1 || id == 0xFF
    || id == 0xF2 || id == 0xF8
  }

  function BigEndian16(raw: seq<byte>): (n: nat)
    requires |raw| >= 2
    ensures n < 0x1_0000
  {
    0x100 * raw[0] as int + raw[1] as int
  }

  function PackStuffingLength(bytes10: seq<byte>): nat
    requires |bytes10| == 10
  {
    bytes10[9] % 8
  }

  // ----- system header

  /** uint16 subtraction. */
  function SysInfoSize(headerLength: nat): nat {
    (headerLength - 6) % 0x1_0000
  }

  function DecodeSysInfos(raw: seq<byte>): seq<SysStreamInfo> {
    if |raw| < 3 then []
    else [SysStreamInfo(raw[0], raw[1], raw[2])] + DecodeSysInfos(raw[3..])
  }

  // ----- program stream map

  /** The checks on one entry of the elementary stream map: its info length and the code's uint16
      running length behind it. */
  function EntryLength(raw: seq<byte>, mapLength: nat, min: nat): (r: Result<(nat, nat)>)
    requires |raw| >= 4
    ensures r.Ok? ==> 4 + r.value.0 <= |raw|
  {
    var min1 := (min + 4) % 0x1_0000;
    if mapLength < min1 then Err(PsmMapLengthError)
    else
      var infoLength := BigEndian16(raw[2..]);
      var min2 := (min1 + infoLength) % 0x1_0000;
      if mapLength < min2 then Err(PsmMapLengthError)
      else if infoLength > |raw| - 4 then Err(Fault)
      else Ok((infoLength, min2))
  }

  /** The loop over the elementary stream map. */
  function DecodeInfos(raw: seq<byte>, mapLength: nat, min: nat): Result<seq<ElementaryStreamInfo>> {
    if |raw| == 0 then Ok([])
    else if |raw| < 4 then Err(PsmMapLengthError)
    else
      var (n, min2) :- EntryLength(raw, mapLength, min);
      var rest :- DecodeInfos(raw[4 + n..], mapLength, min2);
      Ok([ElementaryStreamInfo(raw[0], raw[1], raw[4..4 + n])] + rest)
  }

  function DecodePsm(packetLength: nat, raw: seq<byte>): Result<Pack>
    requires |raw| == packetLength >= 10
  {
    var infoLength := BigEndian16(raw[2..]);
    var min1 := (10 + infoLength) % 0x1_0000;
    if packetLength < min1 then Err(PsmLengthError)
    else if |raw| < 4 + infoLength + 2 then Err(Fault)
    else
      var mapLength := BigEndian16(raw[4 + infoLength..]);
      var rest := raw[6 + infoLength..];
      var min2 := (min1 + mapLength) % 0x1_0000;
      if packetLength < min2 then Err(PsmLengthError)
      else if |rest| < mapLength then Err(Fault)
      else
        var infos :- DecodeInfos(rest[..mapLength], mapLength, 0);
        var tail := rest[mapLength..];
        if |tail| < 4 then Err(Fault)
        else if |tail| > 4 then Err(PsmLengthError)
        else Ok(Psm(packetLength, raw[0], raw[1], raw[4..4 + infoLength], infos, tail))
  }

  // ----- PES header

  /** What is left of the header data, and the code's uint8 running length. */
  datatype Cursor = Cursor(rest: seq<byte>, min: nat)

  /** Takes an n-byte field: the running length is checked against the declared one, and then the
      bytes are sliced off. */
  function Take(c: Cursor, n: nat, headerDataLength: byte): Result<(seq<byte>, Cursor)> {
    var min := (c.min + n) % 0x100;
    if headerDataLength < min then Err(PesDataLengthError)
    else if n > |c.rest| then Err(Fault)
    else Ok((c.rest[..n], Cursor(c.rest[n..], min)))
  }

  function TakeIf(flag: bool, c: Cursor, n: nat, headerDataLength: byte): Result<(seq<byte>, Cursor)> {
    if flag then Take(c, n, headerDataLength) else Ok(([], c))
  }

  /** A field with its length in front. */
  function TakeCounted(flag: bool, c: Cursor, headerDataLength: byte): Result<(seq<byte>, Cursor)> {
    if flag then
      var (n, c1) :- Take(c, 1, headerDataLength);
      Take(c1, n[0], headerDataLength)
    else Ok(([], c))
  }

  predicate PtsOnly(flags: byte) { flags / 64 == 2 }
  predicate PtsAndDts(flags: byte) { flags / 64 == 3 }
  predicate EscrFlag(flags: byte) { flags / 32 % 2 == 1 }
  predicate EsRateFlag(flags: byte) { flags / 16 % 2 == 1 }
  predicate TrickModeFlag(flags: byte) { flags / 8 % 2 == 1 }
  predicate CopyInfoFlag(flags: byte) { flags / 4 % 2 == 1 }
  predicate CrcFlag(flags: byte) { flags / 2 % 2 == 1 }
  predicate ExtensionFlag(flags: byte) { flags % 2 == 1 }

  predicate PrivateDataFlag(base: byte) { base / 128 % 2 == 1 }
  predicate PackHeaderFlag(base: byte) { base / 64 % 2 == 1 }
  predicate CounterFlag(base: byte) { base / 32 % 2 == 1 }
  predicate PStdBufferFlag(base: byte) { base / 16 % 2 == 1 }
  predicate ExtensionFlag2(base: byte) { base % 2 == 1 }

  function TakeTimes(flags: byte, c: Cursor, hdl: byte): Result<(seq<byte>, seq<byte>, Cursor)> {
    if PtsOnly(flags) then
      var (pts, c1) :- Take(c, 5, hdl);
      Ok((pts, [], c1))
    else if PtsAndDts(flags) then
      var (both, c1) :- Take(c, 10, hdl);
      Ok((both[..5], both[5..], c1))
    else Ok(([], [], c))
  }

  /** The ES rate: the code keeps the three bytes just read instead of those behind them. */
  function TakeEsRate(flags: byte, c: Cursor, hdl: byte): Result<(seq<byte>, Cursor)> {
    if EsRateFlag(flags) then
      var (rate, c1) :- Take(c, 3, hdl);
      Ok((rate, Cursor(rate, c1.min)))
    else Ok(([], c))
  }

  /** The last three extension fields. */
  function TakeExtensionTail(base: byte, c2: Cursor, hdl: byte): Result<(seq<byte>, seq<byte>, seq<byte>, Cursor)> {
    var (counter, c3) :- TakeIf(CounterFlag(base), c2, 2, hdl);
    var (pStdBuffer, c4) :- TakeIf(PStdBufferFlag(base), c3, 2, hdl);
    var (field, c5) :- TakeCounted(ExtensionFlag2(base), c4, hdl);
    Ok((counter, pStdBuffer, field, c5))
  }

  /** The extension fields behind the extension's own flag byte. */
  function TakeExtensionFields(base: byte, c0: Cursor, hdl: byte): Result<(Extension, Cursor)> {
    var (privateData, c1) :- TakeIf(PrivateDataFlag(base), c0, 16, hdl);
    var (packHeader, c2) :- TakeCounted(PackHeaderFlag(base), c1, hdl);
    var (counter, pStdBuffer, field, c5) :- TakeExtensionTail(base, c2, hdl);
    Ok((Extension(base, privateData, packHeader, counter, pStdBuffer, field), c5))
  }

  function TakeExtension(flags: byte, c: Cursor, hdl: byte): Result<(Extension, Cursor)> {
    if ExtensionFlag(flags) then
      var (base, c0) :- Take(c, 1, hdl);
      TakeExtensionFields(base[0], c0, hdl)
    else Ok((NoExtension, c))
  }

  /** The one-byte fields and the CRC. */
  function TakeSmallFields(flags: byte, c3: Cursor, hdl: byte): Result<(seq<byte>, seq<byte>, seq<byte>, Cursor)> {
    var (trickMode, c4) :- TakeIf(TrickModeFlag(flags), c3, 1, hdl);
    var (copyInfo, c5) :- TakeIf(CopyInfoFlag(flags), c4, 1, hdl);
    var (crc, c6) :- TakeIf(CrcFlag(flags), c5, 2, hdl);
    Ok((trickMode, copyInfo, crc, c6))
  }

  /** parsePESHeader: the optional fields in order; what is left over is stuffing. */
  function DecodePesHeader(id: byte, packetLength: nat, b0: byte, flags: byte, hdl: byte, raw: seq<byte>): Result<PesHeader> {
    var (pts, dts, c1) :- TakeTimes(flags, Cursor(raw, 0), hdl);
    var (escr, c2) :- TakeIf(EscrFlag(flags), c1, 6, hdl);
    var (esRate, c3) :- TakeEsRate(flags, c2, hdl);
    var (trickMode, copyInfo, crc, c6) :- TakeSmallFields(flags, c3, hdl);
    var (ext, c7) :- TakeExtension(flags, c6, hdl);
    Ok(Full(id, packetLength, b0, flags, hdl, pts, dts, escr, esRate, trickMode, copyInfo, crc, ext))
  }

  /** The bytes of packet data that follow a header. */
  function DataSize(h: PesHeader): int {
    match h
    case Plain(_, packetLength) => packetLength
    case Full(_, packetLength, _, _, hdl, _, _, _, _, _, _, _, _) => packetLength - hdl - 3
  }
}
