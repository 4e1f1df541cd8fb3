/** The stream maps and PES headers that media/ps/parser.go answers with an error, and what it makes of fields behind
    an ES rate. */
module PsErrors {
  import opened Bytes
  import opened Sequences
  import opened StartCode
  import opened PsPacks
  import opened PsMachine
  import opened PsRoundTrip
  import opened PsBytes

  /** Two bytes as a length. */
  function Length(raw: seq<byte>, at: nat): nat
    requires at + 2 <= |raw|
  {
    0x100 * raw[at] as int + raw[at + 1] as int
  }

  // ----- stream maps

  /** A body of n bytes with a declared d bytes of descriptors: too short for them and the ten bytes besides, it is an
      error, and a fault if that sum does not fit sixteen bits; otherwise the entries, declared as m bytes, decide. Too
      short for these as well it is the same error, or a fault if only the wrapped sum fits; too long it is an error;
      and entries that do not fit are their own. */
  lemma StreamMapOutcome(raw: seq<byte>)
    requires 10 <= |raw| < 0x1_0000
    ensures var n, d := |raw|, Length(raw, 2); var r := DecodePsm(n, raw);
            if d + 10 < 0x1_0000 && n < d + 10 then r == Err(PsmLengthError)
            else if n < d + 6 then r == Err(Fault)
            else
              var m := Length(raw, 4 + d); var sum := d + m + 10;
              if n < (if sum < 0x1_0000 then sum else if sum < 0x2_0000 then sum - 0x1_0000 else sum - 0x2_0000)
              then r == Err(PsmLengthError)
              else if n < d + m + 6 then r == Err(Fault)
              else
                match DecodeInfos(raw[6 + d..6 + d + m], m, 0)
                case Err(e) => r == Err(e)
                case Ok(infos) =>
                  if n < sum then r == Err(Fault)
                  else if n > sum then r == Err(PsmLengthError)
                  else r == Ok(Psm(n, raw[0], raw[1], raw[4..4 + d], infos, raw[6 + d + m..]))
  {
    hide DecodeInfos, DecodePsm;
    var n, d := |raw|, Length(raw, 2);
    if n < d + 6 {
      DescriptorsOver(raw);
    } else {
      BehindDescriptors(raw);
      Wrap(d, Length(raw, 4 + d));
    }
  }

  lemma DescriptorsOver(raw: seq<byte>)
    requires 10 <= |raw| < 0x1_0000 && |raw| < Length(raw, 2) + 6
    ensures DecodePsm(|raw|, raw) == Err(if Length(raw, 2) + 10 < 0x1_0000 then PsmLengthError else Fault)
  {
    hide DecodeInfos;
    assert BigEndian16(raw[2..]) == Length(raw, 2);
  }

  lemma BehindDescriptors(raw: seq<byte>)
    requires 10 <= |raw| < 0x1_0000 && |raw| >= Length(raw, 2) + 6
    ensures var n, d := |raw|, Length(raw, 2); var m := Length(raw, 4 + d); var min2 := ((10 + d) % 0x1_0000 + m) % 0x1_0000;
            DecodePsm(n, raw)
            == if d + 10 < 0x1_0000 && n < d + 10 then Err(PsmLengthError)
               else if n < min2 then Err(PsmLengthError)
               else if n < d + m + 6 then Err(Fault)
               else
                 var infos := DecodeInfos(raw[6 + d..6 + d + m], m, 0);
                 if infos.Err? then Err(infos.error)
                 else if n < d + m + 10 then Err(Fault)
                 else if n > d + m + 10 then Err(PsmLengthError)
                 else Ok(Psm(n, raw[0], raw[1], raw[4..4 + d], infos.value, raw[6 + d + m..]))
  {
    hide DecodeInfos;
    var n, d := |raw|, Length(raw, 2);
    assert BigEndian16(raw[2..]) == d;
    EntriesPlace(raw, d);
    var m := Length(raw, 4 + d);
    if d + m + 6 <= n {
      Slices(raw, 6 + d, m);
    }
  }

  lemma EntriesPlace(raw: seq<byte>, d: nat)
    requires d + 6 <= |raw|
    ensures BigEndian16(raw[4 + d..]) == Length(raw, 4 + d)
  {}

  lemma Slices(raw: seq<byte>, at: nat, n: nat)
    requires at + n <= |raw|
    ensures raw[at..][..n] == raw[at..at + n] && raw[at..][n..] == raw[at + n..]
  {}

  lemma Wrap(d: nat, m: nat)
    requires d < 0x1_0000 && m < 0x1_0000
    ensures ((10 + d) % 0x1_0000 + m) % 0x1_0000
            == (if d + m + 10 < 0x1_0000 then d + m + 10 else if d + m + 10 < 0x2_0000 then d + m + 10 - 0x1_0000
                else d + m + 10 - 0x2_0000)
  {}

  /** In a stream map of well below 64 kilobytes, a body that does not have exactly the bytes its parts declare is an
      error behind all of its bytes. */
  lemma WrongSizesError(hi: byte, lo: byte, raw: seq<byte>, rest: seq<byte>)
    requires 0x100 * hi as int + lo as int == |raw| && |raw| >= 10
    requires Length(raw, 2) + 10 < 0x1_0000
    requires |raw| < Length(raw, 2) + 10
             || (Length(raw, 2) + Length(raw, 4 + Length(raw, 2)) + 10 < 0x1_0000
                 && |raw| < Length(raw, 2) + Length(raw, 4 + Length(raw, 2)) + 10)
    ensures GivesError(PsmLengthError, [0, 0, 1, 0xBC] + ([hi, lo] + raw), rest)
  {
    hide Run, FindIn, DecodePsm;
    StreamMapOutcome(raw);
    Assoc([0, 0, 1, 0xBC], [hi, lo] + raw, rest);
    Assoc([hi, lo], raw, rest);
    StartCodeInFront(0xBC, [hi, lo] + (raw + rest));
    assert BigEndian16([hi, lo]) == |raw|;
    CollectGo(KPsmLength, [hi, lo], raw + rest, Needing(KPsmBody(|raw|), []));
    CollectFail(KPsmBody(|raw|), raw, rest, PsmLengthError);
  }

  /** The entries in what is left of a map, of which min bytes are decoded: none is left at the end; fewer than four
      bytes are an error; an entry takes four bytes and its descriptors, and one that runs over the end is an error, or a
      fault if its end does not fit sixteen bits. */
  lemma EntriesOutcome(raw: seq<byte>, mapLength: nat, min: nat)
    requires min + |raw| == mapLength < 0x1_0000
    ensures var r := DecodeInfos(raw, mapLength, min);
            if |raw| == 0 then r == Ok([])
            else if |raw| < 4 then r == Err(PsmMapLengthError)
            else
              var n := Length(raw, 2);
              if n + 4 <= |raw| then
                match DecodeInfos(raw[4 + n..], mapLength, min + 4 + n)
                case Err(e) => r == Err(e)
                case Ok(more) => r == Ok([ElementaryStreamInfo(raw[0], raw[1], raw[4..4 + n])] + more)
              else if min + 4 + n < 0x1_0000 then r == Err(PsmMapLengthError)
              else r == Err(Fault)
  {
    hide DecodeInfos, EntryLength;
    if |raw| >= 4 {
      EntryOutcome(raw, mapLength, min);
      EntryFirst(raw, mapLength, min);
    } else {
      FewBytes(raw, mapLength, min);
    }
  }

  lemma FewBytes(raw: seq<byte>, mapLength: nat, min: nat)
    requires |raw| < 4
    ensures DecodeInfos(raw, mapLength, min) == if |raw| == 0 then Ok([]) else Err(PsmMapLengthError)
  {}

  lemma EntryFirst(raw: seq<byte>, mapLength: nat, min: nat)
    requires |raw| >= 4
    ensures var r := EntryLength(raw, mapLength, min);
            DecodeInfos(raw, mapLength, min)
            == if r.Err? then Err(r.error)
               else
                 var more := DecodeInfos(raw[4 + r.value.0..], mapLength, r.value.1);
                 if more.Err? then Err(more.error)
                 else Ok([ElementaryStreamInfo(raw[0], raw[1], raw[4..4 + r.value.0])] + more.value)
  {
    hide EntryLength;
  }

  lemma EntryOutcome(raw: seq<byte>, mapLength: nat, min: nat)
    requires min + |raw| == mapLength < 0x1_0000 && |raw| >= 4
    ensures var n := Length(raw, 2);
            EntryLength(raw, mapLength, min)
            == if n + 4 <= |raw| then Ok((n, min + 4 + n))
               else if min + 4 + n < 0x1_0000 then Err(PsmMapLengthError)
               else Err(Fault)
  {
    assert BigEndian16(raw[2..]) == Length(raw, 2);
  }

  // ----- PES headers

  /** The declared sizes of the fields by their flags, without an extension. */
  function FieldsSize(t1: bool, t0: bool, clock: bool, rate: bool, trick: bool, copy: bool, crc: bool): nat {
    (if t1 then 5 else 0) + (if t1 && t0 then 5 else 0) + (if clock then 6 else 0) + (if rate then 3 else 0)
    + (if trick then 1 else 0) + (if copy then 1 else 0) + if crc then 2 else 0
  }

  lemma FieldTaken(flag: bool, c: Cursor, n: nat, hdl: byte)
    requires c.min + n < 0x100 && c.min <= hdl as int
    ensures var k := if flag then n else 0;
            TakeIf(flag, c, n, hdl)
            == if c.min + k > hdl as int then Err(PesDataLengthError)
               else if k > |c.rest| then Err(Fault)
               else Ok((c.rest[..k], Cursor(c.rest[k..], c.min + k)))
  {
    assert c.rest[0..] == c.rest;
  }

  lemma TimesTaken(flags: byte, raw: seq<byte>, t1: bool, t0: bool)
    requires |raw| < 0x100 && PtsOnly(flags) == (t1 && !t0) && PtsAndDts(flags) == (t1 && t0)
    ensures var p := if t1 then 5 else 0; var d := if t1 && t0 then 5 else 0;
            TakeTimes(flags, Cursor(raw, 0), |raw| as byte)
            == if p + d > |raw| then Err(PesDataLengthError)
               else Ok((raw[..p], raw[p..p + d], Cursor(raw[p + d..], p + d)))
  {
    hide PtsOnly, PtsAndDts;
    assert raw[0..] == raw && raw[..0] == raw[0..0] == [];
    assert |raw| >= 5 ==> raw[5..5] == [];
    if t1 && 10 <= |raw| {
      assert raw[..10][..5] == raw[..5] && raw[..10][5..] == raw[5..10];
    }
  }

  lemma EscrTaken(flags: byte, clock: bool, raw: seq<byte>, at: nat)
    requires EscrFlag(flags) == clock && at <= |raw| < 0x100 && at <= 10
    ensures var e := if clock then 6 else 0;
            TakeIf(EscrFlag(flags), Cursor(raw[at..], at), 6, |raw| as byte)
            == if at + e > |raw| then Err(PesDataLengthError)
               else Ok((raw[at..at + e], Cursor(raw[at + e..], at + e)))
  {
    hide EscrFlag, TakeIf;
    FieldTaken(clock, Cursor(raw[at..], at), 6, |raw|);
    var e := if clock then 6 else 0;
    if at + e <= |raw| {
      Slices(raw, at, e);
    }
  }

  lemma RateTaken(flags: byte, rate: bool, raw: seq<byte>, at: nat)
    requires EsRateFlag(flags) == rate && at <= |raw| < 0x100 && at <= 16
    ensures TakeEsRate(flags, Cursor(raw[at..], at), |raw| as byte)
            == if !rate then Ok(([], Cursor(raw[at..], at)))
               else if at + 3 > |raw| then Err(PesDataLengthError)
               else Ok((raw[at..at + 3], Cursor(raw[at..at + 3], at + 3)))
  {
    hide EsRateFlag;
    if rate && at + 3 <= |raw| {
      Slices(raw, at, 3);
    }
  }

  lemma SmallTaken(flags: byte, trick: bool, copy: bool, crc: bool, c: Cursor, hdl: byte)
    requires TrickModeFlag(flags) == trick && CopyInfoFlag(flags) == copy && CrcFlag(flags) == crc
    requires c.min <= 19 && c.min <= hdl as int
    ensures var k := if trick then 1 else 0; var a := if copy then 1 else 0; var w := if crc then 2 else 0;
            var r := TakeSmallFields(flags, c, hdl);
            && (c.min + k + a + w <= hdl as int && k + a + w <= |c.rest| ==>
                  r == Ok((c.rest[..k], c.rest[k..k + a], c.rest[k + a..k + a + w],
                           Cursor(c.rest[k + a + w..], c.min + k + a + w))))
            && (c.min + k + a + w <= hdl as int && k + a + w > |c.rest| ==> r == Err(Fault))
            && (c.min + k + a + w > hdl as int && (k + a + w <= |c.rest| || hdl as int <= c.min + |c.rest|) ==>
                  r == Err(PesDataLengthError))
  {
    hide TakeIf, TrickModeFlag, CopyInfoFlag, CrcFlag;
    var k, a, w := if trick then 1 else 0, if copy then 1 else 0, if crc then 2 else 0;
    FieldTaken(trick, c, 1, hdl);
    if c.min + k <= hdl as int && k <= |c.rest| {
      var c4 := Cursor(c.rest[k..], c.min + k);
      FieldTaken(copy, c4, 1, hdl);
      if c.min + k + a <= hdl as int && k + a <= |c.rest| {
        Slices(c.rest, k, a);
        var c5 := Cursor(c.rest[k + a..], c4.min + a);
        FieldTaken(crc, c5, 2, hdl);
        if k + a + w <= |c.rest| {
          Slices(c.rest, k + a, w);
        }
      }
    }
  }

  lemma FieldsLost(id: byte, n: nat, b0: byte, flags: byte, t1: bool, t0: bool, clock: bool, rate: bool, trick: bool,
                   copy: bool, crc: bool, raw: seq<byte>)
    requires |raw| < 0x100 && FieldsSize(t1, t0, clock, rate, trick, copy, crc) > |raw|
    requires rate ==> !(trick && copy && crc)
    requires PtsOnly(flags) == (t1 && !t0) && PtsAndDts(flags) == (t1 && t0)
    requires EscrFlag(flags) == clock && EsRateFlag(flags) == rate
    requires TrickModeFlag(flags) == trick && CopyInfoFlag(flags) == copy && CrcFlag(flags) == crc
    ensures DecodePesHeader(id, n, b0, flags, |raw| as byte, raw) == Err(PesDataLengthError)
  {
    hide TakeTimes, TakeIf, TakeEsRate, TakeSmallFields, TakeExtension, PtsOnly, PtsAndDts, EscrFlag, EsRateFlag, TrickModeFlag,
         CopyInfoFlag, CrcFlag;
    var hdl := |raw| as byte;
    var at := (if t1 then 5 else 0) + if t1 && t0 then 5 else 0;
    TimesTaken(flags, raw, t1, t0);
    if at <= |raw| {
      EscrTaken(flags, clock, raw, at);
      at := at + if clock then 6 else 0;
      if at <= |raw| {
        RateTaken(flags, rate, raw, at);
        if rate && at + 3 <= |raw| {
          SmallTaken(flags, trick, copy, crc, Cursor(raw[at..at + 3], at + 3), hdl);
        } else if !rate {
          SmallTaken(flags, trick, copy, crc, Cursor(raw[at..], at), hdl);
        }
      }
    }
  }

  /** If the flags ask for more bytes than the header data has, there is no header. */
  lemma FieldsTooLong(id: byte, n: nat, b0: byte, t1: bool, t0: bool, clock: bool, rate: bool, trick: bool, copy: bool,
                      crc: bool, raw: seq<byte>)
    requires |raw| < 0x100 && FieldsSize(t1, t0, clock, rate, trick, copy, crc) > |raw|
    requires rate ==> !(trick && copy && crc)
    ensures DecodePesHeader(id, n, b0, Byte(t1, t0, clock, rate, trick, copy, crc, false), |raw| as byte, raw)
            == Err(PesDataLengthError)
  {
    hide DecodePesHeader, Byte;
    var flags := Byte(t1, t0, clock, rate, trick, copy, crc, false);
    FlagBits(t1, t0, clock, rate, trick, copy, crc, false);
    FieldsLost(id, n, b0, flags, t1, t0, clock, rate, trick, copy, crc, raw);
  }

  /** It is an error behind all of the header data. */
  lemma FieldsTooLongError(id: byte, hi: byte, lo: byte, b0: byte, t1: bool, t0: bool, clock: bool, rate: bool, trick: bool,
                           copy: bool, crc: bool, raw: seq<byte>, rest: seq<byte>)
    requires HasHeader(id) && |raw| < 0x100 && FieldsSize(t1, t0, clock, rate, trick, copy, crc) > |raw|
    requires (rate ==> !(trick && copy && crc)) && 0x100 * hi as int + lo as int >= 3 + |raw| && raw + rest != []
    ensures GivesError(PesDataLengthError, [0, 0, 1, id]
              + ([hi, lo] + ([b0, Byte(t1, t0, clock, rate, trick, copy, crc, false), |raw|] + raw)), rest)
  {
    hide Run, FindIn, DecodePesHeader, Byte;
    var flags := Byte(t1, t0, clock, rate, trick, copy, crc, false);
    var n := 0x100 * hi as int + lo as int;
    var hdl: byte := |raw|;
    var fixed := [b0, flags, hdl];
    FieldsTooLong(id, n, b0, t1, t0, clock, rate, trick, copy, crc, raw);
    Assoc([0, 0, 1, id], [hi, lo] + (fixed + raw), rest);
    Assoc([hi, lo], fixed + raw, rest);
    Assoc(fixed, raw, rest);
    PesStarts(id, hi, lo, fixed + (raw + rest));
    var k := KPesHeader(id, n, b0, flags, hdl);
    CollectGo(KPesFixed(id, n), fixed, raw + rest, Needing(k, []));
    CollectFail(k, raw, rest, PesDataLengthError);
  }

  /** Behind an ES rate, the small fields are taken from the rate itself: as long as there are three bytes of them, and
      as a fault if there are four. */
  lemma FieldsFromRate(id: byte, n: nat, b0: byte, t1: bool, t0: bool, clock: bool, trick: bool, copy: bool, crc: bool,
                       raw: seq<byte>)
    requires |raw| < 0x100 && FieldsSize(t1, t0, clock, true, trick, copy, crc) <= |raw|
    ensures var flags := Byte(t1, t0, clock, true, trick, copy, crc, false);
            var p := if t1 then 5 else 0; var d := if t1 && t0 then 5 else 0; var e := if clock then 6 else 0;
            var k := if trick then 1 else 0; var a := if copy then 1 else 0; var c := if crc then 2 else 0;
            var rate := raw[p + d + e..p + d + e + 3];
            DecodePesHeader(id, n, b0, flags, |raw| as byte, raw)
            == if k + a + c > 3 then Err(Fault)
               else Ok(Full(id, n, b0, flags, |raw| as byte, raw[..p], raw[p..p + d], raw[p + d..p + d + e], rate,
                            rate[..k], rate[k..k + a], rate[k + a..k + a + c], NoExtension))
  {
    hide Byte, TakeTimes, TakeIf, TakeEsRate, TakeSmallFields, EscrFlag, EsRateFlag, TrickModeFlag, CopyInfoFlag, CrcFlag,
         ExtensionFlag;
    var flags := Byte(t1, t0, clock, true, trick, copy, crc, false);
    var hdl := |raw| as byte;
    FlagBits(t1, t0, clock, true, trick, copy, crc, false);
    var at := (if t1 then 5 else 0) + if t1 && t0 then 5 else 0;
    TimesTaken(flags, raw, t1, t0);
    EscrTaken(flags, clock, raw, at);
    at := at + if clock then 6 else 0;
    RateTaken(flags, true, raw, at);
    SmallTaken(flags, trick, copy, crc, Cursor(raw[at..at + 3], at + 3), hdl);
  }

  lemma WrappedTaken(c: Cursor, n: nat, hdl: byte)
    requires 0x100 <= c.min + n <= 0x100 + hdl as int && n > |c.rest|
    ensures Take(c, n, hdl) == Err(Fault)
  {}

  /** A field with its length in front that runs over the header data is a length error, or a fault if its end does not
      fit eight bits. */
  lemma CountedOutcome(rest: seq<byte>, min: nat)
    requires min + |rest| < 0x100 && rest != []
    ensures var n := rest[0] as int; var hdl := (min + |rest|) as byte;
            TakeCounted(true, Cursor(rest, min), hdl)
            == if n < |rest| then Ok((rest[1..1 + n], Cursor(rest[1 + n..], min + 1 + n)))
               else if min + 1 + n < 0x100 then Err(PesDataLengthError)
               else Err(Fault)
  {
    hide Take;
    var n := rest[0] as int; var hdl := (min + |rest|) as byte;
    FieldTaken(true, Cursor(rest, min), 1, hdl);
    assert rest[..1] == [rest[0]];
    var c1 := Cursor(rest[1..], min + 1);
    if n < |rest| {
      FieldTaken(true, c1, n, hdl);
      Slices(rest, 1, n);
    } else if min + 1 + n < 0x100 {
      FieldTaken(true, c1, n, hdl);
    } else {
      WrappedTaken(c1, n, hdl);
    }
  }
}
