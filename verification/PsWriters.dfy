/** The bounded buffer of media/ps/io.go and the WriteTo methods that print packs into it. */
module PsWriters {
  import opened Bytes
  import opened Sequences
  import opened PsPacks
  import opened PsPrint

  /** What a buffer of n bytes keeps of a string of bytes. */
  function Clip(s: seq<byte>, n: nat): seq<byte> {
    if |s| <= n then s else s[..n]
  }

  lemma ClipTwice(a: seq<byte>, b: seq<byte>, n: nat)
    ensures Clip(Clip(a, n) + b, n) == Clip(a + b, n)
  {
  }

  /** Once the buffer is full, what follows does not matter. */
  lemma ClipFull(a: seq<byte>, b: seq<byte>, n: nat)
    requires |a| >= n
    ensures Clip(a + b, n) == Clip(a, n)
  {
  }

  class Writer {
    const buf: array<byte>
    var off: nat

    ghost predicate Valid()
      reads this
    {
      off <= buf.Length
    }

    ghost function Bytes(): seq<byte>
      requires Valid()
      reads this, buf
    {
      buf[..off]
    }

    constructor (size: nat)
      ensures Valid() && Bytes() == [] && buf.Length == size && fresh(buf)
    {
      buf := new byte[size];
      off := 0;
    }

    /** Copies what still fits and says how much that was. */
    method Write(p: seq<byte>) returns (n: nat)
      requires Valid()
      modifies this, buf
      ensures Valid() && Bytes() == Clip(old(Bytes()) + p, buf.Length)
      ensures off == old(off) + n
    {
      n := if |p| <= buf.Length - off then |p| else buf.Length - off;
      var at := off;
      forall i | 0 <= i < n {
        buf[at + i] := p[i];
      }
      off := off + n;
      assert buf[..at] == old(buf[..off]);
      assert buf[at..off] == p[..n];
      assert buf[..off] == buf[..at] + buf[at..off];
    }
  }

  method WritePsh(p: Pack, w: Writer)
    requires p.Psh? && |p.bytes10| == 10 && w.Valid()
    modifies w, w.buf
    ensures w.Valid() && w.Bytes() == Clip(old(w.Bytes()) + Print(p), w.buf.Length)
  {
    var stuffing := Stuff(PackStuffingLength(p.bytes10));
    var n := w.Write(StartBytes(PACK_START) + p.bytes10 + stuffing);
    assert StartBytes(PACK_START) + p.bytes10 + stuffing == Print(p);
  }

  method WriteSys(p: Pack, w: Writer)
    requires p.Sys? && w.Valid()
    modifies w, w.buf
    ensures w.Valid() && w.Bytes() == Clip(old(w.Bytes()) + Print(p), w.buf.Length)
  {
    hide PrintSysInfos, Clip, StartBytes, PutUint16;
    ghost var base := w.Bytes();
    var head := StartBytes(SYSTEM_START) + (PutUint16(p.headerLength) + p.bytes6);
    var n := w.Write(head);
    var i := 0;
    NoSysInfos(p.streamInfos);
    NothingBehind(head);
    while i < |p.streamInfos|
      invariant 0 <= i <= |p.streamInfos| && w.Valid()
      invariant w.Bytes() == Clip(base + (head + PrintSysInfos(p.streamInfos[..i])), w.buf.Length)
    {
      var info := p.streamInfos[i];
      var m := w.Write([info.streamId, info.b0, info.b1]);
      NextSysInfo(base, head, p.streamInfos, i, w.buf.Length);
      i := i + 1;
    }
    assert p.streamInfos[..i] == p.streamInfos;
    Assoc(StartBytes(SYSTEM_START), PutUint16(p.headerLength) + p.bytes6, PrintSysInfos(p.streamInfos));
  }

  lemma NoSysInfos(infos: seq<SysStreamInfo>)
    ensures PrintSysInfos(infos[..0]) == []
  {
  }

  /** One stream info more, written behind those before it. */
  lemma NextSysInfo(base: seq<byte>, head: seq<byte>, infos: seq<SysStreamInfo>, i: nat, n: nat)
    requires i < |infos|
    ensures Clip(Clip(base + (head + PrintSysInfos(infos[..i])), n) + [infos[i].streamId, infos[i].b0, infos[i].b1], n)
            == Clip(base + (head + PrintSysInfos(infos[..i + 1])), n)
  {
    hide PrintSysInfos, Clip;
    var printed := PrintSysInfos(infos[..i]);
    var next := [infos[i].streamId, infos[i].b0, infos[i].b1];
    ClipTwice(base + (head + printed), next, n);
    SysInfosSnoc(infos[..i], infos[i]);
    assert infos[..i] + [infos[i]] == infos[..i + 1];
    Assoc(base, head + printed, next);
    Assoc(head, printed, next);
  }

  lemma {:induction false} SysInfosSnoc(infos: seq<SysStreamInfo>, i: SysStreamInfo)
    ensures PrintSysInfos(infos + [i]) == PrintSysInfos(infos) + [i.streamId, i.b0, i.b1]
  {
    if infos == [] {
      assert [i][1..] == [] && infos + [i] == [i];
    } else {
      assert (infos + [i])[1..] == infos[1..] + [i];
      SysInfosSnoc(infos[1..], i);
    }
  }

  lemma {:induction false} InfosSnoc(infos: seq<ElementaryStreamInfo>, i: ElementaryStreamInfo)
    ensures PrintInfos(infos + [i]) == PrintInfos(infos) + PrintInfo(i)
  {
    hide PrintInfo;
    if infos == [] {
      assert [i][1..] == [] && infos + [i] == [i];
      assert PrintInfo(i) + [] == PrintInfo(i);
    } else {
      assert (infos + [i])[1..] == infos[1..] + [i];
      InfosSnoc(infos[1..], i);
    }
  }

  /** PSM.WriteTo: head, descriptors, map length, the infos one by one, CRC. */
  method WritePsm(p: Pack, w: Writer)
    requires p.Psm? && w.Valid()
    modifies w, w.buf
    ensures w.Valid() && w.Bytes() == Clip(old(w.Bytes()) + Print(p), w.buf.Length)
  {
    hide Clip, PrintInfo, PutUint16, StartBytes, PrintInfos;
    ghost var base := w.Bytes();
    ghost var cap := w.buf.Length;
    var length := |PrintInfos(p.infos)|;
    var head := StartBytes(PROGRAM_STREAM_MAP) + PutUint16(p.psmLength) + [p.p0, p.p1] + PutUint16(|p.descriptors|);
    var n := w.Write(head);
    n := w.Write(p.descriptors);
    ClipTwice(base + head, p.descriptors, cap);
    n := w.Write(PutUint16(length));
    ClipTwice(base + head + p.descriptors, PutUint16(length), cap);
    ghost var before := base + head + p.descriptors + PutUint16(length);
    var i := 0;
    assert PrintInfos(p.infos[..0]) == [] by { NoInfos(p.infos[..0]); }
    assert before + [] == before;
    while i < |p.infos|
      invariant 0 <= i <= |p.infos| && w.Valid()
      invariant w.Bytes() == Clip(before + PrintInfos(p.infos[..i]), cap)
    {
      var m := w.Write(PrintInfo(p.infos[i]));
      ClipTwice(before + PrintInfos(p.infos[..i]), PrintInfo(p.infos[i]), cap);
      InfosSnoc(p.infos[..i], p.infos[i]);
      assert p.infos[..i] + [p.infos[i]] == p.infos[..i + 1];
      Assoc(before, PrintInfos(p.infos[..i]), PrintInfo(p.infos[i]));
      i := i + 1;
    }
    assert p.infos[..i] == p.infos;
    n := w.Write(p.crc32);
    ClipTwice(before + PrintInfos(p.infos), p.crc32, cap);
    PsmInOrder(p, base);
  }

  lemma NoInfos(infos: seq<ElementaryStreamInfo>)
    requires infos == []
    ensures PrintInfos(infos) == []
  {
  }

  lemma PsmInOrder(p: Pack, base: seq<byte>)
    requires p.Psm?
    ensures var length := PutUint16(|PrintInfos(p.infos)|);
            base + (StartBytes(PROGRAM_STREAM_MAP) + PutUint16(p.psmLength) + [p.p0, p.p1] + PutUint16(|p.descriptors|))
            + p.descriptors + length + PrintInfos(p.infos) + p.crc32 == base + Print(p)
  {
    hide PrintInfos, StartBytes;
  }

  /** How many bytes of the header data, stuffing apart, the target has room for. */
  ghost function DataTaken(h: PesHeader, base: seq<byte>, cap: nat): nat
    requires h.Full?
  {
    |Clip(base + HeaderPrefix(h) + (Fields(h) + WriteExtension(h.ext).0), cap)| - |Clip(base + HeaderPrefix(h), cap)|
  }

  /** PESHeader.WriteTo. The 16-byte buffer is pend; n counts what the target really took. */
  method WritePesHeader(h: PesHeader, w: Writer) returns (ok: bool)
    requires w.Valid() && (h.Full? ==> MatchesFlags(h))
    modifies w, w.buf
    ensures w.Valid() && w.Bytes() == Clip(old(w.Bytes()) + PrintPesHeader(h), w.buf.Length)
    ensures ok <==> h.id == 0 || h.Plain? || DataTaken(h, old(w.Bytes()), w.buf.Length) <= h.headerDataLength as int
  {
    ok := true;
    ghost var base := w.Bytes();
    if h.id == 0 {
      assert base + [] == base;
      return;
    }
    if h.Plain? {
      var n := w.Write(StartBytes(h.id) + PutUint16(h.packetLength));
      assert HeaderPrefix(h) == StartBytes(h.id) + PutUint16(h.packetLength);
      return;
    }
    hide Clip, MatchesFlags, Fields, WriteExtension, HeaderPrefix, Stuff;
    ghost var cap := w.buf.Length;
    WritePrefix(h, w);
    ghost var prefix := base + HeaderPrefix(h);
    var cn := w.off;
    WriteFields(h, w, prefix);
    WriteExtensionFields(h.ext, w, prefix + Fields(h));
    ghost var data := Fields(h) + WriteExtension(h.ext).0;
    Assoc(prefix, Fields(h), WriteExtension(h.ext).0);
    var stuffing := h.headerDataLength as int - (w.off - cn);
    CountedWritten(prefix, data, cap, cn, w.off, w.Bytes());
    StuffingDoesNotMatter(prefix + data, stuffing, h.headerDataLength as int - |data|, cap);
    HeaderInOrder(h, base);
    if stuffing < 0 {
      NoStuffing(prefix + data, stuffing);
      return false;
    }
    WriteStuffing(stuffing, w, prefix + data);
  }

  lemma NoStuffing(all: seq<byte>, n: int)
    requires n < 0
    ensures all + Stuff(n) == all
  {
  }

  method WritePrefix(h: PesHeader, w: Writer)
    requires h.Full? && w.Valid()
    modifies w, w.buf
    ensures w.Valid() && w.Bytes() == Clip(old(w.Bytes()) + HeaderPrefix(h), w.buf.Length)
  {
    hide Clip, StartBytes, PutUint16;
    ghost var base := w.Bytes();
    var n := w.Write(StartBytes(h.id) + PutUint16(h.packetLength));
    n := w.Write([h.b0, h.flags, h.headerDataLength]);
    ClipTwice(base + (StartBytes(h.id) + PutUint16(h.packetLength)), [h.b0, h.flags, h.headerDataLength], w.buf.Length);
    Assoc(base, StartBytes(h.id) + PutUint16(h.packetLength), [h.b0, h.flags, h.headerDataLength]);
  }

  lemma HeaderInOrder(h: PesHeader, base: seq<byte>)
    requires h.Full? && h.id != 0
    ensures var data := Fields(h) + WriteExtension(h.ext).0;
            base + PrintPesHeader(h) == base + HeaderPrefix(h) + data + Stuff(h.headerDataLength as int - |data|)
  {
    hide Fields, WriteExtension, HeaderPrefix, Stuff;
    var data := Fields(h) + WriteExtension(h.ext).0;
    var stuffing := Stuff(h.headerDataLength as int - |data|);
    Assoc(base, HeaderPrefix(h), data + stuffing);
    Assoc(base + HeaderPrefix(h), data, stuffing);
  }

  lemma CountedWritten(prefix: seq<byte>, data: seq<byte>, cap: nat, cn: nat, off: nat, bytes: seq<byte>)
    requires cn == |Clip(prefix, cap)| && bytes == Clip(prefix + data, cap) && off == |bytes|
    ensures |prefix + data| <= cap ==> off - cn == |data|
  {
  }

  /** Stuffing by the count of bytes the target took is stuffing by the count of bytes written: the two
      differ only when the target is already full. */
  lemma StuffingDoesNotMatter(all: seq<byte>, a: int, b: int, cap: nat)
    requires |all| <= cap ==> a == b
    ensures Clip(all + Stuff(a), cap) == Clip(all + Stuff(b), cap)
  {
    if |all| > cap {
      ClipFull(all, Stuff(a), cap);
      ClipFull(all, Stuff(b), cap);
    }
  }

  /** PTS and DTS, by their two flag bits. */
  method GatherTimes(h: PesHeader) returns (pend: seq<byte>)
    requires h.Full? && MatchesFlags(h)
    ensures pend == h.pts + h.dts
  {
    pend := [];
    if PtsOnly(h.flags) {
      pend := pend + h.pts;
    } else if PtsAndDts(h.flags) {
      pend := pend + h.pts + h.dts;
    }
  }

  /** The fields up to the CRC, each by its flag. */
  method GatherFields(h: PesHeader) returns (pend: seq<byte>)
    requires h.Full? && MatchesFlags(h)
    ensures pend == h.escr + h.esRate + h.trickMode + h.copyInfo + h.crc
  {
    hide EscrFlag, EsRateFlag, TrickModeFlag, CopyInfoFlag, CrcFlag, PtsOnly, PtsAndDts;
    pend := [];
    if EscrFlag(h.flags) {
      pend := pend + h.escr;
    }
    assert pend == h.escr;
    if EsRateFlag(h.flags) {
      pend := pend + h.esRate;
    }
    assert pend == h.escr + h.esRate;
    if TrickModeFlag(h.flags) {
      pend := pend + h.trickMode;
    }
    assert pend == h.escr + h.esRate + h.trickMode;
    if CopyInfoFlag(h.flags) {
      pend := pend + h.copyInfo;
    }
    assert pend == h.escr + h.esRate + h.trickMode + h.copyInfo;
    if CrcFlag(h.flags) {
      pend := pend + h.crc;
    }
  }

  /** The optional fields, through the small buffer. */
  method WriteFields(h: PesHeader, w: Writer, ghost all: seq<byte>)
    requires h.Full? && MatchesFlags(h) && w.Valid() && w.Bytes() == Clip(all, w.buf.Length)
    modifies w, w.buf
    ensures w.Valid() && w.Bytes() == Clip(all + Fields(h), w.buf.Length)
  {
    hide Clip, MatchesFlags, Fields;
    var pend := GatherTimes(h);
    var n := w.Write(pend);
    ClipTwice(all, pend, w.buf.Length);
    var rest := GatherFields(h);
    n := w.Write(rest);
    ClipTwice(all + pend, rest, w.buf.Length);
    FieldsInOrder(h, all);
  }

  lemma FieldsInOrder(h: PesHeader, all: seq<byte>)
    requires h.Full?
    ensures all + (h.pts + h.dts) + (h.escr + h.esRate + h.trickMode + h.copyInfo + h.crc) == all + Fields(h)
  {
  }

  /** Flushes the small buffer and then writes a field directly. */
  method FlushAndWrite(pend: seq<byte>, field: seq<byte>, w: Writer, ghost all: seq<byte>)
    requires w.Valid() && w.Bytes() == Clip(all, w.buf.Length)
    modifies w, w.buf
    ensures w.Valid() && w.Bytes() == Clip(all + (pend + field), w.buf.Length)
  {
    hide Clip;
    var n := w.Write(pend);
    ClipTwice(all, pend, w.buf.Length);
    n := w.Write(field);
    ClipTwice(all + pend, field, w.buf.Length);
    Assoc(all, pend, field);
  }

  method WriteHead(e: Extension, w: Writer, ghost all: seq<byte>) returns (pend: seq<byte>)
    requires w.Valid() && w.Bytes() == Clip(all, w.buf.Length) && ExtensionMatchesFlags(e, true)
    modifies w, w.buf
    ensures w.Valid() && w.Bytes() == Clip(all + WriteExtensionHead(e).0, w.buf.Length)
    ensures pend == WriteExtensionHead(e).1
  {
    hide Clip, PrivateDataFlag, PackHeaderFlag, CounterFlag, PStdBufferFlag, ExtensionFlag2;
    ghost var out: seq<byte> := [];
    pend := [e.base];
    assert all + out == all;
    if PrivateDataFlag(e.base) {
      FlushAndWrite(pend, e.privateData, w, all);
      out, pend := pend + e.privateData, [];
    }
    if PackHeaderFlag(e.base) {
      FlushAndWrite(pend + [|e.packHeader|], e.packHeader, w, all + out);
      assert pend + [|e.packHeader|] + e.packHeader == pend + Counted(true, e.packHeader);
      Assoc(all, out, pend + Counted(true, e.packHeader));
      out, pend := out + (pend + Counted(true, e.packHeader)), [];
    }
  }

  /** The extension: what is still in the small buffer at the end stays there. */
  method WriteExtensionFields(e: Extension, w: Writer, ghost all: seq<byte>)
    requires w.Valid() && w.Bytes() == Clip(all, w.buf.Length) && ExtensionMatchesFlags(e, e.Extension?)
    modifies w, w.buf
    ensures w.Valid() && w.Bytes() == Clip(all + WriteExtension(e).0, w.buf.Length)
  {
    hide Clip, WriteExtension, WriteExtensionHead, CounterFlag, PStdBufferFlag, ExtensionFlag2, PrivateDataFlag, PackHeaderFlag;
    PassedOn(e);
    if e.NoExtension? {
      NothingBehind(all);
      return;
    }
    var pend := WriteHead(e, w, all);
    ghost var out := WriteExtensionHead(e).0;
    ghost var buf := pend;
    if CounterFlag(e.base) {
      pend := pend + e.counter;
    }
    if PStdBufferFlag(e.base) {
      pend := pend + e.pStdBuffer;
    }
    assert pend == buf + e.counter + e.pStdBuffer;
    if ExtensionFlag2(e.base) {
      FlushAndWrite(pend + [|e.field|], e.field, w, all + out);
      Assoc(pend, [|e.field| as byte], e.field);
      Assoc(all, out, pend + Counted(true, e.field));
    }
  }

  /** What of an extension reaches the writer. */
  lemma PassedOn(e: Extension)
    ensures WriteExtension(e).0
            == if e.NoExtension? then []
               else
                 var (out, buf) := WriteExtensionHead(e);
                 if ExtensionFlag2(e.base) then out + ((buf + e.counter + e.pStdBuffer) + Counted(true, e.field)) else out
  {
    hide WriteExtensionHead, Counted;
  }

  /** The stuffing loop, sixteen bytes at a time. */
  method WriteStuffing(length: nat, w: Writer, ghost all: seq<byte>)
    requires w.Valid() && w.Bytes() == Clip(all, w.buf.Length)
    modifies w, w.buf
    ensures w.Valid() && w.Bytes() == Clip(all + Stuff(length), w.buf.Length)
  {
    hide Clip;
    var left := length;
    assert all + [] == all;
    while left > 0
      invariant 0 <= left <= length && w.Valid()
      invariant w.Bytes() == Clip(all + Stuff(length - left), w.buf.Length)
    {
      var m := if left <= 16 then left else 16;
      var n := w.Write(Stuff(m));
      ClipTwice(all + Stuff(length - left), Stuff(m), w.buf.Length);
      StuffSplits(length - left, m);
      Assoc(all, Stuff(length - left), Stuff(m));
      left := left - m;
    }
  }
}
