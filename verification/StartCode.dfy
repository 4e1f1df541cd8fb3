/** The start-code finder of media/ps/start-code.go: a 64-bit window scan with carry-over. */
module StartCode {
  import opened Bytes
  import opened Sequences

  /** The four bytes 00 00 01 xx stand at position i. */
  predicate CodeAt(s: seq<byte>, i: int) {
    0 <= i && i + 4 <= |s| && s[i] == 0 && s[i + 1] == 0 && s[i + 2] == 1
  }

  /** Naive scan, one position at a time, from position i on; -1 when there is no start code. */
  function ScanFrom(s: seq<byte>, i: nat): (r: int)
    ensures r == -1 ==> forall k :: i <= k ==> !CodeAt(s, k)
    ensures r != -1 ==> i <= r && CodeAt(s, r) && forall k :: i <= k < r ==> !CodeAt(s, k)
    decreases |s| - i
  {
    if i + 4 > |s| then -1
    else if CodeAt(s, i) then i
    else ScanFrom(s, i + 1)
  }

  function FirstCode(s: seq<byte>): int {
    ScanFrom(s, 0)
  }

  function Suffix(s: seq<byte>, n: nat): seq<byte> {
    if |s| <= n then s else s[|s| - n..]
  }

  /** What one call of Find answers for the carried bytes followed by the data. */
  datatype Found = Found(code: byte, remain: seq<byte>) | Carried(carry: seq<byte>)

  function FindIn(stream: seq<byte>): (f: Found)
    ensures f.Found? ==> |f.remain| + 4 <= |stream|
    ensures f.Carried? ==> |f.carry| <= 3
  {
    var i := FirstCode(stream);
    if i == -1 then Carried(Suffix(stream, 3)) else Found(stream[i + 3], stream[i + 4..])
  }

  /** The value of bytes read as one little-endian word. */
  function Load(w: seq<byte>): nat {
    if w == [] then 0 else w[0] as int + 0x100 * Load(w[1..])
  }

  /** The word shifted right by k bytes. */
  function Shr(word: nat, k: nat): nat {
    if k == 0 then word else Shr(word / 0x100, k - 1)
  }

  lemma {:induction false} ShrLoad(w: seq<byte>, k: nat)
    requires k <= |w|
    ensures Shr(Load(w), k) == Load(w[k..])
  {
    if k == 0 {
      assert w[0..] == w;
    } else {
      assert Load(w) / 0x100 == Load(w[1..]);
      ShrLoad(w[1..], k - 1);
      assert w[1..][k - 1..] == w[k..];
    }
  }

  lemma Low24(a: byte, b: byte, c: byte, y: nat, x: nat)
    requires x == a as int + 0x100 * (b as int + 0x100 * (c as int + 0x100 * y))
    ensures x % 0x100_0000 == 0x1_0000 <==> a == 0 && b == 0 && c == 1
  {
    assert x % 0x100_0000 == a as int + 0x100 * b as int + 0x1_0000 * c as int;
  }

  lemma LoadHead(w: seq<byte>, k: nat)
    requires k < |w|
    ensures Load(w[k..]) == w[k] as int + 0x100 * Load(w[k + 1..])
  {
    assert w[k..][1..] == w[k + 1..];
  }

  /** The mask test on a shifted word is the start-code test at that byte offset, and the byte
      extracted beside it is the one behind the start code. */
  lemma WordTest(w: seq<byte>, k: nat)
    requires k + 4 <= |w|
    ensures Shr(Load(w), k) % 0x100_0000 == 0x1_0000 <==> CodeAt(w, k)
    ensures Shr(Load(w), k + 3) % 0x100 == w[k + 3]
  {
    hide Shr, Load;
    ShrLoad(w, k);
    ShrLoad(w, k + 3);
    LoadHead(w, k);
    LoadHead(w, k + 1);
    LoadHead(w, k + 2);
    LoadHead(w, k + 3);
    Low24(w[k], w[k + 1], w[k + 2], Load(w[k + 3..]), Load(w[k..]));
  }

  /** The cases of the switch over one 64-bit window, in order from byte offset k: the offset that
      holds a start code and the byte behind it; offset -1 when none of the five does. */
  function MatchWord(word: nat, k: nat): (int, byte)
    decreases 5 - k
  {
    if k >= 5 then (-1, 0)
    else if Shr(word, k) % 0x100_0000 == 0x1_0000 then (k, Shr(word, k + 3) % 0x100)
    else MatchWord(word, k + 1)
  }

  /** The switch finds the first start code of the window's bytes. */
  lemma {:induction false} MatchWordFinds(w: seq<byte>, k: nat)
    requires |w| == 8
    ensures var (r, id) := MatchWord(Load(w), k);
            ScanFrom(w, k) == r && (r != -1 ==> id == w[r + 3])
    decreases 5 - k
  {
    if k < 5 {
      WordTest(w, k);
      MatchWordFinds(w, k + 1);
    }
  }

  /** A window of the stream has its start codes where the stream has them. */
  lemma WindowOfStream(stream: seq<byte>, pos: nat, w: seq<byte>)
    requires pos + |w| <= |stream| && w == stream[pos..pos + |w|]
    requires forall k :: 0 <= k < pos ==> !CodeAt(stream, k)
    ensures FirstCode(w) != -1 ==> FirstCode(stream) == pos + FirstCode(w)
    ensures FirstCode(w) == -1 ==> forall k :: 0 <= k <= pos + |w| - 4 ==> !CodeAt(stream, k)
  {
    assert forall k :: pos <= k <= pos + |w| - 4 ==> CodeAt(stream, k) == CodeAt(w, k - pos);
    if FirstCode(w) != -1 {
      assert CodeAt(stream, pos + FirstCode(w));
    }
  }

  /** Once the stream is known to hold no start code before pos, its answer is that of the rest. */
  lemma SuffixOfStream(stream: seq<byte>, pos: nat)
    requires pos + 4 <= |stream|
    requires forall k :: 0 <= k < pos ==> !CodeAt(stream, k)
    ensures FindIn(stream) == FindIn(stream[pos..])
  {
    var rest := stream[pos..];
    WindowOfStream(stream, pos, rest);
    if FirstCode(rest) != -1 {
      var i := FirstCode(rest);
      assert rest[i + 4..] == stream[pos + i + 4..];
    } else {
      assert FirstCode(stream) == -1;
    }
  }

  /** One window decides whether the answer lies in it or is that of the stream four bytes on. */
  lemma WindowStep(stream: seq<byte>)
    requires |stream| >= 8
    ensures var (k, id) := MatchWord(Load(stream[..8]), 0);
            -1 <= k <= 4
            && FindIn(stream) == if k != -1 then Found(id, stream[4..][k..]) else FindIn(stream[4..])
  {
    var w := stream[..8];
    MatchWordFinds(w, 0);
    WindowOfStream(stream, 0, w);
    if FirstCode(w) == -1 {
      SuffixOfStream(stream, 4);
    } else {
      assert stream[4..][FirstCode(w)..] == stream[FirstCode(w) + 4..];
    }
  }

  /** A start code already found stays the first one however the stream goes on. */
  lemma FoundStable(s: seq<byte>, d: seq<byte>)
    requires FindIn(s).Found?
    ensures FindIn(s + d) == Found(FindIn(s).code, FindIn(s).remain + d)
  {
    var i := FirstCode(s);
    assert forall k :: k <= i ==> CodeAt(s + d, k) == CodeAt(s, k);
    assert FirstCode(s + d) == i;
    assert (s + d)[i + 4..] == s[i + 4..] + d;
  }

  /** With no start code so far, three carried bytes answer for the whole stream before them. */
  lemma CarryEnough(s: seq<byte>, d: seq<byte>)
    requires FindIn(s).Carried?
    ensures FindIn(s + d) == FindIn(FindIn(s).carry + d)
  {
    if |s| > 3 {
      var pos := |s| - 3;
      assert (s + d)[pos..] == s[pos..] + d;
      if |d| > 0 {
        assert forall k :: 0 <= k < pos ==> CodeAt(s + d, k) == CodeAt(s, k);
        SuffixOfStream(s + d, pos);
      } else {
        assert s + d == s && s[pos..] + d == s[pos..];
        assert FirstCode(s[pos..]) == -1;
      }
    }
  }

  /** Every start code of a stream, by the naive scan, each search starting behind the last code. */
  function AllCodes(stream: seq<byte>): seq<byte>
    decreases |stream|
  {
    match FindIn(stream)
    case Found(code, rest) => [code] + AllCodes(rest)
    case Carried(_) => []
  }

  /** Calling Find again and again on what remains of one chunk: the codes found, and the carry. */
  function FeedChunk(carry: seq<byte>, data: seq<byte>): (seq<byte>, seq<byte>)
    requires |carry| <= 3
    ensures |FeedChunk(carry, data).1| <= 3
    decreases |data|
  {
    if data == [] then ([], carry)
    else
      match FindIn(carry + data)
      case Found(code, rest) => var (codes, c) := FeedChunk([], rest); ([code] + codes, c)
      case Carried(c) => ([], c)
  }

  function FeedChunks(carry: seq<byte>, chunks: seq<seq<byte>>): seq<byte>
    requires |carry| <= 3
    decreases chunks
  {
    if chunks == [] then []
    else
      var (codes, c) := FeedChunk(carry, chunks[0]);
      codes + FeedChunks(c, chunks[1..])
  }

  /** The same answer leads to the same codes. */
  lemma SameAnswerSameCodes(a: seq<byte>, b: seq<byte>)
    requires FindIn(a) == FindIn(b)
    ensures AllCodes(a) == AllCodes(b)
  {
  }

  lemma CarriedIsFinal(s: seq<byte>)
    requires FindIn(s).Carried?
    ensures FindIn(FindIn(s).carry) == FindIn(s)
  {
    CarryEnough(s, []);
    assert s + [] == s && FindIn(s).carry + [] == FindIn(s).carry;
  }

  lemma {:induction false} FeedChunkScans(carry: seq<byte>, data: seq<byte>, later: seq<byte>)
    requires |carry| <= 3 && FindIn(carry).Carried?
    ensures var (codes, c) := FeedChunk(carry, data);
            FindIn(c).Carried? && AllCodes(carry + data + later) == codes + AllCodes(c + later)
    decreases |data|
  {
    hide FindIn;
    if data == [] {
      assert carry + data == carry;
    } else if FindIn(carry + data).Found? {
      var Found(code, rest) := FindIn(carry + data);
      var (codes, c) := FeedChunk([], rest);
      assert AllCodes(carry + data + later) == [code] + AllCodes(rest + later) by {
        FoundStable(carry + data, later);
      }
      assert AllCodes(rest + later) == codes + AllCodes(c + later) && FindIn(c).Carried? by {
        FeedChunkScans([], rest, later);
        assert [] + rest == rest;
      }
      assert [code] + (codes + AllCodes(c + later)) == [code] + codes + AllCodes(c + later);
    } else {
      var c := FindIn(carry + data).carry;
      assert AllCodes(carry + data + later) == AllCodes(c + later) by {
        CarryEnough(carry + data, later);
        SameAnswerSameCodes(carry + data + later, c + later);
      }
      CarriedIsFinal(carry + data);
    }
  }

  /** Under any chunking, the start codes found are those of a naive scan of the whole stream. */
  lemma {:induction false} ChunkedSearchIsNaiveScan(carry: seq<byte>, chunks: seq<seq<byte>>)
    requires |carry| <= 3 && FindIn(carry).Carried?
    ensures FeedChunks(carry, chunks) == AllCodes(carry + Concat(chunks))
    decreases chunks
  {
    hide FindIn, AllCodes, FeedChunk;
    if chunks == [] {
      NothingBehind(carry);
      NoCodes(carry);
    } else {
      var rest := Concat(chunks[1..]);
      FeedChunkScans(carry, chunks[0], rest);
      Assoc(carry, chunks[0], rest);
      ChunkedSearchIsNaiveScan(FeedChunk(carry, chunks[0]).1, chunks[1..]);
    }
  }

  lemma NoCodes(carry: seq<byte>)
    requires FindIn(carry).Carried?
    ensures AllCodes(carry) == []
  {
  }

  /** The loop over the 32-bit positions of the last, short stretch. */
  method FirstPosition(s: seq<byte>) returns (i: int, id: byte)
    ensures i == -1 || 0 <= i <= |s| - 4
    ensures i == FirstCode(s) && (i != -1 ==> id == s[i + 3])
  {
    i, id := 0, 0;
    while i < |s| - 3
      invariant 0 <= i && (i <= |s| - 3 || i == 0)
      invariant ScanFrom(s, i) == FirstCode(s)
    {
      WordTest(s[i..i + 4], 0);
      var word := Load(s[i..i + 4]);
      if Shr(word, 0) % 0x100_0000 == 0x1_0000 {
        id := Shr(word, 3) % 0x100;
        return;
      }
      i := i + 1;
    }
    i := -1;
  }

  class StartCodeFinder {
    const buffer: array<byte>
    var buffed: nat

    ghost predicate Valid()
      reads this
    {
      buffer.Length == 8 && buffed <= 3
    }

    ghost function Carry(): seq<byte>
      requires Valid()
      reads this, buffer
    {
      buffer[..buffed]
    }

    constructor ()
      ensures Valid() && Carry() == [] && fresh(buffer)
    {
      buffer := new byte[8];
      buffed := 0;
    }

    method Reset()
      requires Valid()
      modifies this
      ensures Valid() && Carry() == []
    {
      buffed := 0;
    }

    /** Copies as much of src into the buffer, from position at on, as fits. */
    method Fill(at: nat, src: seq<byte>) returns (n: nat)
      requires buffer.Length == 8 && at <= 8
      modifies buffer
      ensures n == if |src| <= 8 - at then |src| else 8 - at
      ensures buffer[..at] == old(buffer[..at])
      ensures buffer[at..at + n] == src[..n]
      ensures buffer[at + n..] == old(buffer[at + n..])
    {
      n := if |src| <= 8 - at then |src| else 8 - at;
      forall i | 0 <= i < n {
        buffer[at + i] := src[i];
      }
    }

    /** The last stretch, shorter than a window: buffers it and tries each 32-bit position. */
    method FindTail(p: seq<byte>) returns (id: byte, next: nat, ok: bool)
      requires Valid() && 4 <= buffed + |p| < 8
      modifies this, buffer
      ensures Valid()
      ensures match FindIn(old(Carry()) + p) {
                case Found(code, rest) =>
                  ok && id == code && 4 <= next <= old(buffed) + |p|
                  && rest == (old(Carry()) + p)[next..] && Carry() == []
                case Carried(carry) => !ok && Carry() == carry
              }
    {
      hide FirstCode;
      next, ok := 0, false;
      var n := Fill(buffed, p);
      var stretch := buffer[..buffed + n];
      assert stretch == old(Carry()) + p;
      var i;
      i, id := FirstPosition(stretch);
      if i != -1 {
        next, ok := i + 4, true;
        buffed := 0;
      } else {
        var end := buffed + n;
        var last := buffer[end - 3..];
        assert last[..3] == stretch[end - 3..];
        var m := Fill(0, last);
        buffed := 3;
        assert buffer[0..m] == last;
        assert Carry() == buffer[0..m][..3] == last[..3];
      }
    }

    /** Takes the next window, from the buffer when bytes are carried and from the data otherwise. */
    method TakeWindow(p: seq<byte>) returns (window: seq<byte>, rest: seq<byte>)
      requires Valid() && buffed + |p| >= 8
      modifies this, buffer
      ensures Valid() && Carry() == []
      ensures window == (old(Carry()) + p)[..8] && rest == (old(Carry()) + p)[4..]
      ensures rest == p[4 - old(buffed)..]
    {
      var before := buffed;
      if before > 0 {
        var n := Fill(before, p[..8 - before]);
        window := buffer[..8];
        assert window == buffer[..before] + buffer[before..before + n];
        buffed := 0;
      } else {
        window := p[..8];
      }
      rest := p[4 - before..];
    }

    /** The loop over whole windows: either finds the start code, or leaves fewer than eight bytes
        with the same answer. */
    method FindInWindows(data: seq<byte>) returns (id: byte, index: nat, ok: bool)
      requires Valid() && buffed + |data| >= 4
      modifies this, buffer
      ensures Valid() && index <= |data|
      ensures ok ==> FindIn(old(Carry()) + data) == Found(id, data[index..]) && Carry() == []
      ensures !ok ==> FindIn(old(Carry()) + data) == FindIn(Carry() + data[index..])
                      && 4 <= buffed + |data| - index < 8 && (buffed == 0 || index == 0)
    {
      hide FindIn, MatchWord, Load;
      var p := data;
      id, index, ok := 0, 0, false;
      assert data[0..] == data;
      while buffed + |p| >= 8
        invariant Valid() && buffed + |p| >= 4
        invariant index <= |data| && p == data[index..]
        invariant buffed == 0 || index == 0
        invariant FindIn(Carry() + p) == FindIn(old(Carry()) + data)
        decreases |p|
      {
        WindowStep(Carry() + p);
        var before := buffed;
        var window, rest := TakeWindow(p);
        var (k, code) := MatchWord(Load(window), 0);
        index := index + 4 - before;
        if k != -1 {
          id, ok := code, true;
          index := index + k;
          assert data[index..] == rest[k..];
          return;
        }
        p := rest;
        assert Carry() + p == p;
      }
    }

    /** One call of Find: the first start code of the carried bytes followed by the data, and what
        follows it; with none, at most three bytes are carried over. */
    method Find(data: seq<byte>) returns (startCode: seq<byte>, remain: seq<byte>, ok: bool)
      requires Valid()
      modifies this, buffer
      ensures Valid()
      ensures match FindIn(old(Carry()) + data) {
                case Found(code, rest) => ok && startCode == [0, 0, 1, code] && remain == rest && Carry() == []
                case Carried(carry) => !ok && startCode == [0, 0, 0, 0] && remain == [] && Carry() == carry
              }
    {
      hide FirstCode;
      startCode, remain, ok := [0, 0, 0, 0], [], false;
      if buffed + |data| < 4 {
        ghost var carry := Carry();
        var n := Fill(buffed, data);
        buffed := buffed + n;
        assert Carry() == carry + data;
        return;
      }
      var id, index, found := FindInWindows(data);
      if !found {
        ghost var carry := Carry();
        var before := buffed;
        var next;
        id, next, found := FindTail(data[index..]);
        if found {
          assert (carry + data[index..])[next..] == data[index + next - before..];
          index := index + next - before;
        }
      }
      if found {
        startCode, remain, ok := [0, 0, 1, id], data[index..], true;
      }
    }
  }
}
