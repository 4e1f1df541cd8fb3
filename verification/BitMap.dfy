/** The hierarchical bitmap allocator of storage/file/allocator/bit-map.go: a tree of byte arrays
    over a plain set of allocated indexes. */
module BitMaps {

  // ----- one byte

  /** 1 << k, for the eight values k takes. */
  function Mask(k: nat): bv8
    requires k < 8
  {
    match k
    case 0 => 1
    case 1 => 2
    case 2 => 4
    case 3 => 8
    case 4 => 16
    case 5 => 32
    case 6 => 64
    case 7 => 128
  }

  predicate Bit(b: bv8, k: nat)
    requires k < 8
  {
    b & Mask(k) != 0
  }

  lemma SetBit(b: bv8, k: nat, j: nat)
    requires k < 8 && j < 8
    ensures Bit(b | Mask(k), j) <==> j == k || Bit(b, j)
    ensures (b | Mask(k)) == b <==> Bit(b, k)
  {
  }

  lemma ClearBit(b: bv8, k: nat, j: nat)
    requires k < 8 && j < 8
    ensures Bit(b & !Mask(k), j) <==> j != k && Bit(b, j)
    ensures (b & !Mask(k)) == b <==> !Bit(b, k)
  {
  }

  lemma FullByte(b: bv8)
    ensures b == 0xff <==> forall k :: 0 <= k < 8 ==> Bit(b, k)
  {
    if forall k :: 0 <= k < 8 ==> Bit(b, k) {
      assert Bit(b, 0) && Bit(b, 1) && Bit(b, 2) && Bit(b, 3);
      assert Bit(b, 4) && Bit(b, 5) && Bit(b, 6) && Bit(b, 7);
    }
  }

  /** 0xff << used, as a byte: the padding above the last used bits. */
  function Padding(used: nat): bv8
    requires used < 8
  {
    match used
    case 0 => 0xff
    case 1 => 0xfe
    case 2 => 0xfc
    case 3 => 0xf8
    case 4 => 0xf0
    case 5 => 0xe0
    case 6 => 0xc0
    case 7 => 0x80
  }

  lemma PaddingBits(used: nat, k: nat)
    requires used < 8 && k < 8
    ensures Bit(Padding(used), k) <==> k >= used
  {
  }

  /** The lowest clear bit of a byte, found by halving; -1 when the byte is full. */
  function ByteFreed(b: bv8): (r: int)
    ensures r == -1 <==> b == 0xff
    ensures r != -1 ==> 0 <= r < 8 && !Bit(b, r) && forall j :: 0 <= j < r ==> Bit(b, j)
  {
    if b < 0xff then
      var low := b & 0x0f < 0x0f;
      var n := if low then b & 0x0f else (b & 0xf0) >> 4;
      var pairLow := n & 0x3 < 0x3;
      var p := if pairLow then n & 0x3 else (n & 0xc) >> 2;
      (if low then 0 else 4) + (if pairLow then 0 else 2) + (if p & 0x1 == 0x1 then 1 else 0)
    else -1
  }

  // ----- the tree

  predicate ArrayBit(m: array<bv8>, i: nat)
    requires i / 8 < m.Length
    reads m
  {
    Bit(m[i / 8], i % 8)
  }

  /** One level of NewBitMap: n clear bits, and set padding bits up to the next whole byte. */
  method NewLevel(n: nat) returns (m: array<bv8>)
    requires n > 0
    ensures fresh(m) && m.Length == (n + 7) / 8
    ensures forall i :: 0 <= i < 8 * m.Length ==> (ArrayBit(m, i) <==> i >= n)
  {
    m := new bv8[(n + 7) / 8](_ => 0);
    if n % 8 > 0 {
      m[m.Length - 1] := Padding(n % 8);
    }
    forall i | 0 <= i < 8 * m.Length
      ensures ArrayBit(m, i) <==> i >= n
    {
      if n % 8 > 0 && i / 8 == m.Length - 1 {
        PaddingBits(n % 8, i % 8);
      }
    }
  }

  /** The levels built so far: one bit for each byte below, and only the padding set. */
  ghost predicate NewLevels(levels: seq<array<bv8>>, cap: nat)
    reads levels
  {
    && (|levels| > 0 ==> cap > 0 && levels[|levels| - 1].Length == (cap + 7) / 8)
    && (forall j :: 0 <= j < |levels| - 1 ==> levels[j].Length == (levels[j + 1].Length + 7) / 8)
    && (forall j, k :: 0 <= j < k < |levels| ==> levels[j] != levels[k])
    && (forall j, i :: 0 <= j < |levels| && 0 <= i < 8 * levels[j].Length ==>
         (ArrayBit(levels[j], i) <==> i >= if j == |levels| - 1 then cap else levels[j + 1].Length))
  }

  lemma NewLevelsCons(m: array<bv8>, levels: seq<array<bv8>>, cap: nat)
    requires NewLevels(levels, cap) && m !in levels
    requires cap > 0 && (|levels| > 0 ==> levels[0].Length > 0)
    requires var n := if |levels| == 0 then cap else levels[0].Length;
             m.Length == (n + 7) / 8 && forall i :: 0 <= i < 8 * m.Length ==> (ArrayBit(m, i) <==> i >= n)
    ensures NewLevels([m] + levels, cap)
  {
  }

  class BitMap {
    /** The levels, root first; the last one has a bit for each index. */
    const ms: seq<array<bv8>>
    const cap: nat

    /** Each level has one bit for every byte of the next, and the root is one byte. */
    ghost predicate Shape() {
      && (cap == 0 <==> |ms| == 0)
      && (cap > 0 ==> ms[0].Length == 1 && ms[|ms| - 1].Length == (cap + 7) / 8)
      && (forall j :: 0 <= j < |ms| - 1 ==> ms[j].Length == (ms[j + 1].Length + 7) / 8)
      && (forall j, k :: 0 <= j < k < |ms| ==> ms[j] != ms[k])
    }

    ghost function Bits(j: nat): nat
      requires Shape() && j < |ms|
    {
      if j == |ms| - 1 then cap else ms[j + 1].Length
    }

    ghost predicate LevelBit(j: nat, i: nat)
      requires Shape() && j < |ms| && i / 8 < ms[j].Length
      reads ms[j]
    {
      ArrayBit(ms[j], i)
    }

    /** The parent bit is set exactly when the child byte is full. */
    ghost predicate Linked(j: nat, i: nat)
      requires Shape() && j + 1 < |ms| && i < ms[j + 1].Length
      reads ms[j], ms[j + 1]
    {
      LevelBit(j, i) <==> ms[j + 1][i] == 0xff
    }

    ghost predicate Padded(j: nat)
      requires Shape() && j < |ms|
      reads ms[j]
    {
      forall i :: Bits(j) <= i < 8 * ms[j].Length ==> LevelBit(j, i)
    }

    ghost predicate Valid()
      reads ms
    {
      && Shape()
      && (forall j, i :: 0 <= j < |ms| - 1 && 0 <= i < ms[j + 1].Length ==> Linked(j, i))
      && (forall j :: 0 <= j < |ms| ==> Padded(j))
    }

    ghost predicate IsAllocated(i: nat)
      requires Shape() && i < cap
      reads ms[|ms| - 1]
    {
      LevelBit(|ms| - 1, i)
    }

    /** The set the tree stands for. */
    ghost function Allocated(): set<nat>
      requires Shape()
      reads ms
    {
      set i: nat | i < cap && IsAllocated(i)
    }

    /** With only the padding set, no byte is full and no index is allocated. */
    lemma OnlyPadding()
      requires Shape()
      requires forall j, i :: 0 <= j < |ms| && 0 <= i < 8 * ms[j].Length ==> (LevelBit(j, i) <==> i >= Bits(j))
      ensures Valid() && Allocated() == {}
    {
      forall j, i | 0 <= j < |ms| - 1 && 0 <= i < ms[j + 1].Length
        ensures Linked(j, i)
      {
        assert !LevelBit(j + 1, 8 * i);
        FullByte(ms[j + 1][i]);
      }
    }

    /** NewBitMap: levels are added above until one byte is enough. */
    constructor (cap: nat)
      ensures Valid() && this.cap == cap
      ensures forall m :: m in ms ==> fresh(m)
      ensures Allocated() == {}
    {
      var levels: seq<array<bv8>> := [];
      var c := cap;
      while c > 1 || (c > 0 && |levels| == 0)
        invariant forall a :: a in levels ==> fresh(a)
        invariant c == (if |levels| == 0 then cap else levels[0].Length) && (|levels| > 0 ==> c > 0)
        invariant NewLevels(levels, cap)
        decreases c, |levels| == 0
      {
        var m := NewLevel(c);
        NewLevelsCons(m, levels, cap);
        levels := [m] + levels;
        c := m.Length;
      }
      ms := levels;
      this.cap := cap;
      new;
      assert forall j, i :: 0 <= j < |ms| && 0 <= i < 8 * ms[j].Length ==> LevelBit(j, i) == ArrayBit(levels[j], i);
      OnlyPadding();
    }

    /** m[i] |= 1 << k on one level: one bit is set, and every other bit and byte stays. */
    method SetLevelBit(j: nat, x: nat) returns (before: bv8)
      requires Shape() && j < |ms| && x < 8 * ms[j].Length
      modifies ms[j]
      ensures before == old(ms[j][x / 8]) && ms[j][x / 8] == before | Mask(x % 8)
      ensures before != ms[j][x / 8] <==> !old(LevelBit(j, x))
      ensures forall y :: 0 <= y < ms[j].Length && y != x / 8 ==> ms[j][y] == old(ms[j][y])
      ensures forall i :: 0 <= i < 8 * ms[j].Length ==> (LevelBit(j, i) <==> i == x || old(LevelBit(j, i)))
    {
      before := ms[j][x / 8];
      ms[j][x / 8] := before | Mask(x % 8);
      forall k | 0 <= k < 8
        ensures Bit(before | Mask(x % 8), k) <==> k == x % 8 || Bit(before, k)
      {
        SetBit(before, x % 8, k);
      }
    }

    /** m[i] &^= 1 << k on one level. */
    method ClearLevelBit(j: nat, x: nat) returns (before: bv8)
      requires Shape() && j < |ms| && x < 8 * ms[j].Length
      modifies ms[j]
      ensures before == old(ms[j][x / 8]) && ms[j][x / 8] == before & !Mask(x % 8)
      ensures before != ms[j][x / 8] <==> old(LevelBit(j, x))
      ensures forall y :: 0 <= y < ms[j].Length && y != x / 8 ==> ms[j][y] == old(ms[j][y])
      ensures forall i :: 0 <= i < 8 * ms[j].Length ==> (LevelBit(j, i) <==> i != x && old(LevelBit(j, i)))
    {
      before := ms[j][x / 8];
      ms[j][x / 8] := before & !Mask(x % 8);
      forall k | 0 <= k < 8
        ensures Bit(before & !Mask(x % 8), k) <==> k != x % 8 && Bit(before, k)
      {
        ClearBit(before, x % 8, k);
      }
    }

    /** All links hold but the one above byte x of level j + 1. */
    ghost predicate LinkedExcept(j: int, x: nat)
      requires Shape()
      reads ms
    {
      forall k, i :: 0 <= k < |ms| - 1 && 0 <= i < ms[k + 1].Length && (k != j || i != x) ==> Linked(k, i)
    }

    ghost predicate AllPadded()
      requires Shape()
      reads ms
    {
      forall j :: 0 <= j < |ms| ==> Padded(j)
    }

    /** One step up after a byte below became full: the broken link moves one level up, and closes
        when this byte does not become full. */
    method MarkLevel(j: nat, x: nat) returns (before: bv8)
      requires Shape() && j < |ms| && x < Bits(j)
      requires AllPadded() && LinkedExcept(j, x) && (j < |ms| - 1 ==> ms[j + 1][x] == 0xff)
      modifies ms[j]
      ensures AllPadded() && LinkedExcept(j - 1, x / 8)
      ensures j > 0 && ms[j][x / 8] != 0xff ==> Linked(j - 1, x / 8)
      ensures before != ms[j][x / 8] <==> !old(LevelBit(j, x))
      ensures forall i :: 0 <= i < 8 * ms[j].Length ==> (LevelBit(j, i) <==> i == x || old(LevelBit(j, i)))
    {
      before := SetLevelBit(j, x);
      forall k, i | 0 <= k < |ms| - 1 && 0 <= i < ms[k + 1].Length && (k != j - 1 || i != x / 8)
        ensures Linked(k, i)
      {
        if k != j || i != x {
          assert old(Linked(k, i));
        }
        assert k == j ==> LevelBit(j, i) == (i == x || old(LevelBit(j, i)));
      }
      if j > 0 && ms[j][x / 8] != 0xff {
        assert old(Linked(j - 1, x / 8));
        assert before != 0xff by { assert 0xff | Mask(x % 8) == 0xff; }
      }
      forall k | 0 <= k < |ms|
        ensures Padded(k)
      {
        assert old(Padded(k));
        assert k == j ==> forall i :: Bits(j) <= i < 8 * ms[j].Length ==> old(LevelBit(j, i));
      }
    }

    /** One step up after a byte below stopped being full. */
    method UnmarkLevel(j: nat, x: nat) returns (before: bv8)
      requires Shape() && j < |ms| && x < Bits(j)
      requires AllPadded() && LinkedExcept(j, x) && (j < |ms| - 1 ==> ms[j + 1][x] != 0xff)
      modifies ms[j]
      ensures AllPadded() && LinkedExcept(j - 1, x / 8)
      ensures ms[j][x / 8] != 0xff
      ensures j > 0 && before != 0xff ==> Linked(j - 1, x / 8)
      ensures before != ms[j][x / 8] <==> old(LevelBit(j, x))
      ensures forall i :: 0 <= i < 8 * ms[j].Length ==> (LevelBit(j, i) <==> i != x && old(LevelBit(j, i)))
    {
      before := ClearLevelBit(j, x);
      assert ms[j][x / 8] != 0xff by {
        assert !LevelBit(j, x);
        FullByte(ms[j][x / 8]);
      }
      forall k, i | 0 <= k < |ms| - 1 && 0 <= i < ms[k + 1].Length && (k != j - 1 || i != x / 8)
        ensures Linked(k, i)
      {
        if k != j || i != x {
          assert old(Linked(k, i));
        }
        assert k == j ==> LevelBit(j, i) == (i != x && old(LevelBit(j, i)));
      }
      if j > 0 && before != 0xff {
        assert old(Linked(j - 1, x / 8));
      }
      forall k | 0 <= k < |ms|
        ensures Padded(k)
      {
        assert old(Padded(k));
        assert k == j ==> forall i :: Bits(j) <= i < 8 * ms[j].Length ==> old(LevelBit(j, i));
      }
    }

    /** The upward loop of Alloc and AllocIndex: sets the bit, and goes on only while bytes fill up. */
    method MarkUp(i: nat) returns (added: bool)
      requires Valid() && i < cap
      modifies ms
      ensures Valid()
      ensures added <==> !old(IsAllocated(i))
      ensures forall k :: 0 <= k < cap ==> (IsAllocated(k) <==> k == i || old(IsAllocated(k)))
    {
      hide Linked, Padded, LevelBit, Bit, Mask, ArrayBit;
      var j: int, x: nat := |ms| - 2, i / 8;
      var before := MarkLevel(|ms| - 1, i);
      added := before != ms[|ms| - 1][x];
      while j >= 0 && ms[j + 1][x] == 0xff
        invariant -1 <= j < |ms| - 1 && x < ms[j + 1].Length
        invariant AllPadded() && LinkedExcept(j, x)
        invariant j >= 0 && ms[j + 1][x] != 0xff ==> Linked(j, x)
        invariant forall k :: 0 <= k < cap ==> (IsAllocated(k) <==> k == i || old(IsAllocated(k)))
      {
        before := MarkLevel(j, x);
        x := x / 8;
        j := j - 1;
      }
    }

    /** AllocIndex: reports whether the index was free, and adds exactly it to the set. */
    method AllocIndex(i: nat) returns (added: bool)
      requires Valid() && i < cap
      modifies ms
      ensures Valid()
      ensures added <==> i !in old(Allocated())
      ensures Allocated() == old(Allocated()) + {i}
    {
      added := MarkUp(i);
    }

    /** Free: reports whether the index was allocated, and removes exactly it from the set. The way
        up stops at the first byte that was not full. */
    method Free(i: nat) returns (freed: bool)
      requires Valid() && i < cap
      modifies ms
      ensures Valid()
      ensures freed <==> i in old(Allocated())
      ensures Allocated() == old(Allocated()) - {i}
    {
      hide Linked, Padded, LevelBit, Bit, Mask, ArrayBit;
      var j: int, x: nat := |ms| - 2, i / 8;
      var before := UnmarkLevel(|ms| - 1, i);
      freed := before != ms[|ms| - 1][x];
      while j >= 0 && before == 0xff
        invariant -1 <= j < |ms| - 1 && x < ms[j + 1].Length
        invariant AllPadded() && LinkedExcept(j, x) && ms[j + 1][x] != 0xff
        invariant j >= 0 && before != 0xff ==> Linked(j, x)
        invariant forall k :: 0 <= k < cap ==> (IsAllocated(k) <==> k != i && old(IsAllocated(k)))
      {
        before := UnmarkLevel(j, x);
        x := x / 8;
        j := j - 1;
      }
    }

    /** AllocAll: every index is allocated. */
    method AllocAll()
      requires Valid()
      modifies ms
      ensures Valid()
      ensures IsFull()
    {
      var j := 0;
      while j < |ms|
        invariant 0 <= j <= |ms|
        invariant forall k, y :: 0 <= k < j && 0 <= y < ms[k].Length ==> ms[k][y] == 0xff
      {
        var m := ms[j];
        var i := 0;
        while i < m.Length
          invariant 0 <= i <= m.Length
          invariant forall k, y :: 0 <= k < j && 0 <= y < ms[k].Length ==> ms[k][y] == 0xff
          invariant forall y :: 0 <= y < i ==> m[y] == 0xff
        {
          m[i] := 0xff;
          i := i + 1;
        }
        j := j + 1;
      }
      forall k, i | 0 <= k < |ms| && 0 <= i < 8 * ms[k].Length
        ensures LevelBit(k, i)
      {
        FullByte(ms[k][i / 8]);
      }
    }

    /** A full root means that every byte of every level is full. */
    lemma {:induction false} FullRoot(j: nat)
      requires Valid() && j < |ms| && ms[0][0] == 0xff
      ensures forall i :: 0 <= i < ms[j].Length ==> ms[j][i] == 0xff
    {
      if j > 0 {
        FullRoot(j - 1);
        forall i | 0 <= i < ms[j].Length
          ensures ms[j][i] == 0xff
        {
          FullByte(ms[j - 1][i / 8]);
          assert LevelBit(j - 1, i);
          assert Linked(j - 1, i);
        }
      }
    }

    ghost predicate FullBefore(j: nat, n: nat)
      requires j < |ms| && n <= ms[j].Length
      reads ms[j]
    {
      forall y :: 0 <= y < n ==> ms[j][y] == 0xff
    }

    /** Going down from a byte that is not full, all bytes before it being full: its lowest clear bit
        is the lowest of the whole level, and leads to the first byte below that is not full. */
    lemma Descend(j: nat, i: nat)
      requires Valid() && j < |ms| && i < ms[j].Length && ms[j][i] != 0xff
      requires FullBefore(j, i)
      ensures var at := 8 * i + ByteFreed(ms[j][i]);
              at < Bits(j) && !LevelBit(j, at) && (forall x :: 0 <= x < at ==> LevelBit(j, x))
              && (j < |ms| - 1 ==> ms[j + 1][at] != 0xff && FullBefore(j + 1, at))
    {
      var k := ByteFreed(ms[j][i]);
      var at := 8 * i + k;
      assert at / 8 == i && at % 8 == k;
      assert at < Bits(j) by { assert Padded(j); assert !LevelBit(j, at); }
      forall x | 0 <= x < at
        ensures LevelBit(j, x)
      {
        FullByte(ms[j][x / 8]);
      }
      if j < |ms| - 1 {
        assert Linked(j, at);
        var below := ms[j + 1];
        forall y | 0 <= y < at
          ensures below[y] == 0xff
        {
          assert Linked(j, y) && LevelBit(j, y);
        }
      }
    }

    /** A full root means that every index is allocated. */
    lemma FullRootIsFull()
      requires Valid() && cap > 0 && ms[0][0] == 0xff
      ensures forall x :: 0 <= x < cap ==> IsAllocated(x)
    {
      FullRoot(|ms| - 1);
      forall x | 0 <= x < cap
        ensures IsAllocated(x)
      {
        FullByte(ms[|ms| - 1][x / 8]);
      }
    }

    ghost predicate IsFull()
      requires Shape()
      reads ms
    {
      forall i :: 0 <= i < cap ==> i in Allocated()
    }

    /** The way down of Alloc: the least free index, or -1 from a full root. */
    method FindFree() returns (r: int)
      requires Valid() && cap > 0
      ensures r == -1 <==> IsFull()
      ensures r != -1 ==> 0 <= r < cap && r !in Allocated() && forall k :: 0 <= k < r ==> k in Allocated()
    {
      var i, j := 0, 0;
      while j < |ms|
        invariant 0 <= j <= |ms| && i >= 0
        invariant j == 0 ==> i == 0
        invariant j < |ms| ==> i < ms[j].Length && FullBefore(j, i)
        invariant 0 < j < |ms| ==> ms[j][i] != 0xff
        invariant j == |ms| ==> i < cap && !IsAllocated(i) && forall k :: 0 <= k < i ==> IsAllocated(k)
      {
        var k := ByteFreed(ms[j][i]);
        if k < 0 {
          FullRootIsFull();
          return -1;
        }
        Descend(j, i);
        i := 8 * i + k;
        j := j + 1;
      }
      assert i !in Allocated();
      return i;
    }

    /** Alloc: takes the least free index; -1 exactly when there is none. With cap 0 there is no level
        to look at, and the answer is 0. */
    method Alloc() returns (r: int)
      requires Valid()
      modifies ms
      ensures Valid()
      ensures cap > 0 ==> (r == -1 <==> old(IsFull()))
      ensures cap > 0 && r != -1 ==>
        0 <= r < cap && r !in old(Allocated()) && (forall k :: 0 <= k < r ==> k in old(Allocated()))
        && Allocated() == old(Allocated()) + {r}
      ensures r == -1 ==> Allocated() == old(Allocated())
      ensures cap == 0 ==> r == 0
    {
      if |ms| == 0 {
        return 0;
      }
      r := FindFree();
      assert r != -1 ==> r !in old(Allocated());
      if r != -1 {
        var added := MarkUp(r);
      }
    }
  }
}
