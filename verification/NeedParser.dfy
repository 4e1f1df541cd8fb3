/** The accumulator of parser/need-parser.go: collects or skips the next n bytes across chunks. */
module NeedParsers {
  import opened Bytes
  import opened Sequences

  class NeedParser {
    var cache: seq<seq<byte>>
    var size: nat
    var need: nat
    var chunks: seq<seq<byte>>

    constructor ()
      ensures cache == [] && size == 0 && need == 0 && chunks == []
    {
      cache, size, need, chunks := [], 0, 0, [];
    }

    /** The bytes collected so far are those counted. */
    ghost predicate Collecting()
      reads this
    {
      size == |Concat(cache)| && size <= need
    }

    ghost predicate Skipping()
      reads this
    {
      cache == [] && size <= need
    }

    method SetNeed(n: nat)
      modifies `need
      ensures need == n
    {
      need := n;
    }

    /** Drops bytes until need of them have been seen. */
    method Skip(data: seq<byte>) returns (remain: seq<byte>, ok: bool)
      requires Skipping()
      modifies this
      ensures need == old(need) && chunks == old(chunks) && cache == []
      ensures ok <==> old(size) + |data| >= need
      ensures ok ==> remain == data[need - old(size)..] && size == 0
      ensures !ok ==> remain == [] && size == old(size) + |data|
    {
      if size + |data| >= need {
        var n := need - size;
        cache, size := [], 0;
        return data[n..], true;
      }
      size := size + |data|;
      return [], false;
    }

    /** Collects bytes until need of them are there; they are then in chunks, in as many pieces as
        they came in. */
    method Parse(data: seq<byte>) returns (remain: seq<byte>, ok: bool)
      requires Collecting()
      modifies this
      ensures need == old(need)
      ensures ok <==> old(size) + |data| >= need
      ensures ok ==> remain == data[need - old(size)..] && cache == [] && size == 0
                     && Concat(chunks) == old(Concat(cache)) + data[..need - old(size)] && |Concat(chunks)| == need
      ensures !ok ==> remain == [] && Collecting() && Concat(cache) == old(Concat(cache)) + data
                      && chunks == old(chunks)
    {
      if size + |data| >= need {
        var n := need - size;
        ConcatSnoc(cache, data[..n]);
        cache := cache + [data[..n]];
        chunks := cache;
        cache, size := [], 0;
        return data[n..], true;
      }
      ConcatSnoc(cache, data);
      cache := cache + [data];
      size := size + |data|;
      return [], false;
    }

    /** The collected bytes in one piece. */
    method Merge() returns (raw: seq<byte>)
      ensures raw == Concat(chunks)
    {
      if |chunks| == 0 {
        raw := [];
      } else if |chunks| == 1 {
        assert chunks == [chunks[0]];
        ConcatOne(chunks[0]);
        raw := chunks[0];
      } else {
        raw := Concat(chunks);
      }
    }

    method Reset()
      modifies this
      ensures cache == [] && size == 0 && chunks == [] && need == old(need)
    {
      cache, size, chunks := [], 0, [];
    }
  }
}
