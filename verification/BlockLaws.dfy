/** Where doSync of storage/file/channel.go puts a block, which file is open behind it, and what an order to close
    leaves, request by request. */
module BlockLaws {
  import opened Options
  import opened Bytes
  import opened Sequences
  import opened BlockWriter

  /** The files with another record for the last one. */
  function WithLast(files: seq<File>, f: File): seq<File> {
    if files == [] then [] else files[..|files| - 1] + [f]
  }

  lemma UpdateLast(c: Config, files: seq<File>, f: File)
    requires Records(c, files) && files != [] && files[|files| - 1].seqNo == f.seqNo
    ensures UpdateFile(files, f) == WithLast(files, f)
  {
    UpdateFileAt(files, f);
    var n := |files| - 1;
    assert forall i :: 0 <= i < n ==> files[i].seqNo < files[n].seqNo;
  }

  // ----- closing

  /** An order to close leaves no file open and the last record with the length of its file; nothing else
      changes, and with no file open nothing at all. */
  lemma CloseCloses(c: Config, s: Channel, env: Env)
    requires FilesOk(c, s.files, s.ctx, s.disk) && s.batch != [] && s.batch[0] == CloseFile
    ensures var s1 := Next(c, s, Process(env));
            && s1 == s.(batch := s.batch[1..], ctx := None, files := s1.files)
            && |s1.files| == |s.files| && (s.ctx.None? ==> s1.files == s.files)
            && (s.files != [] ==>
                  var n := |s.files| - 1;
                  && s1.files[..n] == s.files[..n] && s1.files[n].seqNo == s.files[n].seqNo
                  && s1.files[n].size == |Contents(s.disk, s.files[n].seqNo)|)
  {
    hide UpdateFile, Contents;
    if s.ctx.Some? {
      UpdateLast(c, s.files, s.ctx.value.file);
    }
  }

  /** The next block goes on in that file, behind all of its bytes, unless it is full or too old. */
  lemma BlockAfterClose(c: Config, s: Channel, env: Env, r: Request, env2: Env)
    requires c.fileSize > 0 && FilesOk(c, s.files, s.ctx, s.disk) && s.batch != [] && s.batch[0] == CloseFile
    requires r.Block? && env2.opens && !env2.lastTooLong && s.ctx.Some? && !s.switchFile
    ensures var x := s.ctx.value.file.seqNo; var n := |Contents(s.disk, x)|; var data := Through(r, env2);
            var s1 := Next(c, s, Process(env)); var s2 := WriteBlockRequest(c, s1, r, env2);
            && n < c.fileSize
            && s2.log == s.log + Place(r.indexes, x, n, |data|, env2.fails)
            && Contents(s2.disk, x) == Contents(s.disk, x) + data
  {
    hide UpdateFile, Contents, WriteBlockRequest, Through, Place;
    CloseCloses(c, s, env);
    CloseKeeps(c, s);
    var s1 := Next(c, s, Process(env));
    BlockGoes(c, s1, r, env2);
  }

  // ----- where a block goes

  /** The record a block is written under: that of the open file, of the last one if it may go on, or a new one. */
  function Goes(c: Config, s: Channel, env: Env): File {
    if s.ctx.Some? then s.ctx.value.file
    else if s.files == [] then File(1, 0, false)
    else
      var last := s.files[|s.files| - 1];
      if !s.switchFile && last.size < c.fileSize && !env.lastTooLong then last else File(last.seqNo + 1, 0, false)
  }

  /** The records with the file that a block goes to: a last one that is full or too old is marked as written. */
  function Opened(c: Config, s: Channel, env: Env): seq<File> {
    if s.ctx.Some? then s.files
    else if s.files == [] then [File(1, 0, false)]
    else
      var last := s.files[|s.files| - 1];
      if s.switchFile then s.files + [File(last.seqNo + 1, 0, false)]
      else if last.size < c.fileSize && !env.lastTooLong then s.files
      else WithLast(s.files, last.(wrote := true)) + [File(last.seqNo + 1, 0, false)]
  }

  lemma OpenGoes(c: Config, s: Channel, env: Env)
    requires c.fileSize > 0 && FilesOk(c, s.files, s.ctx, s.disk) && (s.ctx.Some? || env.opens)
    ensures var (s1, seek, ready) := OpenStep(c, s, env);
            && ready && s1.ctx.Some? && s1.ctx.value.file == Goes(c, s, env) && s1.files == Opened(c, s, env)
            && s1.switchFile == (s.ctx.Some? && s.switchFile)
            && (if seek.Some? then seek.value else s1.ctx.value.offset) == |Contents(s.disk, Goes(c, s, env).seqNo)|
            && |Contents(s.disk, Goes(c, s, env).seqNo)| == Goes(c, s, env).size
  {
    hide UpdateFile, Contents;
    OpenOk(c, s, env);
    if s.ctx.None? && s.files != [] {
      UpdateLast(c, s.files, s.files[|s.files| - 1].(wrote := true));
    }
    NewIsEmpty(c, s);
  }

  lemma NewIsEmpty(c: Config, s: Channel)
    requires FilesOk(c, s.files, s.ctx, s.disk)
    ensures Contents(s.disk, if s.files == [] then 1 else s.files[|s.files| - 1].seqNo + 1) == []
  {
  }

  /** A block goes to the end of the open file; with none open, to the end of the last one, or, if that is full or
      too old or was switched, to a new one under the next number. Its indexes are placed there, its bytes stand
      there, and the file stays open exactly if it is neither full nor old enough then. */
  lemma BlockGoes(c: Config, s: Channel, r: Request, env: Env)
    requires c.fileSize > 0 && FilesOk(c, s.files, s.ctx, s.disk) && r.Block? && (s.ctx.Some? || env.opens)
    ensures var file := Goes(c, s, env); var f := file.seqNo; var at := |Contents(s.disk, f)|; var data := Through(r, env);
            var n := at + |data|; var s1 := WriteBlockRequest(c, s, r, env);
            && file.size == at
            && s1.log == s.log + Place(r.indexes, f, at, |data|, env.fails)
            && (forall g: nat :: Contents(s1.disk, g) == Contents(s.disk, g) + if g == f then data else [])
            && (if n >= c.fileSize || env.tooLong
                then s1.ctx.None? && s1.switchFile && s1.files == WithLast(Opened(c, s, env), file.(size := n, wrote := true))
                else s1.ctx == Some(Context(file.(size := n), n, n)) && s1.switchFile == (s.ctx.Some? && s.switchFile)
                     && s1.files == Opened(c, s, env))
            && s1.pool == s.pool + multiset{r.buffer}
  {
    hide UpdateFile, Contents, Through, Place, OpenStep, WriteFile, FilesOk, Records, Opened, Goes;
    var (s1, seek, ready) := OpenStep(c, s, env);
    OpenOk(c, s, env);
    OpenGoes(c, s, env);
    var s2 := s1.(pool := s1.pool + multiset{r.buffer});
    EndSame(c, s1, s2, seek);
    var data := Through(r, env);
    WriteGrows(c, s2, seek, data);
    var s3 := WriteFile(s2, seek, data);
    var file := s3.ctx.value.file.(size := s3.ctx.value.size);
    EndIsLast(c, s2, seek);
    UpdateLast(c, s2.files, file.(wrote := true));
    forall g: nat ensures Contents(s3.disk, g) == Contents(s.disk, g) + if g == file.seqNo then data else [] {
      NothingBehind(Contents(s.disk, g));
    }
  }

  lemma EndSame(c: Config, s: Channel, s1: Channel, seek: Option<nat>)
    requires AtEnd(c, s, seek) && s1 == s.(pool := s1.pool)
    ensures AtEnd(c, s1, seek)
  {
    hide Records, Contents;
  }

  lemma EndIsLast(c: Config, s: Channel, seek: Option<nat>)
    requires AtEnd(c, s, seek)
    ensures Records(c, s.files) && s.files != [] && s.files[|s.files| - 1].seqNo == s.ctx.value.file.seqNo
  {
    hide Records, Contents;
  }

  /** The first block of all goes on behind the bytes of the last file there is, unless that is full or too old. */
  lemma FirstBlock(c: Config, pool: multiset<nat>, files: seq<File>, disk: map<nat, seq<byte>>, r: Request, env: Env)
    requires c.fileSize > 0 && FilesOk(c, files, None, disk) && files != []
    requires r.Block? && env.opens && !env.lastTooLong && files[|files| - 1].size < c.fileSize
    ensures var f := files[|files| - 1].seqNo; var n := |Contents(disk, f)|; var data := Through(r, env);
            var s1 := WriteBlockRequest(c, Start(pool, files, disk), r, env);
            && s1.log == Place(r.indexes, f, n, |data|, env.fails)
            && Contents(s1.disk, f) == Contents(disk, f) + data
  {
    hide UpdateFile, Contents, WriteBlockRequest, Through, Place, FilesOk;
    BlockGoes(c, Start(pool, files, disk), r, env);
  }

  /** With no file open and none to be opened, the block is lost, and its indexes say so, in no file. */
  lemma LostBlock(c: Config, s: Channel, r: Request, env: Env)
    requires r.Block? && s.ctx.None? && !env.opens && Unplaced(r.indexes)
    ensures var s1 := WriteBlockRequest(c, s, r, env);
            && s1.disk == s.disk && s1.ctx.None? && s1.pool == s.pool + multiset{r.buffer}
            && |s1.log| == |s.log| + |r.indexes| && s1.log[..|s.log|] == s.log
            && forall k :: 0 <= k < |r.indexes| ==>
                 s1.log[|s.log| + k] == r.indexes[k].(state := 6) && s1.log[|s.log| + k].fileSeq == 0
  {
    hide UpdateFile;
    SetStateAt(r.indexes, BLOCK_IO_ERROR);
    SetStateUnplaced(r.indexes, BLOCK_IO_ERROR);
  }

  lemma {:induction false} SetStateAt(indexes: seq<Index>, state: nat)
    ensures |SetState(indexes, state)| == |indexes|
    ensures forall k :: 0 <= k < |indexes| ==> SetState(indexes, state)[k] == indexes[k].(state := state)
  {
    if indexes != [] {
      SetStateAt(indexes[1..], state);
    }
  }

  /** Index by index of a block of which size bytes got through: its place is the block's and the bytes before it, and
      its size what of its bytes got through; behind a failure it says so (state 6), and the rest of it is as it was. */
  lemma {:induction false} PlacedAt(indexes: seq<Index>, f: nat, at: nat, size: nat, failed: bool, k: nat)
    requires Unplaced(indexes) && k < |indexes|
    ensures var all := Place(indexes, f, at, size, failed); var i := indexes[k]; var before := |Payloads(indexes[..k])|;
            && |all| == |indexes|
            && all[k] == i.(fileSeq := f, fileOffset := at + (if before < size then before else size),
                            size := if size < before then 0 else if size < before + i.size then size - before else i.size,
                            state := if failed then 6 else i.state)
  {
    hide Place;
    PlaceCons(indexes, f, at, size, failed);
    if k > 0 {
      UnplacedTail(indexes);
      var sz := FirstSize(indexes, size);
      PlacedAt(indexes[1..], f, at + sz, size - sz, failed, k - 1);
      assert indexes[..k][1..] == indexes[1..][..k - 1];
    } else {
      assert indexes[..0] == [];
    }
  }

  // ----- the other steps

  /** An index of its own goes to the meta manager as it is. */
  lemma IndexGoesOn(c: Config, s: Channel, env: Env)
    requires s.batch != [] && s.batch[0].IndexOnly?
    ensures Next(c, s, Process(env)) == s.(batch := s.batch[1..], log := s.log + [s.batch[0].index])
  {
  }

  /** doSync takes over all queued requests at once. */
  lemma TakesAll(c: Config, s: Channel)
    requires s.batch == []
    ensures Next(c, s, PopAll) == s.(batch := s.queue, queue := [])
  {
  }

  /** A block joins the current one exactly if the buffer has room for as many bytes as are announced: its bytes go
      behind those, and its index says where they begin and end in time, how many they are, and that it has data (state 0). */
  lemma GathersIff(c: Config, s: Channel, e: Event)
    requires e.Write? && s.req.Some? && s.req.value.Block? && |s.req.value.data| <= c.bufferSize
    requires e.size <= c.bufferSize && |e.data| <= e.size && !e.now && |s.queue| < c.maxRequests && e.buffer in s.pool
    ensures var r := s.req.value; var i := Index(e.start, e.end, e.data, |e.data|, 0, 0, 0); var s1 := Next(c, s, e);
            && s1.submitted == s.submitted + [i]
            && if |r.data| + e.size <= c.bufferSize
               then s1 == s.(req := Some(Block(r.buffer, r.data + e.data, r.indexes + [i])), submitted := s1.submitted)
               else s1 == s.(req := Some(Block(e.buffer, e.data, [i])), submitted := s1.submitted,
                             queue := s.queue + [r], pool := s.pool - multiset{e.buffer})
  {
    NothingBefore(e.data);
    FitsWhole(e.data);
    assert [] + [Index(e.start, e.end, e.data, |e.data|, 0, 0, 0)] == [Index(e.start, e.end, e.data, |e.data|, 0, 0, 0)];
  }

  /** A block larger than a buffer, or one for which the pool has no buffer, leaves an index of a dropped block behind
      what is gathered (state 4, with the announced size), and nothing of its bytes. */
  lemma DropsBlock(c: Config, s: Channel, e: Event)
    requires e.Write? && (e.size > c.bufferSize || (s.req.None? && e.buffer !in s.pool)) && |s.queue| + 2 <= c.maxRequests
    ensures var i := Index(e.start, e.end, [], e.size, 4, 0, 0);
            Next(c, s, e) == s.(req := None, submitted := s.submitted + [i], queue := s.queue + Current(s) + [IndexOnly(i)])
  {
  }

  /** Sync queues what is gathered, if there is anything and the queue takes it. */
  lemma SyncIs(c: Config, s: Channel)
    ensures Next(c, s, Sync) == if s.req.Some? && |s.queue| < c.maxRequests then s.(req := None, queue := s.queue + [s.req.value])
                                else s
  {
  }

  /** The order to close, and the index of a lost stream (state 18), queue behind what is gathered. */
  lemma OrdersQueue(c: Config, s: Channel, start: int, end: int)
    requires |s.queue| + 2 <= c.maxRequests
    ensures Next(c, s, Close) == s.(req := None, queue := s.queue + Current(s) + [CloseFile])
    ensures var i := Index(start, end, [], 0, 18, 0, 0);
            Next(c, s, StreamLost(start, end))
            == s.(req := None, submitted := s.submitted + [i], queue := s.queue + Current(s) + [IndexOnly(i)])
  {
    NothingBehind(s.submitted);
    NothingBehind(s.queue);
  }

  // ----- the file under a block

  /** Bytes written into a file stand from the offset on; those before and behind stay, and a gap is filled with zeros. */
  lemma WrittenBytes(contents: seq<byte>, at: nat, data: seq<byte>)
    ensures var w := WriteAt(contents, at, data);
            && |w| == (if at + |data| > |contents| then at + |data| else |contents|)
            && forall i :: 0 <= i < |w| ==>
                 w[i] == if at <= i < at + |data| then data[i - at] else if i < |contents| then contents[i] else 0
  {
    ZerosAre(if at > |contents| then at - |contents| else 0);
  }

  lemma {:induction false} ZerosAre(n: nat)
    ensures |Zeros(n)| == n && forall i :: 0 <= i < n ==> Zeros(n)[i] == 0
  {
    if n > 0 {
      ZerosAre(n - 1);
    }
  }

  /** A write moves the position behind its bytes, and the size with it as far as it gets longer. */
  lemma WriteMoves(s: Channel, seek: Option<nat>, data: seq<byte>)
    requires s.ctx.Some?
    ensures var x := s.ctx.value; var at := if seek.Some? then seek.value else x.offset;
            var s1 := WriteFile(s, seek, data); var f := x.file.seqNo; var end := at + |data|;
            && s1.ctx == Some(x.(offset := end, size := if (seek.Some? || data != []) && end > x.size then end else x.size))
            && (data == [] ==> s1.disk == s.disk)
            && (data != [] ==> s1.disk == s.disk[f := WriteAt(Contents(s.disk, f), at, data)])
  {
    hide WriteAt, Contents;
  }
}
