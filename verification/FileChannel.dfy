/** The writing half of Channel (storage/file/channel.go) and its write buffer as objects: each method
    takes the step of BlockWriter that names it. */
module FileChannels {
  import opened Options
  import opened Bytes
  import opened Sequences
  import opened BlockWriter

  /** A write buffer: a fixed array and how far it is filled. */
  class Buffer {
    const raw: array<byte>
    var cur: nat

    ghost predicate Valid()
      reads this
    {
      cur <= raw.Length
    }

    constructor (size: nat)
      ensures Valid() && fresh(raw) && raw.Length == size && cur == 0
    {
      raw := new byte[size](i => 0);
      cur := 0;
    }

    method Reset()
      modifies this
      ensures Valid() && cur == 0
    {
      cur := 0;
    }

    function Bytes(): seq<byte>
      requires Valid()
      reads this, raw
    {
      raw[..cur]
    }

    function Remain(): nat
      requires Valid()
      reads this
    {
      raw.Length - cur
    }

    /** Copies what fits behind what is there. */
    method Write(p: seq<byte>) returns (n: nat)
      requires Valid()
      modifies this, raw
      ensures Valid() && Bytes() == old(Bytes()) + Fit(p, old(Remain())) && n == |Fit(p, old(Remain()))|
    {
      n := if |p| <= raw.Length - cur then |p| else raw.Length - cur;
      var i := 0;
      while i < n
        invariant 0 <= i <= n && cur == old(cur)
        invariant raw[..cur] == old(raw[..cur])
        invariant raw[cur..cur + i] == p[..i]
      {
        raw[cur + i] := p[i];
        i := i + 1;
      }
      assert raw[..cur + n] == raw[..cur] + raw[cur..cur + n];
      cur := cur + n;
    }
  }

  class FileChannel {
    const config: Config
    var syncReq: Option<Request>
    var syncReqs: seq<Request>
    /** The requests that doSync has taken over. */
    var batch: seq<Request>
    var writeBufferPool: multiset<nat>
    var fileCtx: Option<Context>
    var switchFile: bool
    var files: seq<File>
    var disk: map<nat, seq<byte>>
    /** The indexes handed to the meta manager. */
    var indexes: seq<Index>
    ghost var submitted: seq<Index>
    ghost const base: map<nat, nat>
    ghost const buffers: multiset<nat>

    ghost function Abs(): Channel
      reads this
    {
      Channel(syncReq, syncReqs, batch, writeBufferPool, fileCtx, switchFile, files, disk, indexes, submitted)
    }

    ghost predicate Valid()
      reads this
    {
      Inv(config, Abs(), base, buffers)
    }

    constructor (c: Config, pool: multiset<nat>, records: seq<File>, contents: map<nat, seq<byte>>)
      requires c.fileSize > 0 && FilesOk(c, records, None, contents)
      ensures Valid() && Abs() == Start(pool, records, contents)
      ensures config == c && base == Lengths(contents) && buffers == pool
    {
      config, base, buffers := c, Lengths(contents), pool;
      syncReq, syncReqs, batch, writeBufferPool := None, [], [], pool;
      fileCtx, switchFile, files, disk, indexes, submitted := None, false, records, contents, [], [];
      new;
      StartOk(c, pool, records, contents);
    }

    // ----- the writer's side

    method Sync() returns (ok: bool)
      requires Valid()
      modifies this`syncReq, this`syncReqs
      ensures Valid() && (Abs(), ok) == SyncStep(config, old(Abs()))
    {
      hide Inv;
      StepKeeps(config, Abs(), Event.Sync, base, buffers);
      if syncReq.Some? {
        if |syncReqs| >= config.maxRequests {
          return false;
        }
        syncReqs := syncReqs + [syncReq.value];
        syncReq := None;
      }
      return true;
    }

    /** A request of its own: dropBlock, streamLost and closeFile. */
    method SubmitRequest(request: Request) returns (ok: bool)
      requires Valid() && Sound(config, request) && !request.Block?
      modifies this`syncReq, this`syncReqs, this`submitted
      ensures Valid() && (Abs(), ok) == Submit(config, old(Abs()), request)
    {
      hide FilesOk, LogOk, InOrder, Owned, AllSound, SyncStep, Outstanding;
      SubmitKeeps(config, Abs(), request, buffers);
      ok := Sync();
      if !ok {
        return false;
      }
      SyncMoves(config, old(Abs()));
      NewRequestKeeps(config, Abs(), Abs().(req := Some(request), submitted := submitted + IndexesOf(request)), request, buffers);
      syncReq := Some(request);
      submitted := submitted + IndexesOf(request);
      ok := Sync();
    }

    method DropBlock(size: nat, start: int, end: int) returns (ok: bool)
      requires Valid()
      modifies this`syncReq, this`syncReqs, this`submitted
      ensures Valid() && (Abs(), ok) == DropStep(config, old(Abs()), size, start, end)
    {
      hide Inv, Submit;
      ok := SubmitRequest(IndexOnly(Index(start, end, [], size, BLOCK_DROPPED, 0, 0)));
    }

    method StreamLost(start: int, end: int) returns (ok: bool)
      requires Valid()
      modifies this`syncReq, this`syncReqs, this`submitted
      ensures Valid() && Abs() == Next(config, old(Abs()), Event.StreamLost(start, end))
      ensures ok <==> (old(syncReq).None? && |old(syncReqs)| < config.maxRequests) || |old(syncReqs)| + 1 < config.maxRequests
    {
      hide Inv, Submit;
      SubmitOutcome(config, Abs(), IndexOnly(Index(start, end, [], 0, BLOCK_NOT_DATA_STREAM_LOST, 0, 0)));
      ok := SubmitRequest(IndexOnly(Index(start, end, [], 0, BLOCK_NOT_DATA_STREAM_LOST, 0, 0)));
    }

    method Close() returns (ok: bool)
      requires Valid()
      modifies this`syncReq, this`syncReqs, this`submitted
      ensures Valid() && Abs() == Next(config, old(Abs()), Event.Close)
      ensures ok <==> (old(syncReq).None? && |old(syncReqs)| < config.maxRequests) || |old(syncReqs)| + 1 < config.maxRequests
    {
      hide Inv, Submit;
      SubmitOutcome(config, Abs(), CloseFile);
      ok := SubmitRequest(CloseFile);
    }

    /** Puts a block into the buffer of the current request. */
    method PutData(data: seq<byte>, start: int, end: int, now: bool) returns (ok: bool)
      requires Valid() && syncReq.Some? && syncReq.value.Block? && |syncReq.value.data| <= config.bufferSize
      modifies this`syncReq, this`syncReqs, this`submitted
      ensures Valid() && (Abs(), ok) == PutBlock(config, old(Abs()), old(syncReq.value), data, start, end, now)
    {
      hide FilesOk, LogOk, InOrder, Owned, AllSound, SyncStep, Outstanding, Fit;
      PutMoreKeeps(config, Abs(), data, start, end, false, buffers);
      var block := syncReq.value;
      var put := Fit(data, config.bufferSize - |block.data|);
      var index := Index(start, end, put, |put|, BLOCK_DATA, 0, 0);
      syncReq := Some(Block(block.buffer, block.data + put, block.indexes + [index]));
      submitted := submitted + [index];
      if now {
        ok := Sync();
      } else {
        ok := true;
      }
    }

    /** writeBlock, with the buffer that the pool gives; a number the pool does not have stands for a pool
        that gives none. */
    method WriteBlock(data: seq<byte>, size: nat, start: int, end: int, buffer: nat, now: bool) returns (ok: bool)
      requires Valid()
      modifies this`syncReq, this`syncReqs, this`submitted, this`writeBufferPool
      ensures Valid() && (Abs(), ok) == WriteStep(config, old(Abs()), Write(data, size, start, end, buffer, now))
    {
      hide Inv, SyncStep, Outstanding, PutBlock, DropStep;
      if size > config.bufferSize {
        ok := DropBlock(size, start, end);
        return;
      }
      if syncReq.Some? && syncReq.value.Block? && size <= config.bufferSize - |syncReq.value.data| {
        ok := PutData(data, start, end, now);
        return;
      }
      ok := Sync();
      if !ok {
        return;
      }
      SyncMoves(config, old(Abs()));
      if buffer !in writeBufferPool {
        ok := DropBlock(size, start, end);
        return;
      }
      PutAnywhere(config, Abs().(pool := writeBufferPool - multiset{buffer}), Block(buffer, [], []), data, start, end, now);
      GetBuffer(buffer);
      ok := PutData(data, start, end, now);
    }

    /** Takes an empty buffer out of the pool for a new current request. */
    method GetBuffer(buffer: nat)
      requires Valid() && syncReq.None? && buffer in writeBufferPool
      modifies this`syncReq, this`writeBufferPool
      ensures Valid() && syncReq == Some(Block(buffer, [], []))
      ensures Abs() == old(Abs()).(req := syncReq, pool := old(writeBufferPool) - multiset{buffer})
    {
      hide FilesOk, LogOk, InOrder, Owned, AllSound, Outstanding;
      var block := Block(buffer, [], []);
      NothingBehind(submitted);
      NewRequestKeeps(config, Abs(), Abs().(req := Some(block), pool := writeBufferPool - multiset{buffer}), block, buffers);
      writeBufferPool := writeBufferPool - multiset{buffer};
      syncReq := Some(block);
    }

    // ----- the side of doSync

    method TakeRequests()
      requires Valid() && batch == []
      modifies this`batch, this`syncReqs
      ensures Valid() && Abs() == Next(config, old(Abs()), PopAll)
    {
      hide Inv;
      StepKeeps(config, Abs(), PopAll, base, buffers);
      batch, syncReqs := syncReqs, [];
    }

    /** Opens the file that a block goes to, if none is open. */
    method OpenForWrite(env: Env) returns (seek: Option<nat>, ready: bool)
      modifies this`fileCtx, this`switchFile, this`files, this`disk
      ensures (Abs(), seek, ready) == OpenStep(config, old(Abs()), env)
    {
      hide UpdateFile, Contents;
      seek, ready := None, true;
      if fileCtx.Some? {
        return;
      }
      var file: Option<File> := None;
      if switchFile {
        switchFile := false;
      } else if |files| > 0 {
        var last := files[|files| - 1];
        if last.size < config.fileSize && !env.lastTooLong {
          file, seek := Some(last), Some(last.size);
        } else {
          NextSeqUpdated(files, last.(wrote := true));
          files := UpdateFile(files, last.(wrote := true));
        }
      }
      var add := file.None?;
      if add {
        file := Some(File(NextSeq(files), 0, false));
      }
      if !env.opens {
        return None, false;
      }
      var contents := Contents(disk, file.value.seqNo);
      fileCtx := Some(Context(file.value, 0, |contents|));
      disk := disk[file.value.seqNo := contents];
      if add {
        files := files + [file.value];
      }
    }

    /** Context.Write: seeks if asked to, writes, and moves position and size. */
    method WriteContext(seek: Option<nat>, data: seq<byte>)
      requires fileCtx.Some?
      modifies this`fileCtx, this`disk
      ensures Abs() == WriteFile(old(Abs()), seek, data) && fileCtx.Some?
    {
      hide WriteAt, Contents;
      var ctx := fileCtx.value;
      if seek.Some? {
        ctx := ctx.(offset := seek.value);
        if ctx.offset > ctx.size {
          ctx := ctx.(size := ctx.offset);
        }
      }
      if |data| > 0 {
        disk := disk[ctx.file.seqNo := WriteAt(Contents(disk, ctx.file.seqNo), ctx.offset, data)];
        ctx := ctx.(offset := ctx.offset + |data|);
        if ctx.offset > ctx.size {
          ctx := ctx.(size := ctx.offset);
        }
      }
      fileCtx := Some(ctx);
      assert |data| == 0 <==> data == [];
    }

    /** Hands the indexes of a block to the meta manager, each behind the other in the file. */
    method AddIndexes(placing: seq<Index>, fileSeq: nat, at: nat, through: nat, failed: bool)
      modifies this`indexes
      ensures indexes == old(indexes) + Place(placing, fileSeq, at, through, failed)
    {
      hide Place;
      ghost var all := indexes + Place(placing, fileSeq, at, through, failed);
      var offset: nat, size: nat := at, through;
      var i := 0;
      assert placing[0..] == placing;
      while i < |placing|
        invariant 0 <= i <= |placing|
        invariant indexes + Place(placing[i..], fileSeq, offset, size, failed) == all
      {
        var index := placing[i].(fileSeq := fileSeq, fileOffset := offset);
        if index.size > size {
          index := index.(size := size);
        }
        if failed {
          index := index.(state := BLOCK_IO_ERROR);
        }
        ghost var rest := Place(placing[i + 1..], fileSeq, offset + index.size, size - index.size, failed);
        assert Place(placing[i..], fileSeq, offset, size, failed) == [index] + rest by {
          PlaceFirst(placing[i..], fileSeq, offset, size, failed);
          assert placing[i..][1..] == placing[i + 1..];
        }
        Assoc(indexes, [index], rest);
        offset := offset + index.size;
        size := size - index.size;
        indexes := indexes + [index];
        i := i + 1;
        assert indexes + rest == all;
      }
      assert placing[i..] == [];
      PlaceNone(fileSeq, offset, size, failed);
      NothingBehind(indexes);
    }

    /** Writes a block to the open file, adds its indexes, and switches the file if it is full or has
        lasted long enough. */
    method WriteToOpened(seek: Option<nat>, r: Request, env: Env)
      requires r.Block? && fileCtx.Some?
      modifies this`fileCtx, this`switchFile, this`files, this`disk, this`indexes
      ensures Abs() == WriteOpened(config, old(Abs()), seek, r, env)
    {
      hide WriteFile, Place, UpdateFile, Fit;
      var offset := if seek.Some? then seek.value else fileCtx.value.offset;
      var data := if env.fails then Fit(r.data, env.written) else r.data;
      WriteContext(seek, data);
      var file := fileCtx.value.file.(size := fileCtx.value.size);
      AddIndexes(r.indexes, file.seqNo, offset, |data|, env.fails);
      if file.size >= config.fileSize || env.tooLong {
        fileCtx := None;
        files := UpdateFile(files, file.(wrote := true));
        switchFile := true;
      } else {
        fileCtx := Some(fileCtx.value.(file := file));
      }
    }

    /** One block request: the file is opened if need be, and the buffer goes back. */
    method WriteRequest(r: Request, env: Env)
      requires r.Block?
      modifies this`writeBufferPool, this`fileCtx, this`switchFile, this`files, this`disk, this`indexes
      ensures Abs() == WriteBlockRequest(config, old(Abs()), r, env)
    {
      hide OpenStep, WriteOpened, SetState;
      var seek, ready := OpenForWrite(env);
      writeBufferPool := writeBufferPool + multiset{r.buffer};
      if !ready || fileCtx.None? {
        indexes := indexes + SetState(r.indexes, BLOCK_IO_ERROR);
      } else {
        WriteToOpened(seek, r, env);
      }
    }

    /** The next request that doSync has taken over. */
    method ProcessRequest(env: Env)
      requires Valid() && batch != []
      modifies this`batch, this`writeBufferPool, this`fileCtx, this`switchFile, this`files, this`disk, this`indexes
      ensures Valid() && Abs() == Next(config, old(Abs()), Process(env))
    {
      hide Inv, WriteBlockRequest, UpdateFile;
      StepKeeps(config, Abs(), Process(env), base, buffers);
      var request := batch[0];
      batch := batch[1..];
      match request {
        case Block(_, _, _) => WriteRequest(request, env);
        case IndexOnly(index) => indexes := indexes + [index];
        case CloseFile =>
          if fileCtx.Some? {
            files := UpdateFile(files, fileCtx.value.file);
            fileCtx := None;
          }
      }
    }

    /** doSync: all queued requests in their order, the file system answering as it may. */
    method DoSync(envs: seq<Env>)
      requires Valid() && batch == [] && |envs| >= |syncReqs|
      modifies this`syncReqs, this`batch, this`writeBufferPool, this`fileCtx, this`switchFile, this`files, this`disk, this`indexes
      ensures Valid() && batch == [] && syncReqs == []
      ensures Keys(indexes) == old(Keys(indexes)) + old(Keys(AllIndexes(syncReqs)))
    {
      hide Inv, Keys, AllIndexes, ProcessStep;
      TakeRequests();
      ghost var taken := batch;
      var i := 0;
      assert Keys(indexes) + Keys(AllIndexes(batch)) == old(Keys(indexes)) + old(Keys(AllIndexes(syncReqs)));
      while |batch| > 0
        invariant Valid() && syncReqs == [] && i + |batch| == |taken|
        invariant Keys(indexes) + Keys(AllIndexes(batch)) == old(Keys(indexes)) + old(Keys(AllIndexes(syncReqs)))
        decreases |batch|
      {
        ProcessIndexes(config, Abs(), envs[i]);
        ProcessRequest(envs[i]);
        i := i + 1;
      }
      KeysOfNone();
      NothingBehind(Keys(indexes));
    }
  }

  lemma KeysOfNone()
    ensures Keys(AllIndexes([])) == []
  {
  }

  lemma PutAnywhere(c: Config, s: Channel, block: Request, data: seq<byte>, start: int, end: int, now: bool)
    requires block.Block? && |block.data| <= c.bufferSize
    ensures PutBlock(c, s.(req := Some(block)), block, data, start, end, now) == PutBlock(c, s, block, data, start, end, now)
  {
    hide SyncStep, Fit;
  }

  lemma PlaceNone(f: nat, offset: nat, size: nat, failed: bool)
    ensures Place([], f, offset, size, failed) == []
  {
  }

  lemma PlaceFirst(indexes: seq<Index>, f: nat, offset: nat, size: nat, failed: bool)
    requires indexes != []
    ensures var i := indexes[0]; var sz := if i.size > size then size else i.size;
            Place(indexes, f, offset, size, failed) ==
            [i.(fileSeq := f, fileOffset := offset, size := sz, state := if failed then BLOCK_IO_ERROR else i.state)]
            + Place(indexes[1..], f, offset + sz, size - sz, failed)
  {
  }

  lemma Logged(c: Config, s: Channel, env: Env) returns (placed: seq<Index>)
    requires s.batch != []
    ensures var s1 := ProcessStep(c, s, env);
            && s1.batch == s.batch[1..] && s1.queue == s.queue
            && s1.log == s.log + placed && Keys(placed) == Keys(IndexesOf(s.batch[0]))
  {
    hide UpdateFile, Keys, WriteBlockRequest;
    var r := s.batch[0];
    match r
    case Block(_, _, _) => placed := BlockLogged(c, s.(batch := s.batch[1..]), r, env);
    case IndexOnly(index) => placed := [index];
    case CloseFile =>
      placed := [];
      NothingBehind(s.log);
  }

  lemma BlockLogged(c: Config, s: Channel, r: Request, env: Env) returns (placed: seq<Index>)
    requires r.Block?
    ensures var s1 := WriteBlockRequest(c, s, r, env);
            && s1.batch == s.batch && s1.queue == s.queue
            && s1.log == s.log + placed && Keys(placed) == Keys(r.indexes)
  {
    hide Place, SetState, UpdateFile, Keys, Through, ChooseFile;
    var (s1, seek, ready) := OpenStep(c, s, env);
    if !ready || s1.ctx.None? {
      placed := SetState(r.indexes, BLOCK_IO_ERROR);
      SetStateKeys(r.indexes, BLOCK_IO_ERROR);
    } else {
      var at := if seek.Some? then seek.value else s1.ctx.value.offset;
      placed := Place(r.indexes, s1.ctx.value.file.seqNo, at, |Through(r, env)|, env.fails);
      PlaceKeys(r.indexes, s1.ctx.value.file.seqNo, at, |Through(r, env)|, env.fails);
    }
  }

  /** A request that is processed moves its indexes to the meta manager. */
  lemma ProcessIndexes(c: Config, s: Channel, env: Env)
    requires s.batch != []
    ensures var s1 := ProcessStep(c, s, env);
            && s1.batch == s.batch[1..] && s1.queue == s.queue
            && Keys(s1.log) + Keys(AllIndexes(s1.batch)) == Keys(s.log) + Keys(AllIndexes(s.batch))
  {
    hide ProcessStep, Keys, IndexesOf;
    var placed := Logged(c, s, env);
    var rest := AllIndexes(s.batch[1..]);
    KeysSplit(IndexesOf(s.batch[0]), rest);
    KeysSplit(s.log, placed);
    Assoc(Keys(s.log), Keys(placed), Keys(rest));
  }

  lemma NextSeqUpdated(files: seq<File>, f: File)
    ensures NextSeq(UpdateFile(files, f)) == NextSeq(files)
  {
    UpdateFileAt(files, f);
  }
}
