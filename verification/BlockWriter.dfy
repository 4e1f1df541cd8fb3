/** The block writer of storage/file/channel.go as a state machine: blocks gather in a buffer, requests
    queue up, and one task writes them to files that are switched by size or duration. */
module BlockWriter {
  import opened Options
  import opened Bytes
  import opened Sequences

  const BLOCK_DATA: nat := 0
  const BLOCK_NOT_DATA_STREAM_LOST: nat := 18
  const BLOCK_DROPPED: nat := 4
  const BLOCK_IO_ERROR: nat := 6

  /** An index of a block, and the bytes that were put into the buffer for it. */
  datatype Index = Index(start: int, end: int, payload: seq<byte>, size: nat, state: nat, fileSeq: nat, fileOffset: nat)

  /** A buffer with what is in it and its blocks' indexes, an index alone, or the order to close the file. */
  datatype Request =
    | Block(buffer: nat, data: seq<byte>, indexes: seq<Index>)
    | IndexOnly(index: Index)
    | CloseFile

  datatype File = File(seqNo: nat, size: nat, wrote: bool)

  /** An open file: its record as the writer holds it, the position and the size. */
  datatype Context = Context(file: File, offset: nat, size: nat)

  datatype Config = Config(fileSize: nat, bufferSize: nat, maxRequests: nat)

  datatype Channel = Channel(req: Option<Request>, queue: seq<Request>, batch: seq<Request>, pool: multiset<nat>,
                             ctx: Option<Context>, switchFile: bool, files: seq<File>,
                             disk: map<nat, seq<byte>>, log: seq<Index>, submitted: seq<Index>)

  /** How the file system answers: whether a file can be opened, how much of a failing write gets
      through, and whether the last or the written file has lasted long enough. */
  datatype Env = Env(opens: bool, fails: bool, written: nat, lastTooLong: bool, tooLong: bool)

  datatype Event =
    | Write(data: seq<byte>, size: nat, start: int, end: int, buffer: nat, now: bool)
    | StreamLost(start: int, end: int)
    | Sync
    | Close
    | PopAll
    | Process(env: Env)

  // ----- the writer's side

  function SyncStep(c: Config, s: Channel): (Channel, bool) {
    if s.req.None? then (s, true)
    else if |s.queue| >= c.maxRequests then (s, false)
    else (s.(req := None, queue := s.queue + [s.req.value]), true)
  }

  /** A request of its own, behind what is gathered: with a full queue the gathered one stays and the
      other is lost, or the other stays behind to be queued later. */
  function Submit(c: Config, s: Channel, request: Request): (Channel, bool) {
    var (s1, ok) := SyncStep(c, s);
    if !ok then (s1, false)
    else SyncStep(c, s1.(req := Some(request), submitted := s1.submitted + IndexesOf(request)))
  }

  function IndexesOf(r: Request): seq<Index> {
    match r
    case Block(_, _, indexes) => indexes
    case IndexOnly(index) => [index]
    case CloseFile => []
  }

  function DropStep(c: Config, s: Channel, size: nat, start: int, end: int): (Channel, bool) {
    Submit(c, s, IndexOnly(Index(start, end, [], size, BLOCK_DROPPED, 0, 0)))
  }

  /** The bytes that fit. */
  function Fit(data: seq<byte>, room: nat): seq<byte> {
    if |data| <= room then data else data[..room]
  }

  function PutBlock(c: Config, s: Channel, block: Request, data: seq<byte>, start: int, end: int, now: bool): (Channel, bool)
    requires block.Block? && |block.data| <= c.bufferSize
  {
    var put := Fit(data, c.bufferSize - |block.data|);
    var index := Index(start, end, put, |put|, BLOCK_DATA, 0, 0);
    var more := Block(block.buffer, block.data + put, block.indexes + [index]);
    var s1 := s.(req := Some(more), submitted := s.submitted + [index]);
    if now then SyncStep(c, s1) else (s1, true)
  }

  predicate HasRoom(c: Config, req: Option<Request>, size: nat) {
    req.Some? && req.value.Block? && |req.value.data| + size <= c.bufferSize
  }

  /** writeBlock: a block goes into the current buffer, into a new one behind it, or is dropped. */
  function WriteStep(c: Config, s: Channel, e: Event): (Channel, bool)
    requires e.Write?
  {
    if e.size > c.bufferSize then DropStep(c, s, e.size, e.start, e.end)
    else if HasRoom(c, s.req, e.size) then PutBlock(c, s, s.req.value, e.data, e.start, e.end, e.now)
    else
      var (s1, ok) := SyncStep(c, s);
      if !ok then (s1, false)
      else if e.buffer !in s1.pool then DropStep(c, s1, e.size, e.start, e.end)
      else PutBlock(c, s1.(pool := s1.pool - multiset{e.buffer}), Block(e.buffer, [], []), e.data, e.start, e.end, e.now)
  }

  // ----- the side of doSync

  function SetState(indexes: seq<Index>, state: nat): seq<Index> {
    if indexes == [] then [] else [indexes[0].(state := state)] + SetState(indexes[1..], state)
  }

  /** The indexes of a block written at an offset, of which size bytes got through. */
  function Place(indexes: seq<Index>, fileSeq: nat, offset: nat, size: nat, failed: bool): seq<Index> {
    if indexes == [] then []
    else
      var i := indexes[0];
      var sz := if i.size > size then size else i.size;
      [i.(fileSeq := fileSeq, fileOffset := offset, size := sz, state := if failed then BLOCK_IO_ERROR else i.state)]
      + Place(indexes[1..], fileSeq, offset + sz, size - sz, failed)
  }

  function UpdateFile(files: seq<File>, f: File): seq<File> {
    if files == [] then []
    else [if files[0].seqNo == f.seqNo then f else files[0]] + UpdateFile(files[1..], f)
  }

  function NextSeq(files: seq<File>): nat {
    if files == [] then 1 else files[|files| - 1].seqNo + 1
  }

  function Contents(disk: map<nat, seq<byte>>, f: nat): seq<byte> {
    if f in disk then disk[f] else []
  }

  /** Bytes written at an offset; a gap would fill with zeros. */
  function WriteAt(contents: seq<byte>, offset: nat, data: seq<byte>): seq<byte> {
    if offset >= |contents| then contents + Zeros(offset - |contents|) + data
    else if offset + |data| <= |contents| then contents[..offset] + data + contents[offset + |data|..]
    else contents[..offset] + data
  }

  /** Which file a block goes to: the last one if it may go on, at its end, or a new one. */
  datatype Opening = Opening(file: File, add: bool, seek: Option<nat>, files: seq<File>)

  function ChooseFile(c: Config, s: Channel, env: Env): Opening {
    var created := File(NextSeq(s.files), 0, false);
    if s.switchFile || s.files == [] then Opening(created, true, None, s.files)
    else
      var last := s.files[|s.files| - 1];
      if last.size < c.fileSize && !env.lastTooLong then Opening(last, false, Some(last.size), s.files)
      else Opening(created, true, None, UpdateFile(s.files, last.(wrote := true)))
  }

  /** The chosen file opened at its beginning. */
  function OpenChosen(s: Channel, o: Opening): Channel {
    var contents := Contents(s.disk, o.file.seqNo);
    s.(ctx := Some(Context(o.file, 0, |contents|)), disk := s.disk[o.file.seqNo := contents],
       files := if o.add then o.files + [o.file] else o.files)
  }

  /** The file is open, or the block is lost with its indexes marked. */
  function OpenStep(c: Config, s: Channel, env: Env): (Channel, Option<nat>, bool) {
    if s.ctx.Some? then (s, None, true)
    else
      var o := ChooseFile(c, s, env);
      var s1 := s.(switchFile := false, files := o.files);
      if !env.opens then (s1, None, false)
      else (OpenChosen(s1, o), o.seek, true)
  }

  /** Context.Write: seeks if asked to, writes, and moves position and size. */
  function WriteFile(s: Channel, seek: Option<nat>, data: seq<byte>): Channel
    requires s.ctx.Some?
  {
    var ctx := s.ctx.value;
    var at := if seek.Some? then seek.value else ctx.offset;
    var size := if seek.Some? && at > ctx.size then at else ctx.size;
    var offset := at + |data|;
    s.(ctx := Some(ctx.(offset := offset, size := if data != [] && offset > size then offset else size)),
       disk := if data == [] then s.disk
               else s.disk[ctx.file.seqNo := WriteAt(Contents(s.disk, ctx.file.seqNo), at, data)])
  }

  /** The bytes of a request that get through. */
  function Through(r: Request, env: Env): seq<byte>
    requires r.Block?
  {
    if env.fails then Fit(r.data, env.written) else r.data
  }

  /** A block written to the open file. */
  function WriteOpened(c: Config, s: Channel, seek: Option<nat>, r: Request, env: Env): Channel
    requires r.Block? && s.ctx.Some?
  {
    var at := if seek.Some? then seek.value else s.ctx.value.offset;
    var data := Through(r, env);
    var s1 := WriteFile(s, seek, data);
    var file := s1.ctx.value.file.(size := s1.ctx.value.size);
    var s2 := s1.(log := s1.log + Place(r.indexes, file.seqNo, at, |data|, env.fails));
    if file.size >= c.fileSize || env.tooLong then
      s2.(ctx := None, files := UpdateFile(s2.files, file.(wrote := true)), switchFile := true)
    else s2.(ctx := Some(s2.ctx.value.(file := file)))
  }

  function WriteBlockRequest(c: Config, s: Channel, r: Request, env: Env): Channel
    requires r.Block?
  {
    var (s1, seek, ready) := OpenStep(c, s, env);
    var s2 := s1.(pool := s1.pool + multiset{r.buffer});
    if !ready || s2.ctx.None? then s2.(log := s2.log + SetState(r.indexes, BLOCK_IO_ERROR))
    else WriteOpened(c, s2, seek, r, env)
  }

  function ProcessStep(c: Config, s: Channel, env: Env): Channel
    requires s.batch != []
  {
    var s1 := s.(batch := s.batch[1..]);
    match s.batch[0]
    case Block(_, _, _) => WriteBlockRequest(c, s1, s.batch[0], env)
    case IndexOnly(index) => s1.(log := s1.log + [index])
    case CloseFile => if s1.ctx.Some? then s1.(ctx := None, files := UpdateFile(s1.files, s1.ctx.value.file)) else s1
  }

  function Next(c: Config, s: Channel, e: Event): Channel {
    match e
    case Write(_, _, _, _, _, _) => WriteStep(c, s, e).0
    case StreamLost(start, end) => Submit(c, s, IndexOnly(Index(start, end, [], 0, BLOCK_NOT_DATA_STREAM_LOST, 0, 0))).0
    case Sync => SyncStep(c, s).0
    case Close => Submit(c, s, CloseFile).0
    case PopAll => if s.batch == [] then s.(batch := s.queue, queue := []) else s
    case Process(env) => if s.batch == [] then s else ProcessStep(c, s, env)
  }

  function Run(c: Config, s: Channel, events: seq<Event>): Channel
    decreases |events|
  {
    if events == [] then s else Run(c, Next(c, s, events[0]), events[1..])
  }

  // ----- what is conserved: the order of the blocks, and the buffers

  /** What of an index does not change on its way. */
  function Key(i: Index): Index {
    i.(size := 0, state := 0, fileSeq := 0, fileOffset := 0)
  }

  function Keys(indexes: seq<Index>): seq<Index> {
    if indexes == [] then [] else [Key(indexes[0])] + Keys(indexes[1..])
  }

  function AllIndexes(reqs: seq<Request>): seq<Index> {
    if reqs == [] then [] else IndexesOf(reqs[0]) + AllIndexes(reqs[1..])
  }

  function BufferOf(r: Request): multiset<nat> {
    if r.Block? then multiset{r.buffer} else multiset{}
  }

  function Buffers(reqs: seq<Request>): multiset<nat> {
    if reqs == [] then multiset{} else BufferOf(reqs[0]) + Buffers(reqs[1..])
  }

  function Current(s: Channel): seq<Request> {
    if s.req.Some? then [s.req.value] else []
  }

  /** The requests on their way, oldest first. */
  function Outstanding(s: Channel): seq<Request> {
    s.batch + (s.queue + Current(s))
  }

  /** Every accepted block is in exactly one place, and in the order of the calls. */
  ghost predicate InOrder(s: Channel) {
    Keys(s.submitted) == Keys(s.log) + Keys(AllIndexes(Outstanding(s)))
  }

  /** Every buffer is in the pool or with exactly one request. */
  ghost predicate Owned(s: Channel, all: multiset<nat>) {
    s.pool + Buffers(Outstanding(s)) == all
  }

  /** A request as the writer makes it. */
  predicate Sound(c: Config, r: Request) {
    match r
    case Block(_, data, indexes) => |data| <= c.bufferSize && data == Payloads(indexes) && Unplaced(indexes)
    case IndexOnly(index) => index.fileSeq == 0 && index.state != BLOCK_DATA
    case CloseFile => true
  }

  /** An index that says that it has data has all of it, in a file. */
  ghost predicate Whole(log: seq<Index>) {
    forall k :: 0 <= k < |log| ==> log[k].state == BLOCK_DATA ==> log[k].fileSeq != 0 && log[k].size == |log[k].payload|
  }

  function Payloads(indexes: seq<Index>): seq<byte> {
    if indexes == [] then [] else indexes[0].payload + Payloads(indexes[1..])
  }

  predicate Unplaced(indexes: seq<Index>) {
    forall i :: 0 <= i < |indexes| ==> indexes[i].size == |indexes[i].payload| && indexes[i].fileSeq == 0
  }

  ghost predicate AllSound(c: Config, reqs: seq<Request>) {
    forall i :: 0 <= i < |reqs| ==> Sound(c, reqs[i])
  }

  lemma {:induction false} KeysSplit(a: seq<Index>, b: seq<Index>)
    ensures Keys(a + b) == Keys(a) + Keys(b)
  {
    if a == [] {
      NothingBefore(b);
      NothingBefore(Keys(b));
    } else {
      assert (a + b)[0] == a[0] && (a + b)[1..] == a[1..] + b;
      KeysSplit(a[1..], b);
      Assoc([Key(a[0])], Keys(a[1..]), Keys(b));
    }
  }

  lemma {:induction false} AllIndexesSplit(a: seq<Request>, b: seq<Request>)
    ensures AllIndexes(a + b) == AllIndexes(a) + AllIndexes(b)
  {
    if a == [] {
      NothingBefore(b);
      NothingBefore(AllIndexes(b));
    } else {
      assert (a + b)[0] == a[0] && (a + b)[1..] == a[1..] + b;
      AllIndexesSplit(a[1..], b);
      Assoc(IndexesOf(a[0]), AllIndexes(a[1..]), AllIndexes(b));
    }
  }

  lemma {:induction false} BuffersSplit(a: seq<Request>, b: seq<Request>)
    ensures Buffers(a + b) == Buffers(a) + Buffers(b)
  {
    if a == [] {
      NothingBefore(b);
    } else {
      assert (a + b)[0] == a[0] && (a + b)[1..] == a[1..] + b;
      BuffersSplit(a[1..], b);
    }
  }

  lemma AllIndexesOne(r: Request)
    ensures AllIndexes([r]) == IndexesOf(r) && Buffers([r]) == BufferOf(r)
  {
    assert [r][1..] == [];
    NothingBehind(IndexesOf(r));
  }

  /** Moving requests along changes nothing. */
  lemma SameOutstanding(s: Channel, s1: Channel, all: multiset<nat>)
    requires Outstanding(s1) == Outstanding(s) && s1.pool == s.pool && s1.log == s.log && s1.submitted == s.submitted
    ensures InOrder(s1) == InOrder(s) && Owned(s1, all) == Owned(s, all)
  {
  }

  lemma SyncMoves(c: Config, s: Channel)
    ensures var s1 := SyncStep(c, s).0;
            && Outstanding(s1) == Outstanding(s)
            && s1 == s.(req := s1.req, queue := s1.queue)
            && (SyncStep(c, s).1 ==> s1.req.None?)
  {
    if s.req.Some? && |s.queue| < c.maxRequests {
      NothingBehind(s.queue + [s.req.value]);
    }
  }

  /** A new last request brings its indexes and its buffer. */
  lemma AppendRequest(s: Channel, s1: Channel, r: Request, all: multiset<nat>)
    requires InOrder(s) && Owned(s, all)
    requires Outstanding(s1) == Outstanding(s) + [r] && s1.log == s.log
    requires s1.submitted == s.submitted + IndexesOf(r) && s.pool == s1.pool + BufferOf(r)
    ensures InOrder(s1) && Owned(s1, all)
  {
    hide Outstanding;
    var out := Outstanding(s);
    AllIndexesSplit(out, [r]);
    BuffersSplit(out, [r]);
    AllIndexesOne(r);
    KeysSplit(s.submitted, IndexesOf(r));
    KeysSplit(AllIndexes(out), IndexesOf(r));
    Assoc(Keys(s.log), Keys(AllIndexes(out)), Keys(IndexesOf(r)));
  }

  /** One more block in the buffer of the last request. */
  lemma ExtendRequest(s: Channel, s1: Channel, before: seq<Request>, r: Request, r1: Request, index: Index, all: multiset<nat>)
    requires InOrder(s) && Owned(s, all)
    requires Outstanding(s) == before + [r] && Outstanding(s1) == before + [r1] && s1.log == s.log && s1.pool == s.pool
    requires IndexesOf(r1) == IndexesOf(r) + [index] && BufferOf(r1) == BufferOf(r)
    requires s1.submitted == s.submitted + [index]
    ensures InOrder(s1) && Owned(s1, all)
  {
    hide Outstanding, IndexesOf;
    AllIndexesSplit(before, [r]);
    AllIndexesSplit(before, [r1]);
    BuffersSplit(before, [r]);
    BuffersSplit(before, [r1]);
    AllIndexesOne(r);
    AllIndexesOne(r1);
    Assoc(AllIndexes(before), IndexesOf(r), [index]);
    KeysSplit(s.submitted, [index]);
    KeysSplit(AllIndexes(Outstanding(s)), [index]);
    Assoc(Keys(s.log), Keys(AllIndexes(Outstanding(s))), Keys([index]));
  }

  /** The first request is done: its indexes are in the log and its buffer is back. */
  lemma FinishRequest(s: Channel, s1: Channel, r: Request, placed: seq<Index>, all: multiset<nat>)
    requires InOrder(s) && Owned(s, all)
    requires Outstanding(s) == [r] + Outstanding(s1) && s1.log == s.log + placed && s1.submitted == s.submitted
    requires Keys(placed) == Keys(IndexesOf(r)) && s1.pool == s.pool + BufferOf(r)
    ensures InOrder(s1) && Owned(s1, all)
  {
    hide Outstanding;
    var out := Outstanding(s1);
    AllIndexesSplit([r], out);
    BuffersSplit([r], out);
    AllIndexesOne(r);
    KeysSplit(IndexesOf(r), AllIndexes(out));
    KeysSplit(s.log, placed);
    Assoc(Keys(s.log), Keys(placed), Keys(AllIndexes(out)));
  }

  // ----- indexes placed in a file

  /** How many bytes of a file the indexes of a log cover. */
  function Extent(log: seq<Index>, f: nat): nat {
    if log == [] then 0 else (if log[0].fileSeq == f then log[0].size else 0) + Extent(log[1..], f)
  }

  lemma {:induction false} ExtentSplit(a: seq<Index>, b: seq<Index>, f: nat)
    ensures Extent(a + b, f) == Extent(a, f) + Extent(b, f)
  {
    if a == [] {
      NothingBefore(b);
    } else {
      assert (a + b)[0] == a[0] && (a + b)[1..] == a[1..] + b;
      ExtentSplit(a[1..], b, f);
    }
  }

  lemma {:induction false} PlaceKeys(indexes: seq<Index>, f: nat, offset: nat, size: nat, failed: bool)
    ensures Keys(Place(indexes, f, offset, size, failed)) == Keys(indexes)
    ensures |Place(indexes, f, offset, size, failed)| == |indexes|
    decreases indexes
  {
    if indexes != [] {
      var i := indexes[0];
      var sz := if i.size > size then size else i.size;
      PlaceKeys(indexes[1..], f, offset + sz, size - sz, failed);
    }
  }

  lemma {:induction false} SetStateKeys(indexes: seq<Index>, state: nat)
    ensures Keys(SetState(indexes, state)) == Keys(indexes)
  {
    if indexes != [] {
      SetStateKeys(indexes[1..], state);
    }
  }

  lemma PlaceCons(indexes: seq<Index>, f: nat, offset: nat, size: nat, failed: bool)
    requires indexes != []
    ensures var i := indexes[0]; var sz := if i.size > size then size else i.size;
            var placed := Place(indexes, f, offset, size, failed);
            && |placed| == |indexes|
            && placed[0] == i.(fileSeq := f, fileOffset := offset, size := sz, state := if failed then BLOCK_IO_ERROR else i.state)
            && placed[1..] == Place(indexes[1..], f, offset + sz, size - sz, failed)
  {
    PlaceKeys(indexes, f, offset, size, failed);
  }

  lemma ExtentCons(log: seq<Index>, k: nat, f: nat)
    requires 0 < k <= |log|
    ensures Extent(log[..k], f) == (if log[0].fileSeq == f then log[0].size else 0) + Extent(log[1..][..k - 1], f)
  {
    assert log[..k][1..] == log[1..][..k - 1];
  }

  /** Placed indexes follow one another from the offset on. */
  lemma {:induction false} PlaceTiles(indexes: seq<Index>, f: nat, offset: nat, size: nat, failed: bool, k: nat)
    requires k < |indexes|
    ensures var placed := Place(indexes, f, offset, size, failed);
            && |placed| == |indexes| && placed[k].fileSeq == f
            && placed[k].fileOffset == offset + Extent(placed[..k], f)
    decreases indexes
  {
    hide Place, Extent;
    PlaceCons(indexes, f, offset, size, failed);
    var sz := if indexes[0].size > size then size else indexes[0].size;
    var placed := Place(indexes, f, offset, size, failed);
    if k == 0 {
      ExtentNone(f);
      assert placed[..0] == [];
    } else {
      PlaceTiles(indexes[1..], f, offset + sz, size - sz, failed, k - 1);
      ExtentCons(placed, k, f);
      assert placed[k] == placed[1..][k - 1];
    }
  }

  lemma ExtentNone(f: nat)
    ensures Extent([], f) == 0
  {
  }

  /** They cover all the bytes that got through. */
  lemma {:induction false} PlaceCovers(indexes: seq<Index>, f: nat, offset: nat, size: nat, failed: bool)
    requires Unplaced(indexes) && size <= |Payloads(indexes)|
    ensures Extent(Place(indexes, f, offset, size, failed), f) == size
    ensures forall g :: g != f ==> Extent(Place(indexes, f, offset, size, failed), g) == 0
    decreases indexes
  {
    if indexes != [] {
      var i := indexes[0];
      var sz := if i.size > size then size else i.size;
      assert forall j :: 0 <= j < |indexes[1..]| ==> indexes[1..][j] == indexes[j + 1];
      PlaceCovers(indexes[1..], f, offset + sz, size - sz, failed);
      var placed := Place(indexes, f, offset, size, failed);
      assert placed[1..] == Place(indexes[1..], f, offset + sz, size - sz, failed);
    }
  }

  /** A range of bytes. */
  predicate Holds(contents: seq<byte>, offset: nat, size: nat, payload: seq<byte>) {
    offset + size <= |contents| && size <= |payload| && contents[offset..offset + size] == payload[..size]
  }

  lemma HoldsBehind(before: seq<byte>, contents: seq<byte>, offset: nat, size: nat, payload: seq<byte>)
    requires Holds(contents, offset, size, payload)
    ensures Holds(before + contents, |before| + offset, size, payload)
  {
    assert (before + contents)[|before| + offset..|before| + offset + size] == contents[offset..offset + size];
  }

  lemma HoldsGrown(contents: seq<byte>, more: seq<byte>, offset: nat, size: nat, payload: seq<byte>)
    requires Holds(contents, offset, size, payload)
    ensures Holds(contents + more, offset, size, payload)
  {
    assert (contents + more)[offset..offset + size] == contents[offset..offset + size];
  }

  lemma CutFront(a: seq<byte>, b: seq<byte>, size: nat)
    requires size <= |a + b|
    ensures size <= |a| ==> (a + b)[..size] == a[..size] + b[..0]
    ensures size > |a| ==> (a + b)[..size] == a + b[..size - |a|]
  {
  }

  lemma HoldsFront(front: seq<byte>, later: seq<byte>, size: nat, payload: seq<byte>)
    requires size == |front| <= |payload| && front == payload[..size]
    ensures Holds(front + later, 0, size, payload)
  {
  }

  lemma UnplacedTail(indexes: seq<Index>)
    requires Unplaced(indexes) && indexes != []
    ensures Unplaced(indexes[1..]) && indexes[0].size == |indexes[0].payload|
  {
    assert forall j :: 0 <= j < |indexes[1..]| ==> indexes[1..][j] == indexes[j + 1];
  }

  /** The size that the first index is left with. */
  function FirstSize(indexes: seq<Index>, size: nat): nat
    requires indexes != []
  {
    if indexes[0].size > size then size else indexes[0].size
  }

  lemma PayloadsCut(indexes: seq<Index>, size: nat)
    requires Unplaced(indexes) && indexes != [] && size <= |Payloads(indexes)|
    ensures var sz := FirstSize(indexes, size); var later := Payloads(indexes[1..]);
            && sz <= |indexes[0].payload| && sz <= size && size - sz <= |later|
            && Payloads(indexes)[..size] == indexes[0].payload[..sz] + later[..size - sz]
  {
    UnplacedTail(indexes);
    CutFront(indexes[0].payload, Payloads(indexes[1..]), size);
    assert indexes[0].payload[..indexes[0].size] == indexes[0].payload;
  }

  /** Each placed index holds the beginning of what was put into the buffer for it. */
  lemma {:induction false} PlaceReads(indexes: seq<Index>, f: nat, offset: nat, size: nat, failed: bool, k: nat)
    requires Unplaced(indexes) && size <= |Payloads(indexes)| && k < |indexes|
    ensures var placed := Place(indexes, f, offset, size, failed);
            && |placed| == |indexes| && placed[k].fileOffset >= offset && placed[k].payload == indexes[k].payload
            && Holds(Payloads(indexes)[..size], placed[k].fileOffset - offset, placed[k].size, indexes[k].payload)
    decreases indexes
  {
    hide Payloads, Place, Unplaced, Holds;
    var i, rest := indexes[0], indexes[1..];
    var sz := FirstSize(indexes, size);
    UnplacedTail(indexes);
    PlaceCons(indexes, f, offset, size, failed);
    PayloadsCut(indexes, size);
    var front, later := i.payload[..sz], Payloads(rest)[..size - sz];
    if k == 0 {
      HoldsFront(front, later, sz, i.payload);
    } else {
      PlaceReads(rest, f, offset + sz, size - sz, failed, k - 1);
      var p := Place(rest, f, offset + sz, size - sz, failed)[k - 1];
      assert Place(indexes, f, offset, size, failed)[k] == p;
      HoldsBehind(front, later, p.fileOffset - (offset + sz), p.size, p.payload);
    }
  }

  // ----- the log and the bytes on disk

  function Base(base: map<nat, nat>, f: nat): nat {
    if f in base then base[f] else 0
  }

  /** Indexes tile each file from where it began to its end, in the order they were added, and each range
      holds the beginning of what was put into the buffer for it. */
  ghost predicate LogOk(base: map<nat, nat>, log: seq<Index>, disk: map<nat, seq<byte>>) {
    && (forall f: nat {:trigger Contents(disk, f)} :: f != 0 ==> |Contents(disk, f)| == Base(base, f) + Extent(log, f))
    && (forall k :: 0 <= k < |log| ==> Lies(base, log, disk, k))
  }

  ghost predicate Lies(base: map<nat, nat>, log: seq<Index>, disk: map<nat, seq<byte>>, k: nat)
    requires k < |log|
  {
    var i := log[k];
    i.fileSeq != 0 ==>
      && i.fileOffset == Base(base, i.fileSeq) + Extent(log[..k], i.fileSeq)
      && Holds(Contents(disk, i.fileSeq), i.fileOffset, i.size, i.payload)
  }

  /** An index that lies keeps lying where it does while the log and the file grow. */
  lemma LiesStill(base: map<nat, nat>, log: seq<Index>, disk: map<nat, seq<byte>>, later: seq<Index>, disk2: map<nat, seq<byte>>, k: nat)
    requires k < |log| && Lies(base, log, disk, k)
    requires Contents(disk, log[k].fileSeq) <= Contents(disk2, log[k].fileSeq)
    ensures Lies(base, log + later, disk2, k)
  {
    var i := log[k];
    assert (log + later)[..k] == log[..k];
    if i.fileSeq != 0 {
      var a, b := Contents(disk, i.fileSeq), Contents(disk2, i.fileSeq);
      assert b == a + b[|a|..];
      HoldsGrown(a, b[|a|..], i.fileOffset, i.size, i.payload);
    }
  }

  /** The indexes of a block written behind the end of a file lie there. */
  lemma PlacedLies(base: map<nat, nat>, log: seq<Index>, indexes: seq<Index>, f: nat, before: seq<byte>, n: nat, failed: bool,
                   disk2: map<nat, seq<byte>>, k: nat)
    requires f != 0 && Unplaced(indexes) && n <= |Payloads(indexes)| && k < |indexes|
    requires |before| == Base(base, f) + Extent(log, f) && Contents(disk2, f) == before + Payloads(indexes)[..n]
    ensures var placed := Place(indexes, f, |before|, n, failed);
            |placed| == |indexes| && Lies(base, log + placed, disk2, |log| + k)
  {
    hide Place, Extent, Unplaced, Payloads, Holds, Contents;
    var placed := Place(indexes, f, |before|, n, failed);
    PlaceTiles(indexes, f, |before|, n, failed, k);
    PlaceReads(indexes, f, |before|, n, failed, k);
    ExtentSplit(log, placed[..k], f);
    assert (log + placed)[..|log| + k] == log + placed[..k];
    HoldsBehind(before, Payloads(indexes)[..n], placed[k].fileOffset - |before|, placed[k].size, placed[k].payload);
  }

  lemma LogGrows(base: map<nat, nat>, log: seq<Index>, disk: map<nat, seq<byte>>, indexes: seq<Index>, f: nat, n: nat, failed: bool,
                 disk2: map<nat, seq<byte>>)
    requires LogOk(base, log, disk) && f != 0 && Unplaced(indexes) && n <= |Payloads(indexes)|
    requires forall g: nat :: Contents(disk2, g) == if g == f then Contents(disk, f) + Payloads(indexes)[..n] else Contents(disk, g)
    ensures LogOk(base, log + Place(indexes, f, |Contents(disk, f)|, n, failed), disk2)
  {
    hide Place, Extent, Unplaced, Payloads, Holds, Contents, Lies;
    var before := Contents(disk, f);
    var placed := Place(indexes, f, |before|, n, failed);
    PlaceKeys(indexes, f, |before|, n, failed);
    PlaceCovers(indexes, f, |before|, n, failed);
    forall g: nat | g != 0 ensures |Contents(disk2, g)| == Base(base, g) + Extent(log + placed, g) {
      ExtentSplit(log, placed, g);
      assert |Contents(disk, g)| == Base(base, g) + Extent(log, g);
    }
    forall k | 0 <= k < |log + placed| ensures Lies(base, log + placed, disk2, k) {
      if k < |log| {
        LiesStill(base, log, disk, placed, disk2, k);
      } else {
        PlacedLies(base, log, indexes, f, before, n, failed, disk2, k - |log|);
      }
    }
  }

  /** The indexes of a block that got through in full stay whole; of another none claims to have data. */
  lemma {:induction false} PlaceWhole(indexes: seq<Index>, f: nat, offset: nat, size: nat, failed: bool)
    requires f != 0 && Unplaced(indexes) && (!failed ==> size == |Payloads(indexes)|)
    ensures Whole(Place(indexes, f, offset, size, failed))
    decreases indexes
  {
    if indexes != [] {
      hide Whole;
      UnplacedTail(indexes);
      var i := indexes[0];
      var sz := if i.size > size then size else i.size;
      PlaceWhole(indexes[1..], f, offset + sz, size - sz, failed);
      WholeOne(i.(fileSeq := f, fileOffset := offset, size := sz, state := if failed then BLOCK_IO_ERROR else i.state));
      WholeSplit([i.(fileSeq := f, fileOffset := offset, size := sz, state := if failed then BLOCK_IO_ERROR else i.state)],
                 Place(indexes[1..], f, offset + sz, size - sz, failed));
    } else {
      WholeNone();
    }
  }

  lemma WholeNone()
    ensures Whole([])
  {
  }

  lemma WholeOne(i: Index)
    requires i.state == BLOCK_DATA ==> i.fileSeq != 0 && i.size == |i.payload|
    ensures Whole([i])
  {
  }

  lemma WholeSplit(a: seq<Index>, b: seq<Index>)
    requires Whole(a) && Whole(b)
    ensures Whole(a + b)
  {
  }

  lemma {:induction false} SetStateWhole(indexes: seq<Index>, state: nat)
    requires state != BLOCK_DATA
    ensures Whole(SetState(indexes, state))
  {
    if indexes != [] {
      SetStateWhole(indexes[1..], state);
    }
  }

  lemma {:induction false} ExtentOfNone(indexes: seq<Index>, f: nat)
    requires f != 0 && forall k :: 0 <= k < |indexes| ==> indexes[k].fileSeq == 0
    ensures Extent(indexes, f) == 0
  {
    if indexes != [] {
      assert forall k :: 0 <= k < |indexes[1..]| ==> indexes[1..][k] == indexes[k + 1];
      ExtentOfNone(indexes[1..], f);
    }
  }

  /** Indexes that point to no file, and files opened empty, leave the rest as it is. */
  lemma LogIgnores(base: map<nat, nat>, log: seq<Index>, disk: map<nat, seq<byte>>, more: seq<Index>, disk2: map<nat, seq<byte>>)
    requires LogOk(base, log, disk) && forall k :: 0 <= k < |more| ==> more[k].fileSeq == 0
    requires forall g: nat :: Contents(disk2, g) == Contents(disk, g)
    ensures LogOk(base, log + more, disk2)
  {
    hide Extent, Holds, Contents, Lies;
    forall g: nat | g != 0 ensures |Contents(disk2, g)| == Base(base, g) + Extent(log + more, g) {
      ExtentSplit(log, more, g);
      ExtentOfNone(more, g);
      assert |Contents(disk, g)| == Base(base, g) + Extent(log, g);
    }
    forall k | 0 <= k < |log + more| ensures Lies(base, log + more, disk2, k) {
      if k < |log| {
        LiesStill(base, log, disk, more, disk2, k);
      } else {
        LiesNowhere(base, log, more, disk2, k - |log|);
      }
    }
  }

  lemma LiesNowhere(base: map<nat, nat>, log: seq<Index>, more: seq<Index>, disk: map<nat, seq<byte>>, k: nat)
    requires k < |more| && more[k].fileSeq == 0
    ensures Lies(base, log + more, disk, |log| + k)
  {
  }

  // ----- the files

  function LastSeq(files: seq<File>): nat {
    if files == [] then 0 else files[|files| - 1].seqNo
  }

  /** Records with rising numbers and bounded sizes. */
  ghost predicate Records(c: Config, files: seq<File>) {
    && (forall i, j :: 0 <= i < j < |files| ==> files[i].seqNo < files[j].seqNo)
    && (forall i :: 0 <= i < |files| ==> files[i].seqNo > 0 && files[i].size < c.fileSize + c.bufferSize)
  }

  /** The open file is the last one, positioned at its end and not full yet; with none open, the last
      record says how long the last file is. */
  ghost predicate FilesOk(c: Config, files: seq<File>, ctx: Option<Context>, disk: map<nat, seq<byte>>) {
    && Records(c, files)
    && (forall f :: f in disk ==> f <= LastSeq(files))
    && match ctx
       case Some(x) =>
         && files != [] && x.file.seqNo == LastSeq(files)
         && x.offset == x.size == x.file.size == |Contents(disk, x.file.seqNo)|
         && x.size < c.fileSize
       case None =>
         files != [] ==> files[|files| - 1].size == |Contents(disk, LastSeq(files))|
  }

  lemma {:induction false} UpdateFileAt(files: seq<File>, f: File)
    ensures |UpdateFile(files, f)| == |files|
    ensures forall i :: 0 <= i < |files| ==> UpdateFile(files, f)[i] == if files[i].seqNo == f.seqNo then f else files[i]
  {
    if files != [] {
      UpdateFileAt(files[1..], f);
      assert forall i :: 1 <= i < |files| ==> files[i] == files[1..][i - 1];
    }
  }

  lemma UpdateRecords(c: Config, files: seq<File>, f: File)
    requires Records(c, files) && f.size < c.fileSize + c.bufferSize
    ensures Records(c, UpdateFile(files, f)) && LastSeq(UpdateFile(files, f)) == LastSeq(files)
    ensures |UpdateFile(files, f)| == |files|
    ensures files != [] && LastSeq(files) == f.seqNo ==> UpdateFile(files, f)[|files| - 1] == f
  {
    UpdateFileAt(files, f);
  }

  lemma AddRecord(c: Config, files: seq<File>)
    requires Records(c, files) && c.fileSize > 0
    ensures Records(c, files + [File(NextSeq(files), 0, false)]) && NextSeq(files) == LastSeq(files) + 1
    ensures LastSeq(files + [File(NextSeq(files), 0, false)]) == NextSeq(files)
  {
  }

  /** What a block finds open: the end of a file that is not full, be it kept open, reopened or new. */
  lemma OpenOk(c: Config, s: Channel, env: Env)
    requires c.fileSize > 0 && FilesOk(c, s.files, s.ctx, s.disk)
    ensures var (s1, seek, ready) := OpenStep(c, s, env);
            && s1 == s.(switchFile := s1.switchFile, files := s1.files, ctx := s1.ctx, disk := s1.disk)
            && (forall g: nat :: Contents(s1.disk, g) == Contents(s.disk, g))
            && (!ready ==> FilesOk(c, s1.files, s1.ctx, s1.disk) && s1.ctx.None?)
            && (ready ==> AtEnd(c, s1, seek))
  {
    if s.ctx.Some? {
      KeptOpen(c, s);
    } else {
      hide FilesOk, ChooseFile, OpenChosen, AtEnd, Contents;
      ChooseOk(c, s, env);
      var o := ChooseFile(c, s, env);
      var s1 := s.(switchFile := false, files := o.files);
      if env.opens {
        ChosenAtEnd(c, s1, o);
      }
    }
  }

  lemma KeptOpen(c: Config, s: Channel)
    requires FilesOk(c, s.files, s.ctx, s.disk) && s.ctx.Some?
    ensures AtEnd(c, s, None)
  {
    hide Contents;
  }

  predicate Chosen(c: Config, o: Opening, disk: map<nat, seq<byte>>) {
    && (o.add ==> o.file == File(NextSeq(o.files), 0, false) && o.seek == None && o.file.seqNo !in disk)
    && (!o.add ==> o.files != [] && o.file == o.files[|o.files| - 1]
                   && o.file.size < c.fileSize && o.seek == Some(o.file.size))
  }

  lemma ChosenAtEnd(c: Config, s: Channel, o: Opening)
    requires c.fileSize > 0 && FilesOk(c, s.files, None, s.disk) && o.files == s.files && Chosen(c, o, s.disk)
    ensures var s1 := OpenChosen(s, o);
            && s1 == s.(files := s1.files, ctx := s1.ctx, disk := s1.disk)
            && (forall g: nat :: Contents(s1.disk, g) == Contents(s.disk, g))
            && AtEnd(c, s1, o.seek)
  {
    hide Records;
    if o.add {
      AddRecord(c, o.files);
    } else {
      RecordsLast(c, s.files);
    }
  }

  lemma RecordsLast(c: Config, files: seq<File>)
    requires Records(c, files) && files != []
    ensures LastSeq(files) > 0
  {
  }

  ghost predicate AtEnd(c: Config, s: Channel, seek: Option<nat>) {
    && s.ctx.Some? && Records(c, s.files) && s.files != []
    && var x := s.ctx.value;
       && x.file.seqNo == LastSeq(s.files) > 0
       && (forall f :: f in s.disk ==> f <= LastSeq(s.files))
       && x.size == |Contents(s.disk, x.file.seqNo)| < c.fileSize
       && x.size == if seek.Some? then seek.value else x.offset
  }

  /** The file chosen is the last one, as long as its record says, or a new one. */
  lemma ChooseOk(c: Config, s: Channel, env: Env)
    requires c.fileSize > 0 && FilesOk(c, s.files, s.ctx, s.disk) && s.ctx.None?
    ensures var o := ChooseFile(c, s, env);
            FilesOk(c, o.files, None, s.disk) && Chosen(c, o, s.disk)
  {
    if !s.switchFile && s.files != [] {
      var last := s.files[|s.files| - 1];
      UpdateRecords(c, s.files, last.(wrote := true));
      assert NextSeq(UpdateFile(s.files, last.(wrote := true))) == NextSeq(s.files);
    }
  }

  lemma WriteBehind(contents: seq<byte>, data: seq<byte>)
    ensures WriteAt(contents, |contents|, data) == contents + data
  {
    NothingBehind(contents);
  }

  /** A write at the end of a file makes it longer by the bytes that get through. */
  lemma WriteGrows(c: Config, s: Channel, seek: Option<nat>, data: seq<byte>)
    requires AtEnd(c, s, seek)
    ensures var f := s.ctx.value.file.seqNo; var s1 := WriteFile(s, seek, data);
            && s1 == s.(ctx := s1.ctx, disk := s1.disk)
            && (forall g: nat :: Contents(s1.disk, g) == if g == f then Contents(s.disk, f) + data else Contents(s.disk, g))
            && (forall g :: g in s1.disk ==> g <= LastSeq(s.files))
            && s1.ctx.Some? && s1.ctx.value.file == s.ctx.value.file
            && s1.ctx.value.offset == s1.ctx.value.size == |Contents(s1.disk, f)| == |Contents(s.disk, f)| + |data|
  {
    var f := s.ctx.value.file.seqNo;
    WriteBehind(Contents(s.disk, f), data);
    NothingBehind(Contents(s.disk, f));
    hide WriteAt;
  }

  /** What a block request leaves. */
  lemma WrittenFiles(c: Config, s: Channel, file: File, tooLong: bool)
    requires Records(c, s.files) && s.files != [] && file.seqNo == LastSeq(s.files)
    requires forall f :: f in s.disk ==> f <= LastSeq(s.files)
    requires s.ctx.Some? && s.ctx.value.offset == s.ctx.value.size == file.size == |Contents(s.disk, file.seqNo)|
    requires file.size < c.fileSize + c.bufferSize
    ensures file.size >= c.fileSize || tooLong ==> FilesOk(c, UpdateFile(s.files, file.(wrote := true)), None, s.disk)
    ensures file.size < c.fileSize && !tooLong ==> FilesOk(c, s.files, Some(s.ctx.value.(file := file)), s.disk)
  {
    UpdateRecords(c, s.files, file.(wrote := true));
    hide UpdateFile, Records, Contents;
  }

  lemma FitFits(data: seq<byte>, room: nat)
    ensures |Fit(data, room)| <= |data| && |Fit(data, room)| <= room && Fit(data, room) == data[..|Fit(data, room)|]
    ensures |data| <= room ==> Fit(data, room) == data
  {
  }

  lemma ThroughIsPrefix(r: Request, env: Env)
    requires r.Block? && r.data == Payloads(r.indexes)
    ensures var n := |Through(r, env)|; n <= |Payloads(r.indexes)| && Through(r, env) == Payloads(r.indexes)[..n]
  {
    FitFits(r.data, env.written);
    assert r.data == r.data[..|r.data|];
  }

  lemma {:induction false} SetStateUnplaced(indexes: seq<Index>, state: nat)
    requires Unplaced(indexes)
    ensures |SetState(indexes, state)| == |indexes|
    ensures forall k :: 0 <= k < |indexes| ==> SetState(indexes, state)[k].fileSeq == 0
  {
    if indexes != [] {
      UnplacedTail(indexes);
      SetStateUnplaced(indexes[1..], state);
      assert SetState(indexes, state)[0].fileSeq == 0;
    }
  }

  /** A block request, written or lost, keeps the files, the log and the bytes in step. */
  lemma BlockKeeps(c: Config, s: Channel, r: Request, env: Env, base: map<nat, nat>)
    requires c.fileSize > 0 && r.Block? && Sound(c, r)
    requires FilesOk(c, s.files, s.ctx, s.disk) && LogOk(base, s.log, s.disk)
    ensures var s1 := WriteBlockRequest(c, s, r, env);
            && FilesOk(c, s1.files, s1.ctx, s1.disk) && LogOk(base, s1.log, s1.disk)
            && s1.pool == s.pool + multiset{r.buffer}
            && s1.req == s.req && s1.queue == s.queue && s1.batch == s.batch && s1.submitted == s.submitted
            && exists placed :: s1.log == s.log + placed && Keys(placed) == Keys(r.indexes) && Whole(placed)
  {
    var (s1, seek, ready) := OpenStep(c, s, env);
    OpenOk(c, s, env);
    if ready {
      ReadyKeeps(c, s, r, env, base);
    } else {
      hide OpenStep, FilesOk, LogOk, SetState, Keys, Contents, Unplaced, Whole;
      SetStateWhole(r.indexes, BLOCK_IO_ERROR);
      SetStateKeys(r.indexes, BLOCK_IO_ERROR);
      SetStateUnplaced(r.indexes, BLOCK_IO_ERROR);
      LogIgnores(base, s.log, s.disk, SetState(r.indexes, BLOCK_IO_ERROR), s1.disk);
    }
  }

  lemma ReadyKeeps(c: Config, s: Channel, r: Request, env: Env, base: map<nat, nat>)
    requires c.fileSize > 0 && r.Block? && Sound(c, r) && OpenStep(c, s, env).2
    requires FilesOk(c, s.files, s.ctx, s.disk) && LogOk(base, s.log, s.disk)
    ensures var s1 := WriteBlockRequest(c, s, r, env);
            && FilesOk(c, s1.files, s1.ctx, s1.disk) && LogOk(base, s1.log, s1.disk)
            && s1.pool == s.pool + multiset{r.buffer}
            && s1.req == s.req && s1.queue == s.queue && s1.batch == s.batch && s1.submitted == s.submitted
            && exists placed :: s1.log == s.log + placed && Keys(placed) == Keys(r.indexes) && Whole(placed)
  {
    hide OpenStep, FilesOk, LogOk, Place, Keys, Contents, Unplaced, WriteFile, UpdateFile, Records, Fit, Whole;
    var (s1, seek, ready) := OpenStep(c, s, env);
    OpenOk(c, s, env);
    var s2 := s1.(pool := s1.pool + multiset{r.buffer});
    var data := Through(r, env);
    var f := s2.ctx.value.file.seqNo;
    ThroughIsPrefix(r, env);
    WriteGrows(c, s2, seek, data);
    var s3 := WriteFile(s2, seek, data);
    PlaceKeys(r.indexes, f, |Contents(s2.disk, f)|, |data|, env.fails);
    PlaceWhole(r.indexes, f, |Contents(s2.disk, f)|, |data|, env.fails);
    SameContents(base, s.log, s.disk, s2.disk);
    LogGrows(base, s.log, s2.disk, r.indexes, f, |data|, env.fails, s3.disk);
    WrittenFiles(c, s3, s3.ctx.value.file.(size := s3.ctx.value.size), env.tooLong);
  }

  lemma SameContents(base: map<nat, nat>, log: seq<Index>, disk: map<nat, seq<byte>>, disk2: map<nat, seq<byte>>)
    requires LogOk(base, log, disk) && forall g: nat :: Contents(disk2, g) == Contents(disk, g)
    ensures LogOk(base, log, disk2)
  {
    LogIgnores(base, log, disk, [], disk2);
    NothingBehind(log);
  }

  // ----- the invariant of every run

  ghost predicate Inv(c: Config, s: Channel, base: map<nat, nat>, all: multiset<nat>) {
    && c.fileSize > 0
    && InOrder(s) && Owned(s, all) && AllSound(c, Outstanding(s))
    && FilesOk(c, s.files, s.ctx, s.disk) && LogOk(base, s.log, s.disk) && Whole(s.log)
  }

  lemma ProcessKeeps(c: Config, s: Channel, env: Env, base: map<nat, nat>, all: multiset<nat>)
    requires Inv(c, s, base, all) && s.batch != []
    ensures Inv(c, ProcessStep(c, s, env), base, all)
  {
    var r := s.batch[0];
    var s1 := s.(batch := s.batch[1..]);
    var s2 := ProcessStep(c, s, env);
    assert Outstanding(s) == [r] + Outstanding(s1) by {
      assert s.batch == [r] + s.batch[1..];
      Assoc([r], s.batch[1..], s.queue + Current(s));
    }
    assert Outstanding(s)[0] == r;
    AllSoundTail(c, r, Outstanding(s1));
    hide FilesOk, LogOk, InOrder, Owned, AllSound, UpdateFile, Keys, WriteBlockRequest, Payloads, Unplaced, Whole;
    match r
    case Block(_, _, _) =>
      BlockKeeps(c, s1, r, env, base);
      var placed :| s2.log == s.log + placed && Keys(placed) == Keys(r.indexes) && Whole(placed);
      WholeSplit(s.log, placed);
      assert Outstanding(s2) == Outstanding(s1);
      FinishRequest(s, s2, r, placed, all);
    case IndexOnly(index) =>
      LogIgnores(base, s.log, s.disk, [index], s.disk);
      WholeOne(index);
      WholeSplit(s.log, [index]);
      assert Outstanding(s2) == Outstanding(s1);
      FinishRequest(s, s2, r, [index], all);
    case CloseFile =>
      NothingBehind(s.log);
      assert Outstanding(s2) == Outstanding(s1);
      FinishRequest(s, s2, r, [], all);
      if s.ctx.Some? {
        CloseKeeps(c, s);
      }
  }

  lemma AllSoundTail(c: Config, r: Request, rest: seq<Request>)
    requires AllSound(c, [r] + rest)
    ensures Sound(c, r) && AllSound(c, rest)
  {
    assert ([r] + rest)[0] == r;
    assert forall i :: 0 <= i < |rest| ==> rest[i] == ([r] + rest)[i + 1];
  }

  lemma CloseKeeps(c: Config, s: Channel)
    requires FilesOk(c, s.files, s.ctx, s.disk) && s.ctx.Some?
    ensures FilesOk(c, UpdateFile(s.files, s.ctx.value.file), None, s.disk)
  {
    UpdateRecords(c, s.files, s.ctx.value.file);
    hide UpdateFile, Contents;
  }

  /** What the writer's side leaves to doSync. */
  predicate SameFiles(s: Channel, s1: Channel) {
    s1.files == s.files && s1.ctx == s.ctx && s1.disk == s.disk && s1.log == s.log
  }

  /** What the writer's side keeps. */
  ghost predicate WriterOk(c: Config, s: Channel, all: multiset<nat>) {
    InOrder(s) && Owned(s, all) && AllSound(c, Outstanding(s))
  }

  lemma SyncKeeps(c: Config, s: Channel, all: multiset<nat>)
    requires WriterOk(c, s, all)
    ensures WriterOk(c, SyncStep(c, s).0, all) && SameFiles(s, SyncStep(c, s).0)
  {
    hide InOrder, Owned, AllSound, SyncStep, Outstanding;
    SyncMoves(c, s);
    SameOutstanding(s, SyncStep(c, s).0, all);
  }

  lemma CurrentLast(s: Channel, s1: Channel, r: Request)
    requires s.req.None? && s1 == s.(req := Some(r), pool := s1.pool, submitted := s1.submitted)
    ensures Outstanding(s1) == Outstanding(s) + [r]
  {
    NothingBehind(s.queue);
    Assoc(s.batch, s.queue, [r]);
  }

  /** A new current request. */
  lemma NewRequestKeeps(c: Config, s: Channel, s1: Channel, r: Request, all: multiset<nat>)
    requires WriterOk(c, s, all) && s.req.None? && Sound(c, r)
    requires s1 == s.(req := Some(r), pool := s1.pool, submitted := s.submitted + IndexesOf(r))
    requires s.pool == s1.pool + BufferOf(r)
    ensures WriterOk(c, s1, all)
  {
    hide InOrder, Owned, Outstanding, Sound;
    CurrentLast(s, s1, r);
    AppendRequest(s, s1, r, all);
  }

  lemma SubmitKeeps(c: Config, s: Channel, r: Request, all: multiset<nat>)
    requires WriterOk(c, s, all) && Sound(c, r) && !r.Block?
    ensures WriterOk(c, Submit(c, s, r).0, all) && SameFiles(s, Submit(c, s, r).0)
  {
    hide WriterOk, SyncStep, Sound;
    SyncKeeps(c, s, all);
    SyncMoves(c, s);
    var (s1, ok) := SyncStep(c, s);
    if ok {
      var s2 := s1.(req := Some(r), submitted := s1.submitted + IndexesOf(r));
      NewRequestKeeps(c, s1, s2, r, all);
      SyncKeeps(c, s2, all);
    }
  }

  /** A block put into a buffer, with its index. */
  function Extended(block: Request, put: seq<byte>, start: int, end: int): Request
    requires block.Block?
  {
    Block(block.buffer, block.data + put, block.indexes + [Index(start, end, put, |put|, BLOCK_DATA, 0, 0)])
  }

  lemma {:induction false} PayloadsSnoc(indexes: seq<Index>, index: Index)
    ensures Payloads(indexes + [index]) == Payloads(indexes) + index.payload
  {
    if indexes == [] {
      NothingBefore([index]);
      NothingBehind(index.payload);
      NothingBefore(index.payload);
    } else {
      assert (indexes + [index])[0] == indexes[0] && (indexes + [index])[1..] == indexes[1..] + [index];
      PayloadsSnoc(indexes[1..], index);
      Assoc(indexes[0].payload, Payloads(indexes[1..]), index.payload);
    }
  }

  lemma ExtendedSound(c: Config, block: Request, put: seq<byte>, start: int, end: int)
    requires block.Block? && Sound(c, block) && |block.data| + |put| <= c.bufferSize
    ensures Sound(c, Extended(block, put, start, end))
  {
    var index := Index(start, end, put, |put|, BLOCK_DATA, 0, 0);
    PayloadsSnoc(block.indexes, index);
    hide Payloads;
    assert forall i :: 0 <= i < |block.indexes| ==> (block.indexes + [index])[i] == block.indexes[i];
  }

  lemma PutIs(c: Config, s: Channel, block: Request, data: seq<byte>, start: int, end: int, now: bool)
    requires block.Block? && |block.data| <= c.bufferSize
    ensures var put := Fit(data, c.bufferSize - |block.data|);
            var s1 := s.(req := Some(Extended(block, put, start, end)),
                         submitted := s.submitted + [Index(start, end, put, |put|, BLOCK_DATA, 0, 0)]);
            PutBlock(c, s, block, data, start, end, now).0 == if now then SyncStep(c, s1).0 else s1
  {
    hide SyncStep, Fit;
  }

  /** A block goes behind the others in the current buffer. */
  lemma PutMoreKeeps(c: Config, s: Channel, data: seq<byte>, start: int, end: int, now: bool, all: multiset<nat>)
    requires WriterOk(c, s, all) && s.req.Some? && s.req.value.Block? && |s.req.value.data| <= c.bufferSize
    ensures var s1 := PutBlock(c, s, s.req.value, data, start, end, now).0; WriterOk(c, s1, all) && SameFiles(s, s1)
  {
    hide InOrder, Owned, SyncStep, Sound, Fit, PutBlock, AllSound;
    var block := s.req.value;
    var put := Fit(data, c.bufferSize - |block.data|);
    FitFits(data, c.bufferSize - |block.data|);
    PutIs(c, s, block, data, start, end, now);
    var more := Extended(block, put, start, end);
    var index := Index(start, end, put, |put|, BLOCK_DATA, 0, 0);
    var s1 := s.(req := Some(more), submitted := s.submitted + [index]);
    var before := s.batch + s.queue;
    Assoc(s.batch, s.queue, [block]);
    Assoc(s.batch, s.queue, [more]);
    LastSound(c, before, block);
    ExtendedSound(c, block, put, start, end);
    LastIsSound(c, before, more);
    ExtendRequest(s, s1, before, block, more, index, all);
    SyncKeeps(c, s1, all);
  }

  lemma LastSound(c: Config, before: seq<Request>, r: Request)
    requires AllSound(c, before + [r])
    ensures Sound(c, r) && AllSound(c, before)
  {
    assert (before + [r])[|before|] == r;
    assert forall i :: 0 <= i < |before| ==> before[i] == (before + [r])[i];
  }

  lemma LastIsSound(c: Config, before: seq<Request>, r: Request)
    requires AllSound(c, before) && Sound(c, r)
    ensures AllSound(c, before + [r])
  {
  }

  /** A block goes into a buffer from the pool. */
  lemma PutNewKeeps(c: Config, s: Channel, buffer: nat, data: seq<byte>, start: int, end: int, now: bool, all: multiset<nat>)
    requires WriterOk(c, s, all) && s.req.None? && buffer in s.pool
    ensures var s0 := s.(pool := s.pool - multiset{buffer});
            var s1 := PutBlock(c, s0, Block(buffer, [], []), data, start, end, now).0;
            WriterOk(c, s1, all) && SameFiles(s, s1)
  {
    hide WriterOk, SyncStep, Fit, PutBlock;
    var s0 := s.(pool := s.pool - multiset{buffer});
    var empty := Block(buffer, [], []);
    var put := Fit(data, c.bufferSize);
    FitFits(data, c.bufferSize);
    PutIs(c, s0, empty, data, start, end, now);
    var r := Extended(empty, put, start, end);
    var index := Index(start, end, put, |put|, BLOCK_DATA, 0, 0);
    NothingBefore([index]);
    ExtendedSound(c, empty, put, start, end);
    var s1 := s0.(req := Some(r), submitted := s0.submitted + [index]);
    NewRequestKeeps(c, s, s1, r, all);
    SyncKeeps(c, s1, all);
  }

  lemma WriteKeeps(c: Config, s: Channel, e: Event, all: multiset<nat>)
    requires WriterOk(c, s, all) && e.Write?
    ensures WriterOk(c, WriteStep(c, s, e).0, all) && SameFiles(s, WriteStep(c, s, e).0)
  {
    hide WriterOk, SyncStep, PutBlock, Submit;
    var dropped := IndexOnly(Index(e.start, e.end, [], e.size, BLOCK_DROPPED, 0, 0));
    if e.size > c.bufferSize {
      SubmitKeeps(c, s, dropped, all);
    } else if HasRoom(c, s.req, e.size) {
      PutMoreKeeps(c, s, e.data, e.start, e.end, e.now, all);
    } else {
      SyncKeeps(c, s, all);
      SyncMoves(c, s);
      var (s1, ok) := SyncStep(c, s);
      if ok {
        if e.buffer in s1.pool {
          PutNewKeeps(c, s1, e.buffer, e.data, e.start, e.end, e.now, all);
        } else {
          SubmitKeeps(c, s1, dropped, all);
        }
      }
    }
  }

  lemma PopKeeps(c: Config, s: Channel, all: multiset<nat>)
    requires WriterOk(c, s, all)
    ensures WriterOk(c, Next(c, s, PopAll), all) && SameFiles(s, Next(c, s, PopAll))
  {
    hide InOrder, Owned, AllSound;
    if s.batch == [] {
      NothingBefore(s.queue + Current(s));
      NothingBefore(Current(s));
      assert Outstanding(Next(c, s, PopAll)) == Outstanding(s);
    }
    SameOutstanding(s, Next(c, s, PopAll), all);
  }

  lemma StepKeeps(c: Config, s: Channel, e: Event, base: map<nat, nat>, all: multiset<nat>)
    requires Inv(c, s, base, all)
    ensures Inv(c, Next(c, s, e), base, all)
  {
    hide InOrder, Owned, AllSound, FilesOk, LogOk, WriteStep, Submit, SyncStep, ProcessStep, Outstanding;
    assert WriterOk(c, s, all);
    match e
    case Write(_, _, _, _, _, _) => WriteKeeps(c, s, e, all);
    case StreamLost(start, end) =>
      SubmitKeeps(c, s, IndexOnly(Index(start, end, [], 0, BLOCK_NOT_DATA_STREAM_LOST, 0, 0)), all);
    case Sync => SyncKeeps(c, s, all);
    case Close => SubmitKeeps(c, s, CloseFile, all);
    case PopAll => PopKeeps(c, s, all);
    case Process(env) =>
      if s.batch != [] {
        ProcessKeeps(c, s, env, base, all);
      }
  }

  lemma {:induction false} RunKeeps(c: Config, s: Channel, events: seq<Event>, base: map<nat, nat>, all: multiset<nat>)
    requires Inv(c, s, base, all)
    ensures Inv(c, Run(c, s, events), base, all)
    decreases |events|
  {
    hide Inv, Next;
    if events != [] {
      StepKeeps(c, s, events[0], base, all);
      RunKeeps(c, Next(c, s, events[0]), events[1..], base, all);
    }
  }

  // ----- a writer at its start, and what holds ever after

  /** No file open; the files on disk are as long as their records say. */
  function Start(pool: multiset<nat>, files: seq<File>, disk: map<nat, seq<byte>>): Channel {
    Channel(None, [], [], pool, None, false, files, disk, [], [])
  }

  /** The lengths that the files have at the start. */
  function Lengths(disk: map<nat, seq<byte>>): map<nat, nat> {
    map f | f in disk :: |disk[f]|
  }

  lemma StartOk(c: Config, pool: multiset<nat>, files: seq<File>, disk: map<nat, seq<byte>>)
    requires c.fileSize > 0 && FilesOk(c, files, None, disk)
    ensures Inv(c, Start(pool, files, disk), Lengths(disk), pool)
  {
    hide FilesOk;
    assert forall f: nat :: |Contents(disk, f)| == Base(Lengths(disk), f);
  }

  /** In every run, with whatever full or partial writes and mix of requests: the indexes of a file tile
      it from where it began to its end, in the order they were added, and reading the range of one gives
      back the beginning of what was put into the buffer for it: all of it, if it was written in full. */
  lemma IndexesTileFiles(c: Config, pool: multiset<nat>, files: seq<File>, disk: map<nat, seq<byte>>, events: seq<Event>, k: nat)
    requires c.fileSize > 0 && FilesOk(c, files, None, disk) && k < |Run(c, Start(pool, files, disk), events).log|
    requires Run(c, Start(pool, files, disk), events).log[k].fileSeq != 0
    ensures var s := Run(c, Start(pool, files, disk), events);
            var i := s.log[k];
            var contents := Contents(s.disk, i.fileSeq);
            && i.fileOffset == Base(Lengths(disk), i.fileSeq) + Extent(s.log[..k], i.fileSeq)
            && |contents| == Base(Lengths(disk), i.fileSeq) + Extent(s.log, i.fileSeq)
            && i.fileOffset + i.size <= |contents| && i.size <= |i.payload|
            && contents[i.fileOffset..i.fileOffset + i.size] == i.payload[..i.size]
            && (i.size == |i.payload| ==> contents[i.fileOffset..i.fileOffset + i.size] == i.payload)
  {
    hide FilesOk, Run, InOrder, Owned, Extent, Contents, Whole;
    StartOk(c, pool, files, disk);
    RunKeeps(c, Start(pool, files, disk), events, Lengths(disk), pool);
    var s := Run(c, Start(pool, files, disk), events);
    var i := s.log[k];
    assert Lies(Lengths(disk), s.log, s.disk, k);
    assert i.payload[..|i.payload|] == i.payload;
    assert |Contents(s.disk, i.fileSeq)| == Base(Lengths(disk), i.fileSeq) + Extent(s.log, i.fileSeq);
  }

  /** What an index in the state of a block with data points to is what was put into the buffer for it. */
  lemma DataIsThere(c: Config, pool: multiset<nat>, files: seq<File>, disk: map<nat, seq<byte>>, events: seq<Event>, k: nat)
    requires c.fileSize > 0 && FilesOk(c, files, None, disk) && k < |Run(c, Start(pool, files, disk), events).log|
    requires Run(c, Start(pool, files, disk), events).log[k].state == BLOCK_DATA
    ensures var s := Run(c, Start(pool, files, disk), events);
            var i := s.log[k];
            var contents := Contents(s.disk, i.fileSeq);
            && i.fileSeq != 0 && i.size == |i.payload| && i.fileOffset + i.size <= |contents|
            && contents[i.fileOffset..i.fileOffset + i.size] == i.payload
  {
    hide FilesOk, LogOk, Run, InOrder, Owned, Extent, Contents;
    StartOk(c, pool, files, disk);
    RunKeeps(c, Start(pool, files, disk), events, Lengths(disk), pool);
    IndexesTileFiles(c, pool, files, disk, events, k);
  }

  /** Blocks are indexed in the order of the calls that accepted them, none lost and none twice: what is
      indexed so far is a beginning of what was accepted, and the rest is on its way. */
  lemma IndexedInOrder(c: Config, pool: multiset<nat>, files: seq<File>, disk: map<nat, seq<byte>>, events: seq<Event>)
    requires c.fileSize > 0 && FilesOk(c, files, None, disk)
    ensures var s := Run(c, Start(pool, files, disk), events);
            Keys(s.submitted) == Keys(s.log) + Keys(AllIndexes(Outstanding(s)))
  {
    hide FilesOk, LogOk, Run, Owned, Keys, Outstanding;
    StartOk(c, pool, files, disk);
    RunKeeps(c, Start(pool, files, disk), events, Lengths(disk), pool);
  }

  /** Rotation bounds every recorded size, and the open file's. */
  lemma FileSizesBounded(c: Config, pool: multiset<nat>, files: seq<File>, disk: map<nat, seq<byte>>, events: seq<Event>)
    requires c.fileSize > 0 && FilesOk(c, files, None, disk)
    ensures var s := Run(c, Start(pool, files, disk), events);
            && (forall i :: 0 <= i < |s.files| ==> s.files[i].size < c.fileSize + c.bufferSize)
            && (s.ctx.Some? ==> s.ctx.value.file.size < c.fileSize)
            && (s.ctx.None? && s.files != [] ==> s.files[|s.files| - 1].size == |Contents(s.disk, LastSeq(s.files))|)
  {
    hide LogOk, Run, Owned, InOrder, Contents, LastSeq;
    StartOk(c, pool, files, disk);
    RunKeeps(c, Start(pool, files, disk), events, Lengths(disk), pool);
  }

  /** Every buffer is in the pool or with exactly one request. */
  lemma BuffersHaveOneOwner(c: Config, pool: multiset<nat>, files: seq<File>, disk: map<nat, seq<byte>>, events: seq<Event>)
    requires c.fileSize > 0 && FilesOk(c, files, None, disk)
    ensures var s := Run(c, Start(pool, files, disk), events);
            s.pool + (Buffers(s.batch) + Buffers(s.queue) + Buffers(Current(s))) == pool
  {
    hide LogOk, Run, FilesOk, InOrder, Buffers;
    StartOk(c, pool, files, disk);
    var s := Run(c, Start(pool, files, disk), events);
    RunKeeps(c, Start(pool, files, disk), events, Lengths(disk), pool);
    BuffersSplit(s.batch, s.queue + Current(s));
    BuffersSplit(s.queue, Current(s));
  }

  /** A request of its own is kept exactly if there is nothing in front of it or the queue takes that; the
      answer is positive exactly if the queue takes the request as well. One that is answered with an
      error all the same is kept as the current one. */
  lemma SubmitOutcome(c: Config, s: Channel, request: Request)
    ensures var (s1, ok) := Submit(c, s, request);
            var kept := s.req.None? || |s.queue| < c.maxRequests;
            var queued := |s.queue| + if s.req.Some? then 1 else 0;
            && s1.submitted == s.submitted + (if kept then IndexesOf(request) else [])
            && (ok <==> kept && queued < c.maxRequests)
            && (kept && !ok ==> s1.req == Some(request))
  {
    hide IndexesOf;
    NothingBehind(s.submitted);
  }

  /** What a write leaves behind, and what it answers. The block is kept exactly if it fits the current
      buffer or the queue takes what is in front of it: with all of its bytes, as far as the buffer takes
      them, or as dropped, if more are announced than a buffer holds or the pool has none. The answer is
      positive exactly if the queue also takes what has to be queued behind; an error for a kept block
      means that this is left for later. */
  lemma WriteOutcome(c: Config, s: Channel, e: Event)
    requires e.Write?
    ensures var (s1, ok) := WriteStep(c, s, e);
            var fits := HasRoom(c, s.req, e.size);
            var put := Fit(e.data, c.bufferSize - if fits then |s.req.value.data| else 0);
            var kept := fits || s.req.None? || |s.queue| < c.maxRequests;
            var dropped := e.size > c.bufferSize || (!fits && e.buffer !in s.pool);
            var queued := |s.queue| + if !fits && s.req.Some? then 1 else 0;
            && s1.submitted == s.submitted +
                 (if !kept then []
                  else if dropped then [Index(e.start, e.end, [], e.size, BLOCK_DROPPED, 0, 0)]
                  else [Index(e.start, e.end, put, |put|, BLOCK_DATA, 0, 0)])
            && (|e.data| <= e.size && !dropped ==> put == e.data)
            && (ok <==> kept && (dropped || e.now ==> queued < c.maxRequests))
  {
    hide Fit, Submit, PutBlock;
    NothingBehind(s.submitted);
    FitsWhole(e.data);
    var drop := IndexOnly(Index(e.start, e.end, [], e.size, BLOCK_DROPPED, 0, 0));
    SubmitOutcome(c, s, drop);
    if e.size <= c.bufferSize {
      if HasRoom(c, s.req, e.size) {
        PutOutcome(c, s, s.req.value, e.data, e.start, e.end, e.now);
      } else {
        var s1 := SyncStep(c, s).0;
        SubmitOutcome(c, s1, drop);
        if e.buffer in s1.pool {
          PutOutcome(c, s1.(pool := s1.pool - multiset{e.buffer}), Block(e.buffer, [], []), e.data, e.start, e.end, e.now);
        }
      }
    }
  }

  lemma FitsWhole(data: seq<byte>)
    ensures forall room: nat :: |data| <= room ==> Fit(data, room) == data
  {
  }

  lemma PutOutcome(c: Config, s: Channel, block: Request, data: seq<byte>, start: int, end: int, now: bool)
    requires block.Block? && |block.data| <= c.bufferSize
    ensures var (s1, ok) := PutBlock(c, s, block, data, start, end, now);
            var put := Fit(data, c.bufferSize - |block.data|);
            && s1.submitted == s.submitted + [Index(start, end, put, |put|, BLOCK_DATA, 0, 0)]
            && (ok <==> (now ==> |s.queue| < c.maxRequests))
  {
    FitFits(data, c.bufferSize - |block.data|);
    hide Fit;
  }
}
