/** The file half of DBMetaManager (storage/meta/db-meta-manager.go) as an object: a bounded queue of
    files, three linked maps of what the database has to be told, and the file table. */
module FileManagers {
  import opened Options
  import opened FileMeta
  import IndexRows

  /** An entry of a linked map; it is dead once its file is deleted (the source sets its value to nil). */
  datatype Entry = Entry(key: nat, live: bool)

  function Live(entries: seq<Entry>): set<nat> {
    set e | e in entries && e.live :: e.key
  }

  ghost predicate UniqueKeys(entries: seq<Entry>) {
    forall i, j :: 0 <= i < j < |entries| ==> entries[i].key != entries[j].key
  }

  predicate Has(entries: seq<Entry>, key: nat) {
    exists i :: 0 <= i < |entries| && entries[i].key == key
  }

  function PutIfAbsent(entries: seq<Entry>, key: nat): seq<Entry> {
    if Has(entries, key) then entries else entries + [Entry(key, true)]
  }

  /** The entry of a key, if there is one, dies. */
  function Silence(entries: seq<Entry>, key: nat): (silenced: seq<Entry>)
    ensures |silenced| == |entries|
    ensures forall i :: 0 <= i < |entries| ==>
      silenced[i] == if entries[i].key == key then Entry(key, false) else entries[i]
  {
    seq(|entries|, i requires 0 <= i < |entries| => if entries[i].key == key then Entry(key, false) else entries[i])
  }

  function Put(entries: seq<Entry>, key: nat): seq<Entry> {
    if Has(entries, key) then Wake(entries, key) else entries + [Entry(key, true)]
  }

  /** The entry of a key, if there is one, is live. */
  function Wake(entries: seq<Entry>, key: nat): (woken: seq<Entry>)
    ensures |woken| == |entries|
    ensures forall i :: 0 <= i < |entries| ==> woken[i] == if entries[i].key == key then Entry(key, true) else entries[i]
  {
    seq(|entries|, i requires 0 <= i < |entries| => if entries[i].key == key then Entry(key, true) else entries[i])
  }

  lemma PutLive(entries: seq<Entry>, key: nat)
    ensures Live(Put(entries, key)) == Live(entries) + {key}
  {
    var longer := Put(entries, key);
    forall k ensures k in Live(longer) <==> k in Live(entries) || k == key {
      if k in Live(entries) || (k == key && Has(entries, key)) {
        var i :| 0 <= i < |entries| && entries[i].key == k && (k == key || entries[i].live);
        assert longer[i] in longer;
      } else if k == key {
        assert longer[|entries|] in longer;
      }
      if k in Live(longer) && k != key {
        var i :| 0 <= i < |longer| && longer[i].live && longer[i].key == k;
        assert entries[i] in entries;
      }
    }
  }

  /** One entry for the key, a live one, and the others as they were. */
  lemma PutUnique(entries: seq<Entry>, key: nat)
    requires UniqueKeys(entries)
    ensures UniqueKeys(Put(entries, key))
    ensures forall e :: e in Put(entries, key) ==> e == Entry(key, true) || (e in entries && e.key != key)
    ensures forall e :: e in entries && e.key != key ==> e in Put(entries, key)
  {
    var longer := Put(entries, key);
    forall e | e in longer ensures e == Entry(key, true) || (e in entries && e.key != key) {
      var i :| 0 <= i < |longer| && longer[i] == e;
      assert i < |entries| ==> entries[i] in entries;
    }
    forall e | e in entries && e.key != key ensures e in longer {
      var i :| 0 <= i < |entries| && entries[i] == e;
      assert longer[i] == e;
    }
  }

  lemma StaysDead(entries: seq<Entry>, key: nat)
    requires key !in Live(entries)
    ensures forall e :: e in entries && e.key == key ==> !e.live
  {
  }

  lemma HasDead(entries: seq<Entry>, key: nat)
    ensures Has(entries, key) <==> exists e :: e in entries && e.key == key
  {
    if Has(entries, key) {
      var i :| 0 <= i < |entries| && entries[i].key == key;
      assert entries[i] in entries;
    }
  }

  lemma PutIfAbsentLive(entries: seq<Entry>, key: nat)
    requires UniqueKeys(entries) && forall i :: 0 <= i < |entries| && entries[i].key == key ==> entries[i].live
    ensures Live(PutIfAbsent(entries, key)) == Live(entries) + {key} && UniqueKeys(PutIfAbsent(entries, key))
  {
    if Has(entries, key) {
      var i :| 0 <= i < |entries| && entries[i].key == key;
      assert entries[i] in entries;
    } else {
      var longer := entries + [Entry(key, true)];
      assert forall e :: e in longer <==> e in entries || e == Entry(key, true);
    }
  }

  /** A withdrawn entry that is still listed swallows what is noted for its key. */
  lemma WithdrawnSwallows(entries: seq<Entry>, key: nat)
    requires Has(entries, key) && key !in Live(entries)
    ensures key !in Live(PutIfAbsent(entries, key))
  {
  }

  lemma SilenceLive(entries: seq<Entry>, key: nat)
    requires UniqueKeys(entries)
    ensures Live(Silence(entries, key)) == Live(entries) - {key} && UniqueKeys(Silence(entries, key))
  {
    var silenced := Silence(entries, key);
    forall k ensures k in Live(silenced) <==> k in Live(entries) && k != key {
      if k in Live(entries) && k != key {
        var i :| 0 <= i < |entries| && entries[i].live && entries[i].key == k;
        assert silenced[i] in silenced;
      }
      if k in Live(silenced) {
        var i :| 0 <= i < |silenced| && silenced[i].live && silenced[i].key == k;
        assert entries[i] in entries;
      }
    }
  }

  lemma FirstRemoved(entries: seq<Entry>)
    requires entries != [] && UniqueKeys(entries)
    ensures Live(entries[1..]) == if entries[0].live then Live(entries) - {entries[0].key} else Live(entries)
    ensures UniqueKeys(entries[1..])
  {
    var rest := entries[1..];
    assert forall i :: 0 <= i < |rest| ==> rest[i] == entries[i + 1];
    forall k ensures k in Live(rest) <==> k in Live(entries) && !(entries[0].live && k == entries[0].key) {
      if k in Live(entries) && !(entries[0].live && k == entries[0].key) {
        var i :| 0 <= i < |entries| && entries[i].live && entries[i].key == k;
        assert rest[i - 1] in rest;
      }
      if k in Live(rest) {
        var i :| 0 <= i < |rest| && rest[i].live && rest[i].key == k;
        assert entries[i + 1] in entries;
      }
    }
  }

  /** The files in order of their numbers. */
  ghost predicate Ordered(files: seq<File>) {
    forall i, j :: 0 <= i < j < |files| ==> files[i].seqNo < files[j].seqNo
  }

  /** The files by their numbers. */
  function ByKey(files: seq<File>): map<nat, File> {
    if files == [] then map[]
    else
      var n := |files| - 1;
      ByKey(files[..n])[files[n].seqNo := files[n]]
  }

  lemma ByKeyLast(files: seq<File>)
    requires files != []
    ensures var n := |files| - 1; ByKey(files) == ByKey(files[..n])[files[n].seqNo := files[n]]
  {
  }

  lemma {:induction false} FileOf(files: seq<File>, k: nat) returns (i: nat)
    requires k in ByKey(files)
    ensures i < |files| && files[i].seqNo == k
  {
    ByKeyLast(files);
    hide ByKey;
    i := |files| - 1;
    if k != files[i].seqNo {
      i := FileOf(files[..i], k);
    }
  }

  lemma {:induction false} KeyOf(files: seq<File>, i: nat)
    requires Ordered(files) && i < |files|
    ensures files[i].seqNo in ByKey(files) && ByKey(files)[files[i].seqNo] == files[i]
  {
    ByKeyLast(files);
    hide ByKey;
    var n := |files| - 1;
    if i < n {
      assert files[..n][i] == files[i];
      KeyOf(files[..n], i);
    }
  }

  lemma ByKeyFinds(files: seq<File>)
    requires Ordered(files)
    ensures forall i :: 0 <= i < |files| ==> files[i].seqNo in ByKey(files) && ByKey(files)[files[i].seqNo] == files[i]
    ensures forall k :: k in ByKey(files) ==> exists i :: 0 <= i < |files| && files[i].seqNo == k
  {
    hide ByKey;
    forall i | 0 <= i < |files|
      ensures files[i].seqNo in ByKey(files) && ByKey(files)[files[i].seqNo] == files[i]
    {
      KeyOf(files, i);
    }
    forall k | k in ByKey(files) ensures exists i :: 0 <= i < |files| && files[i].seqNo == k {
      var i := FileOf(files, k);
    }
  }

  /** Ordered files are what a map holds if they are the same by number. */
  lemma ByKeyIs(files: seq<File>, held: map<nat, File>)
    requires Ordered(files)
    requires forall i :: 0 <= i < |files| ==> files[i].seqNo in held && held[files[i].seqNo] == files[i]
    requires forall k :: k in held ==> exists i :: 0 <= i < |files| && files[i].seqNo == k
    ensures ByKey(files) == held
  {
    ByKeyFinds(files);
    forall k | k in held ensures k in ByKey(files) && ByKey(files)[k] == held[k] {
      var i :| 0 <= i < |files| && files[i].seqNo == k;
    }
  }

  lemma ByKeyWithoutHead(files: seq<File>)
    requires files != [] && Ordered(files)
    ensures Ordered(files[1..]) && ByKey(files[1..]) == ByKey(files) - {files[0].seqNo}
  {
    hide ByKey;
    ByKeyFinds(files);
    var rest := files[1..];
    assert forall i :: 0 <= i < |rest| ==> rest[i] == files[i + 1];
    var held := ByKey(files) - {files[0].seqNo};
    forall k | k in held ensures exists i :: 0 <= i < |rest| && rest[i].seqNo == k {
      var i :| 0 <= i < |files| && files[i].seqNo == k;
      assert rest[i - 1].seqNo == k;
    }
    ByKeyIs(rest, held);
  }

  lemma ByKeyReplaced(files: seq<File>, i: nat, f: File)
    requires i < |files| && Ordered(files) && f.seqNo == files[i].seqNo
    ensures Ordered(files[i := f]) && ByKey(files[i := f]) == ByKey(files)[f.seqNo := f]
  {
    hide ByKey;
    ByKeyFinds(files);
    var changed := files[i := f];
    var held := ByKey(files)[f.seqNo := f];
    forall k | k in held ensures exists j :: 0 <= j < |changed| && changed[j].seqNo == k {
      var j :| 0 <= j < |files| && files[j].seqNo == k;
      assert changed[j].seqNo == k;
    }
    ByKeyIs(changed, held);
  }

  class FileManager {
    const maxFiles: nat
    var files: seq<File>
    var needCreated: seq<Entry>
    var needUpdated: seq<Entry>
    var needDeleted: seq<nat>
    var call: Call
    /** The database table. */
    var table: map<nat, File>
    /** The greatest file number ever. */
    ghost var last: nat
    /** The files whose last write left their row as it was written. */
    ghost var kept: set<nat>

    ghost function Abs(): Meta
      reads this
    {
      Meta(ByKey(files), last, Live(needCreated), Live(needUpdated), (set k | k in needDeleted), call, table)
    }

    /** The linked maps have one entry for a key, and dead entries are of deleted files. */
    ghost predicate Linked()
      reads this
    {
      && UniqueKeys(needCreated) && UniqueKeys(needUpdated)
      && (forall i, j :: 0 <= i < j < |needDeleted| ==> needDeleted[i] != needDeleted[j])
      && (forall e :: e in needCreated || e in needUpdated ==> e.key <= last && (!e.live ==> e.key !in ByKey(files)))
    }

    ghost predicate Valid()
      reads this
    {
      Inv(Abs(), kept) && Linked() && Ordered(files) && |files| <= maxFiles
    }

    constructor (max: nat, loaded: seq<File>)
      requires Ordered(loaded) && |loaded| <= max
      ensures Valid() && files == loaded && maxFiles == max && kept == ByKey(loaded).Keys
      ensures Abs() == Loaded(ByKey(loaded), if loaded == [] then 0 else loaded[|loaded| - 1].seqNo)
    {
      ByKeyFinds(loaded);
      maxFiles, files, needCreated, needUpdated, needDeleted := max, loaded, [], [], [];
      call, table := Idle, ByKey(loaded);
      last, kept := if loaded == [] then 0 else loaded[|loaded| - 1].seqNo, ByKey(loaded).Keys;
      LoadedOk(ByKey(loaded), if loaded == [] then 0 else loaded[|loaded| - 1].seqNo);
      new;
      assert Abs() == Loaded(ByKey(loaded), if loaded == [] then 0 else loaded[|loaded| - 1].seqNo);
    }

    /** findFile: the position of the first file whose number is not below a given one. */
    method FindFile(seqNo: nat) returns (i: nat)
      requires Ordered(files)
      ensures i <= |files|
      ensures forall j :: 0 <= j < |files| ==> (j < i <==> files[j].seqNo < seqNo)
    {
      var all := files;
      var notBelow := (j: nat) => j < |all| && all[j].seqNo >= seqNo;
      i := IndexRows.Search(|all|, notBelow);
      forall j | 0 <= j < |all| ensures j < i <==> all[j].seqNo < seqNo {
        assert notBelow(j) <==> all[j].seqNo >= seqNo;
      }
    }

    /** getFile: the position of the file with a number, if there is one. */
    method PositionOf(seqNo: nat) returns (i: Option<nat>)
      requires Ordered(files)
      ensures i.Some? ==> i.value < |files| && files[i.value].seqNo == seqNo
      ensures i.Some? <==> seqNo in ByKey(files)
    {
      ByKeyFinds(files);
      hide ByKey;
      var at := FindFile(seqNo);
      if at < |files| {
        if files[at].seqNo == seqNo {
          return Some(at);
        }
      }
      return None;
    }

    method GetFile(seqNo: nat) returns (f: Option<File>)
      requires Valid()
      ensures f == if seqNo in ByKey(files) then Some(ByKey(files)[seqNo]) else None
    {
      ByKeyFinds(files);
      hide ByKey, Inv;
      var at := PositionOf(seqNo);
      f := if at.Some? then Some(files[at.value]) else None;
    }

    /** NewFile's number: new if the greatest one ever is in memory, or none was used. */
    method NextSeq() returns (seqNo: nat)
      requires Valid()
      ensures IsNext(ByKey(files), seqNo)
      ensures seqNo > last <==> last in ByKey(files) || last == 0
    {
      ByKeyFinds(files);
      hide ByKey, Inv, IsNext;
      seqNo := 1;
      if |files| > 0 {
        seqNo := seqNo + files[|files| - 1].seqNo;
      }
      NextOf(files, seqNo);
      NextIsNewIff(Abs(), kept, seqNo);
    }

    /** AddFile: an error, and no change, if the queue of files is full. A number that is not above the
        last one's in memory panics in the source. The number may have been used before if nothing is due for it
        and no entry of it was withdrawn from the files to be updated: such an entry would swallow updates. */
    method AddFile(file: File) returns (ok: bool)
      requires Valid() && forall k :: k in ByKey(files) ==> k < file.seqNo
      modifies this
      ensures ok <==> |old(files)| < maxFiles
      ensures Abs() == if ok then Next(old(Abs()), FileMeta.AddFile(file)) else old(Abs())
      ensures ok ==> (Valid() <==> old(Free(Abs(), file.seqNo) && !Has(needUpdated, file.seqNo)))
      ensures !ok ==> Valid()
      ensures kept == old(kept)
    {
      hide ByKey, Inv, Live, UniqueKeys;
      InMemory(Abs(), kept);
      if |files| >= maxFiles {
        return false;
      }
      AddKeepsIff(Abs(), file, kept);
      ByKeyPushed(files, file);
      PutLive(needCreated, file.seqNo);
      PutUnique(needCreated, file.seqNo);
      HasDead(needUpdated, file.seqNo);
      StaysDead(needUpdated, file.seqNo);
      files := files + [file];
      needCreated := Put(needCreated, file.seqNo);
      last := if file.seqNo > last then file.seqNo else last;
      return true;
    }

    method UpdateFile(file: File)
      requires Valid()
      modifies this
      ensures Valid() && Abs() == Next(old(Abs()), FileMeta.UpdateFile(file)) && kept == old(kept)
    {
      hide Inv, ByKey, Live, UniqueKeys, Has;
      UpdateKeeps(Abs(), file, kept);
      InMemory(Abs(), kept);
      var at := PositionOf(file.seqNo);
      if at.None? {
        return;
      }
      ByKeyReplaced(files, at.value, file);
      files := files[at.value := file];
      if Has(needCreated, file.seqNo) {
        HasIsLive(needCreated, file.seqNo);
        return;
      }
      HasIsLive(needCreated, file.seqNo);
      PutIfAbsentLive(needUpdated, file.seqNo);
      needUpdated := PutIfAbsent(needUpdated, file.seqNo);
    }

    /** One file leaves the queue. */
    method PopFile()
      requires Linked() && Ordered(files) && files != [] && files[0].seqNo <= last
      requires forall k :: k in ByKey(files) ==> k !in needDeleted
      modifies this`files, this`needCreated, this`needUpdated, this`needDeleted
      ensures Linked() && Ordered(files) && files == old(files[1..])
      ensures Abs() == Drop(old(Abs()), {old(files[0].seqNo)})
    {
      hide ByKey;
      var key := files[0].seqNo;
      ByKeyFinds(files);
      ByKeyWithoutHead(files);
      files := files[1..];
      SilenceLive(needCreated, key);
      SilenceLive(needUpdated, key);
      needCreated := Silence(needCreated, key);
      needUpdated := Silence(needUpdated, key);
      needDeleted := needDeleted + [key];
    }

    /** DeleteFile: the files up to a number leave the queue. */
    method DeleteFile(upTo: nat)
      requires Valid()
      modifies this
      ensures Valid() && Abs() == Next(old(Abs()), DeleteFiles(upTo)) && kept == old(kept)
    {
      hide ByKey, Inv, UpTo;
      DeleteKeeps(Abs(), upTo, kept);
      InMemory(Abs(), kept);
      ghost var gone := {};
      DropNone(Abs());
      while |files| > 0 && files[0].seqNo <= upTo
        invariant Linked() && Ordered(files) && |files| <= maxFiles && last == old(last) && kept == old(kept)
        invariant forall k :: k in ByKey(files) ==> k <= last && k !in needDeleted
        invariant Abs() == Drop(old(Abs()), gone)
        invariant forall k :: k in gone ==> k in old(Abs()).files && k <= upTo
        decreases |files|
      {
        var key := files[0].seqNo;
        KeyOf(files, 0);
        DropMore(old(Abs()), gone, key);
        PopFile();
        gone := gone + {key};
      }
      NoneUpTo(files, upTo);
      AllUpTo(old(Abs()), gone, upTo);
    }

    // ----- talking to the database

    /** The next file to be created, dead entries skipped. */
    method PickCreated() returns (ok: bool)
      requires Valid() && call.Idle?
      modifies this`needCreated, this`call
      ensures Valid() && |needCreated| <= |old(needCreated)|
      ensures ok ==> call.Creating? && call.key in old(Abs()).needCreated && |needCreated| < |old(needCreated)|
      ensures ok ==> Abs() == Next(old(Abs()), FileMeta.PickCreated(call.key))
      ensures !ok ==> needCreated == [] && Abs() == old(Abs())
    {
      hide Inv, ByKey;
      while |needCreated| > 0
        invariant Valid() && call.Idle? && Abs() == old(Abs()) && |needCreated| <= |old(needCreated)|
        decreases |needCreated|
      {
        FirstRemoved(needCreated);
        var first := needCreated[0];
        if first.live {
          assert first in needCreated;
          PickKeeps(Abs(), FileMeta.PickCreated(first.key), kept);
          needCreated := needCreated[1..];
          call := Creating(first.key);
          return true;
        }
        needCreated := needCreated[1..];
      }
      return false;
    }

    /** The next file to be updated, dead entries skipped. */
    method PickUpdated() returns (ok: bool)
      requires Valid() && call.Idle?
      modifies this`needUpdated, this`call
      ensures Valid() && |needUpdated| <= |old(needUpdated)|
      ensures ok ==> call.Updating? && call.key in old(Abs()).needUpdated && |needUpdated| < |old(needUpdated)|
      ensures ok ==> Abs() == Next(old(Abs()), FileMeta.PickUpdated(call.key))
      ensures !ok ==> needUpdated == [] && Abs() == old(Abs())
    {
      hide Inv, ByKey;
      while |needUpdated| > 0
        invariant Valid() && call.Idle? && Abs() == old(Abs()) && |needUpdated| <= |old(needUpdated)|
        decreases |needUpdated|
      {
        FirstRemoved(needUpdated);
        var first := needUpdated[0];
        if first.live {
          assert first in needUpdated;
          PickKeeps(Abs(), FileMeta.PickUpdated(first.key), kept);
          needUpdated := needUpdated[1..];
          call := Updating(first.key);
          return true;
        }
        needUpdated := needUpdated[1..];
      }
      return false;
    }

    method PickDeleted() returns (ok: bool)
      requires Valid() && call.Idle?
      modifies this`needDeleted, this`call
      ensures Valid() && (ok <==> old(needDeleted) != [])
      ensures ok ==> call.Deleting? && |needDeleted| < |old(needDeleted)|
      ensures ok ==> Abs() == Next(old(Abs()), FileMeta.PickDeleted(call.key))
      ensures !ok ==> needDeleted == [] && Abs() == old(Abs())
    {
      hide Inv, ByKey;
      if |needDeleted| == 0 {
        return false;
      }
      var key := needDeleted[0];
      assert key in Abs().needDeleted;
      PickKeeps(Abs(), FileMeta.PickDeleted(key), kept);
      WithoutFirst(needDeleted);
      needDeleted := needDeleted[1..];
      call := Deleting(key);
      assert Abs() == Next(old(Abs()), FileMeta.PickDeleted(key));
      return true;
    }

    /** The database has done what it was asked. */
    method Succeed(written: File)
      requires Valid() && Legal(Abs(), CallSucceeds(written))
      modifies this`table, this`call, this`kept
      ensures Valid() && Abs() == Next(old(Abs()), CallSucceeds(written))
      ensures kept == Kept(old(Abs()), CallSucceeds(written), old(kept))
    {
      hide Inv, ByKey, Legal, Kept;
      AnswerKeeps(Abs(), CallSucceeds(written), kept);
      kept := Kept(Abs(), CallSucceeds(written), kept);
      match call {
        case Idle =>
        case Creating(k) => table := table[k := written];
        case Updating(k) =>
          if k in table {
            table := table[k := Merge(table[k], written)];
          }
        case Deleting(k) => table := table - {k};
      }
      call := Idle;
    }

    /** The database has failed: the call is noted again, if it still matters. */
    method Fail()
      requires Valid()
      modifies this`needCreated, this`needUpdated, this`needDeleted, this`call
      ensures Valid() && Abs() == Next(old(Abs()), CallFails) && kept == old(kept)
    {
      hide Inv, ByKey;
      AnswerKeeps(Abs(), CallFails, kept);
      CallKnown(Abs(), kept);
      match call {
        case Idle =>
        case Creating(k) =>
          var at := PositionOf(k);
          if at.Some? {
            PutIfAbsentLive(needCreated, k);
            needCreated := PutIfAbsent(needCreated, k);
          }
        case Updating(k) =>
          var at := PositionOf(k);
          if at.Some? {
            PutIfAbsentLive(needUpdated, k);
            needUpdated := PutIfAbsent(needUpdated, k);
          }
        case Deleting(k) =>
          WithOneMore(needDeleted, k);
          if k !in needDeleted {
            needDeleted := needDeleted + [k];
          }
      }
      call := Idle;
      assert Abs() == Next(old(Abs()), CallFails);
    }

    /** createFile with the database answering. */
    method CreateFiles()
      requires Valid() && call.Idle?
      modifies this`needCreated, this`call, this`table, this`kept
      ensures Valid() && call.Idle? && needCreated == []
    {
      hide Inv, ByKey, Next, UniqueKeys;
      var more := PickCreated();
      while more
        invariant Valid() && (more ==> call.Creating?) && (!more ==> call.Idle? && needCreated == [])
        decreases |needCreated|, more
      {
        WriteCurrent();
        more := PickCreated();
      }
    }

    /** updateFile with the database answering. */
    method UpdateFiles()
      requires Valid() && call.Idle?
      modifies this`needUpdated, this`call, this`table, this`kept
      ensures Valid() && call.Idle? && needUpdated == []
    {
      hide Inv, ByKey, Next, UniqueKeys;
      var more := PickUpdated();
      while more
        invariant Valid() && (more ==> call.Updating?) && (!more ==> call.Idle? && needUpdated == [])
        decreases |needUpdated|, more
      {
        WriteCurrent();
        more := PickUpdated();
      }
    }

    /** deleteFile with the database answering. */
    method RemoveFiles()
      requires Valid() && call.Idle?
      modifies this`needDeleted, this`call, this`table, this`kept
      ensures Valid() && call.Idle? && needDeleted == []
    {
      hide Inv, ByKey, UniqueKeys, Merge;
      var more := PickDeleted();
      while more
        invariant Valid() && (more ==> call.Deleting?) && (!more ==> call.Idle? && needDeleted == [])
        decreases |needDeleted|, more
      {
        Succeed(File(0, "", 0, 0, 0, 0, 0));
        more := PickDeleted();
      }
    }

    /** createFile, updateFile and deleteFile at shutdown, the database answering: the table then has the
        files in memory, and is them exactly if the last write of each cleared no field of its row. */
    method Flush()
      requires Valid() && call.Idle?
      modifies this`needCreated, this`needUpdated, this`needDeleted, this`call, this`table, this`kept
      ensures Valid() && Drained(Abs()) && table.Keys == ByKey(files).Keys
      ensures forall k :: k in ByKey(files) ==> (table[k] == ByKey(files)[k] <==> k in kept)
      ensures table == ByKey(files) <==> ByKey(files).Keys <= kept
    {
      hide Inv, ByKey;
      CreateFiles();
      UpdateFiles();
      RemoveFiles();
      DrainedIsFilesIff(Abs(), kept);
    }

    /** The call under way succeeds and writes the file as it is. */
    method WriteCurrent()
      requires Valid() && (call.Creating? || call.Updating?)
      modifies this`table, this`call, this`kept
      ensures Valid() && call.Idle?
    {
      hide Inv, ByKey;
      CallKnown(Abs(), kept);
      var f := GetFile(call.key);
      var written := if f.Some? then f.value else File(call.key, "", 0, 0, 0, 0, 0);
      Succeed(written);
    }
  }

  lemma WithoutFirst(keys: seq<nat>)
    requires keys != [] && forall i, j :: 0 <= i < j < |keys| ==> keys[i] != keys[j]
    ensures (set k | k in keys[1..]) == (set k | k in keys) - {keys[0]}
    ensures forall i, j :: 0 <= i < j < |keys[1..]| ==> keys[1..][i] != keys[1..][j]
  {
    var rest := keys[1..];
    assert forall i :: 0 <= i < |rest| ==> rest[i] == keys[i + 1];
    forall k | k in keys && k != keys[0] ensures k in rest {
      var i :| 0 <= i < |keys| && keys[i] == k;
      assert rest[i - 1] == k;
    }
  }

  lemma WithOneMore(keys: seq<nat>, key: nat)
    ensures (set k | k in keys + [key]) == (set k | k in keys) + {key}
    ensures key in keys ==> (set k | k in keys) + {key} == (set k | k in keys)
  {
  }

  lemma CallKnown(m: Meta, kept: set<nat>)
    requires Inv(m, kept)
    ensures m.call.Creating? || m.call.Updating? || m.call.Deleting? ==> m.call.key <= m.last
    ensures forall k :: k in m.files ==> m.files[k].seqNo == k
  {
    forall k | k in m.files ensures m.files[k].seqNo == k {
      assert Known(m, kept, k);
    }
  }

  lemma NextOf(files: seq<File>, n: nat)
    requires Ordered(files) && n == if files == [] then 1 else files[|files| - 1].seqNo + 1
    ensures IsNext(ByKey(files), n) && (ByKey(files) == map[] <==> files == [])
  {
    if files != [] {
      KeyOf(files, |files| - 1);
    }
    hide ByKey;
    forall k | k in ByKey(files) ensures k < n {
      var i := FileOf(files, k);
      assert i < |files| - 1 ==> files[i].seqNo < files[|files| - 1].seqNo;
    }
  }

  lemma ByKeyPushed(files: seq<File>, f: File)
    requires Ordered(files) && forall k :: k in ByKey(files) ==> k < f.seqNo
    ensures Ordered(files + [f]) && ByKey(files + [f]) == ByKey(files)[f.seqNo := f]
  {
    hide ByKey;
    ByKeyFinds(files);
    ByKeyLast(files + [f]);
    assert (files + [f])[..|files|] == files;
  }

  lemma InMemory(m: Meta, kept: set<nat>)
    requires Inv(m, kept)
    ensures forall k :: k in m.files ==> k <= m.last && k !in m.needDeleted
    ensures m.needCreated <= m.files.Keys && m.needUpdated <= m.files.Keys
  {
  }

  lemma DropNone(m: Meta)
    ensures Drop(m, {}) == m
  {
  }

  lemma DropMore(m: Meta, gone: set<nat>, key: nat)
    ensures Drop(Drop(m, gone), {key}) == Drop(m, gone + {key})
    ensures key in Drop(m, gone).files ==> key in m.files
  {
  }

  lemma NoneUpTo(files: seq<File>, upTo: nat)
    requires Ordered(files) && (files == [] || files[0].seqNo > upTo)
    ensures forall k :: k in ByKey(files) ==> k > upTo
  {
    hide ByKey;
    forall k | k in ByKey(files) ensures k > upTo {
      var i := FileOf(files, k);
      assert i > 0 ==> files[0].seqNo < files[i].seqNo;
    }
  }

  lemma AllUpTo(m: Meta, gone: set<nat>, upTo: nat)
    requires forall k :: k in gone ==> k in m.files && k <= upTo
    requires forall k :: k in Drop(m, gone).files ==> k > upTo
    ensures gone == UpTo(m, upTo)
  {
    assert forall k :: k in m.files && k !in gone ==> k in Drop(m, gone).files;
  }

  /** Of a file that is in memory, a linked map has no dead entry. */
  lemma HasIsLive(entries: seq<Entry>, key: nat)
    requires forall e :: e in entries && e.key == key ==> e.live
    ensures Has(entries, key) <==> key in Live(entries)
  {
    if Has(entries, key) {
      var i :| 0 <= i < |entries| && entries[i].key == key;
      assert entries[i] in entries;
    }
  }
}
