/** The file half of storage/meta/db-meta-manager.go as a state machine: the files in memory, what of
    them the database still has to be told, one database call at a time, and the file table. */
module FileMeta {

  datatype File = File(seqNo: nat, path: string, size: nat, createTime: int, startTime: int, endTime: int, state: nat)

  /** The database call under way; a single executor runs all file tasks. */
  datatype Call = Idle | Creating(key: nat) | Updating(key: nat) | Deleting(key: nat)

  /** The files in memory, the greatest number ever used, what the database has to be told, and the table. */
  datatype Meta = Meta(files: map<nat, File>, last: nat, needCreated: set<nat>, needUpdated: set<nat>,
                       needDeleted: set<nat>, call: Call, table: map<nat, File>)

  /** What the source does, and how the database answers. A call writes some version of its file. */
  datatype Event =
    | AddFile(file: File)
    | UpdateFile(file: File)
    | DeleteFiles(upTo: nat)
    | PickCreated(key: nat)
    | PickUpdated(key: nat)
    | PickDeleted(key: nat)
    | CallSucceeds(written: File)
    | CallFails

  // ----- the table

  /** An update by a record writes the fields that are not zero. */
  function Merge(row: File, f: File): File {
    File(row.seqNo,
         if f.path != "" then f.path else row.path,
         if f.size != 0 then f.size else row.size,
         if f.createTime != 0 then f.createTime else row.createTime,
         if f.startTime != 0 then f.startTime else row.startTime,
         if f.endTime != 0 then f.endTime else row.endTime,
         if f.state != 0 then f.state else row.state)
  }

  /** Every field set in one version is set in the other. */
  predicate KeepsFields(f: File, later: File) {
    && f.seqNo == later.seqNo
    && (f.path != "" ==> later.path != "")
    && (f.size != 0 ==> later.size != 0)
    && (f.createTime != 0 ==> later.createTime != 0)
    && (f.startTime != 0 ==> later.startTime != 0)
    && (f.endTime != 0 ==> later.endTime != 0)
    && (f.state != 0 ==> later.state != 0)
  }

  lemma MergeIsLaterIff(row: File, f: File)
    requires row.seqNo == f.seqNo
    ensures Merge(row, f) == f <==> KeepsFields(row, f)
  {
  }

  // ----- the steps

  function After(m: Meta, written: File): map<nat, File> {
    match m.call
    case Idle => m.table
    case Creating(k) => m.table[k := written]
    case Updating(k) => if k in m.table then m.table[k := Merge(m.table[k], written)] else m.table
    case Deleting(k) => m.table - {k}
  }

  /** A failed call is noted again, unless its file is gone by then. */
  function Retry(m: Meta): Meta {
    match m.call
    case Idle => m
    case Creating(k) => m.(needCreated := if k in m.files then m.needCreated + {k} else m.needCreated, call := Idle)
    case Updating(k) => m.(needUpdated := if k in m.files then m.needUpdated + {k} else m.needUpdated, call := Idle)
    case Deleting(k) => m.(needDeleted := m.needDeleted + {k}, call := Idle)
  }

  function UpTo(m: Meta, k: nat): set<nat> {
    set x | x in m.files && x <= k
  }

  /** Deleted files are to be deleted from the table, and nothing else is due for them any more. */
  function Drop(m: Meta, gone: set<nat>): Meta {
    m.(files := m.files - gone, needCreated := m.needCreated - gone, needUpdated := m.needUpdated - gone,
       needDeleted := m.needDeleted + gone)
  }

  /** A step that is not enabled changes nothing. */
  function Next(m: Meta, e: Event): Meta {
    match e
    case AddFile(f) =>
      m.(files := m.files[f.seqNo := f], last := if f.seqNo > m.last then f.seqNo else m.last, needCreated := m.needCreated + {f.seqNo})
    case UpdateFile(f) =>
      if f.seqNo !in m.files then m
      else if f.seqNo in m.needCreated then m.(files := m.files[f.seqNo := f])
      else m.(files := m.files[f.seqNo := f], needUpdated := m.needUpdated + {f.seqNo})
    case DeleteFiles(k) => Drop(m, UpTo(m, k))
    case PickCreated(k) =>
      if m.call.Idle? && k in m.needCreated then m.(needCreated := m.needCreated - {k}, call := Creating(k)) else m
    case PickUpdated(k) =>
      if m.call.Idle? && k in m.needUpdated then m.(needUpdated := m.needUpdated - {k}, call := Updating(k)) else m
    case PickDeleted(k) =>
      if m.call.Idle? && k in m.needDeleted then m.(needDeleted := m.needDeleted - {k}, call := Deleting(k)) else m
    case CallSucceeds(written) => m.(table := After(m, written), call := Idle)
    case CallFails => Retry(m)
  }

  function Run(m: Meta, events: seq<Event>): Meta
    decreases |events|
  {
    if events == [] then m else Run(Next(m, events[0]), events[1..])
  }

  /** The number that NewFile gives: behind the greatest in memory, 1 with no file there. */
  ghost predicate IsNext(files: map<nat, File>, n: nat) {
    (files == map[] ==> n == 1) && (files != map[] ==> n > 0 && n - 1 in files && forall k :: k in files ==> k < n)
  }

  /** Nothing is due any more for a file that had the number before. */
  predicate Free(m: Meta, n: nat) {
    n !in m.needDeleted && m.call != Deleting(n)
  }

  /** A number is above those in memory and free; a call writes the file as it is, or another version while an
      update is due. */
  ghost predicate Legal(m: Meta, e: Event) {
    match e
    case AddFile(f) => (forall k :: k in m.files ==> k < f.seqNo) && Free(m, f.seqNo)
    case CallSucceeds(written) =>
      m.call.Creating? || m.call.Updating? ==>
        && written.seqNo == m.call.key
        && (m.call.key in m.files ==> written == m.files[m.call.key] || m.call.key in m.needUpdated)
    case _ => true
  }

  ghost predicate LegalRun(m: Meta, events: seq<Event>)
    decreases |events|
  {
    events == [] || (Legal(m, events[0]) && LegalRun(Next(m, events[0]), events[1..]))
  }

  // ----- which rows are whole

  /** The files whose last write, so far in kept, left their row as it was written: a creation always does,
      and a merge does unless it clears a field that the row has. */
  function Kept(m: Meta, e: Event, kept: set<nat>): set<nat> {
    if !e.CallSucceeds? then kept
    else
      match m.call
      case Creating(k) => kept + {k}
      case Updating(k) =>
        if k !in m.table then kept else if KeepsFields(m.table[k], e.written) then kept + {k} else kept - {k}
      case _ => kept
  }

  function KeptAfter(m: Meta, events: seq<Event>, kept: set<nat>): set<nat>
    decreases |events|
  {
    if events == [] then kept else KeptAfter(Next(m, events[0]), events[1..], Kept(m, events[0], kept))
  }

  // ----- the invariant

  /** What the table knows of a file in memory: nothing while its creation is due or under way, and
      otherwise, unless an update is due or under way, its contents exactly if its last write kept them. */
  predicate Known(m: Meta, kept: set<nat>, k: nat)
    requires k in m.files
  {
    && m.files[k].seqNo == k
    && (k in m.needCreated || m.call == Creating(k) ==> k !in m.table)
    && (k !in m.needCreated && m.call != Creating(k) ==>
          && k in m.table
          && (k in m.needUpdated || m.call == Updating(k) || (m.table[k] == m.files[k] <==> k in kept)))
  }

  ghost predicate Inv(m: Meta, kept: set<nat>) {
    && (forall k :: k in m.files ==> k <= m.last && Known(m, kept, k))
    && (forall k :: k in m.needDeleted ==> k !in m.files && k <= m.last)
    && (forall k :: k in m.table && k !in m.files ==> k in m.needDeleted || m.call == Deleting(k))
    && m.needCreated <= m.files.Keys && m.needUpdated <= m.files.Keys
    && (m.call.Creating? || m.call.Updating? ==> m.call.key <= m.last && (m.call.key !in m.files ==> m.call.key in m.needDeleted))
    && (m.call.Creating? ==> m.call.key !in m.needCreated)
    && (m.call.Deleting? ==> m.call.key !in m.files && m.call.key <= m.last)
    && (forall k :: k in m.table ==> k <= m.last && m.table[k].seqNo == k)
  }

  /** NewFile's number has not been used before exactly if the greatest number ever is that of a file in memory,
      or none was used. */
  lemma NextIsNewIff(m: Meta, kept: set<nat>, n: nat)
    requires Inv(m, kept) && IsNext(m.files, n)
    ensures n > m.last <==> m.last in m.files || m.last == 0
  {
    hide Known;
  }

  /** A number above those in memory may be given to a file exactly if it is free, whether it was used before
      or not. */
  lemma AddKeepsIff(m: Meta, f: File, kept: set<nat>)
    requires Inv(m, kept) && forall k :: k in m.files ==> k < f.seqNo
    ensures Inv(Next(m, AddFile(f)), kept) <==> Free(m, f.seqNo)
  {
    if Free(m, f.seqNo) {
      assert f.seqNo !in m.table;
    }
  }

  lemma UpdateKeeps(m: Meta, f: File, kept: set<nat>)
    requires Inv(m, kept)
    ensures Inv(Next(m, UpdateFile(f)), kept)
  {
  }

  lemma DeleteKeeps(m: Meta, upTo: nat, kept: set<nat>)
    requires Inv(m, kept)
    ensures Inv(Next(m, DeleteFiles(upTo)), kept)
  {
  }

  lemma PickKeeps(m: Meta, e: Event, kept: set<nat>)
    requires Inv(m, kept) && (e.PickCreated? || e.PickUpdated? || e.PickDeleted?)
    ensures Inv(Next(m, e), kept)
  {
  }

  lemma AnswerKeeps(m: Meta, e: Event, kept: set<nat>)
    requires Inv(m, kept) && Legal(m, e) && (e.CallSucceeds? || e.CallFails?)
    ensures Inv(Next(m, e), Kept(m, e, kept))
  {
    if e.CallSucceeds? && m.call.Updating? && m.call.key in m.table {
      MergeIsLaterIff(m.table[m.call.key], e.written);
    }
    hide KeepsFields, Merge;
  }

  /** Every step keeps the invariant, whichever way the database answers. */
  lemma StepKeeps(m: Meta, e: Event, kept: set<nat>)
    requires Inv(m, kept) && Legal(m, e)
    ensures Inv(Next(m, e), Kept(m, e, kept))
  {
    hide Inv, Next;
    match e
    case AddFile(f) => AddKeepsIff(m, f, kept);
    case UpdateFile(f) => UpdateKeeps(m, f, kept);
    case DeleteFiles(k) => DeleteKeeps(m, k, kept);
    case PickCreated(_) => PickKeeps(m, e, kept);
    case PickUpdated(_) => PickKeeps(m, e, kept);
    case PickDeleted(_) => PickKeeps(m, e, kept);
    case CallSucceeds(_) => AnswerKeeps(m, e, kept);
    case CallFails => AnswerKeeps(m, e, kept);
  }

  lemma {:induction false} RunKeeps(m: Meta, events: seq<Event>, kept: set<nat>)
    requires Inv(m, kept) && LegalRun(m, events)
    ensures Inv(Run(m, events), KeptAfter(m, events, kept))
    decreases |events|
  {
    hide Inv, Next, Legal, Kept;
    if events != [] {
      StepKeeps(m, events[0], kept);
      RunKeeps(Next(m, events[0]), events[1..], Kept(m, events[0], kept));
    }
  }

  // ----- the table after a flush

  /** A file table that is in memory as it is, and the greatest number used. */
  function Loaded(table: map<nat, File>, last: nat): Meta {
    Meta(table, last, {}, {}, {}, Idle, table)
  }

  ghost predicate IsTable(table: map<nat, File>, last: nat) {
    forall k :: k in table ==> k <= last && table[k].seqNo == k
  }

  lemma LoadedOk(table: map<nat, File>, last: nat)
    requires IsTable(table, last)
    ensures Inv(Loaded(table, last), table.Keys)
  {
  }

  /** Nothing left to tell the database. */
  predicate Drained(m: Meta) {
    m.needCreated == {} && m.needUpdated == {} && m.needDeleted == {} && m.call.Idle?
  }

  lemma DrainedIsFilesIff(m: Meta, kept: set<nat>)
    requires Inv(m, kept) && Drained(m)
    ensures m.table.Keys == m.files.Keys
    ensures forall k :: k in m.files ==> (m.table[k] == m.files[k] <==> k in kept)
    ensures m.table == m.files <==> m.files.Keys <= kept
  {
    forall k ensures k in m.table <==> k in m.files {
      if k in m.files {
        assert Known(m, kept, k);
      }
    }
    forall k | k in m.files ensures m.table[k] == m.files[k] <==> k in kept {
      assert Known(m, kept, k);
    }
  }

  /** Whatever was added, updated and deleted, and however often the database failed meanwhile: once
      nothing is left to tell it, the file table has the files in memory, and is them exactly if the last
      write of each of them cleared no field that its row had. */
  lemma WriteBehindIff(table: map<nat, File>, last: nat, events: seq<Event>)
    requires IsTable(table, last) && LegalRun(Loaded(table, last), events) && Drained(Run(Loaded(table, last), events))
    ensures var m := Run(Loaded(table, last), events);
            var kept := KeptAfter(Loaded(table, last), events, table.Keys);
            && m.table.Keys == m.files.Keys
            && (forall k :: k in m.files ==> (m.table[k] == m.files[k] <==> k in kept))
            && (m.table == m.files <==> m.files.Keys <= kept)
  {
    hide Inv, Next, Legal, IsTable, Drained, Run, KeptAfter;
    LoadedOk(table, last);
    RunKeeps(Loaded(table, last), events, table.Keys);
    DrainedIsFilesIff(Run(Loaded(table, last), events), KeptAfter(Loaded(table, last), events, table.Keys));
  }

  // ----- updates that clear nothing

  /** An update keeps set fields set, and so does what is still written of earlier versions. */
  predicate Keeping(m: Meta, e: Event) {
    match e
    case UpdateFile(f) => f.seqNo in m.files ==> KeepsFields(m.files[f.seqNo], f)
    case CallSucceeds(written) =>
      (m.call.Creating? || m.call.Updating?) && m.call.key in m.files ==> KeepsFields(written, m.files[m.call.key])
    case _ => true
  }

  ghost predicate KeepingRun(m: Meta, events: seq<Event>)
    decreases |events|
  {
    events == [] || (Keeping(m, events[0]) && KeepingRun(Next(m, events[0]), events[1..]))
  }

  /** No row has a field that its file lacks, and no last write has cleared one. */
  ghost predicate Steady(m: Meta, kept: set<nat>) {
    forall k :: k in m.files && k in m.table ==>
      KeepsFields(m.table[k], m.files[k]) && (k in m.needUpdated || m.call == Updating(k) || k in kept)
  }

  lemma MergeKeeps(row: File, written: File, f: File)
    requires row.seqNo == written.seqNo && KeepsFields(row, f) && KeepsFields(written, f)
    ensures KeepsFields(Merge(row, written), f)
  {
  }

  lemma KeepsFieldsTransitive(a: File, b: File, d: File)
    requires KeepsFields(a, b) && KeepsFields(b, d)
    ensures KeepsFields(a, d)
  {
  }

  lemma SteadyStep(m: Meta, e: Event, kept: set<nat>)
    requires Inv(m, kept) && Steady(m, kept) && Legal(m, e) && Keeping(m, e)
    ensures Steady(Next(m, e), Kept(m, e, kept))
  {
    hide KeepsFields, Merge;
    if e.UpdateFile? && e.file.seqNo in m.files && e.file.seqNo in m.table {
      KeepsFieldsTransitive(m.table[e.file.seqNo], m.files[e.file.seqNo], e.file);
    }
    if e.CallSucceeds? && m.call.Updating? && m.call.key in m.files && m.call.key in m.table {
      MergeKeeps(m.table[m.call.key], e.written, m.files[m.call.key]);
    }
    forall k | k in m.files ensures Known(m, kept, k) {
    }
  }

  lemma {:induction false} SteadyRun(m: Meta, events: seq<Event>, kept: set<nat>)
    requires Inv(m, kept) && Steady(m, kept) && LegalRun(m, events) && KeepingRun(m, events)
    ensures Steady(Run(m, events), KeptAfter(m, events, kept))
    decreases |events|
  {
    hide Inv, Next, Legal, Kept, Steady, Keeping;
    if events != [] {
      StepKeeps(m, events[0], kept);
      SteadyStep(m, events[0], kept);
      SteadyRun(Next(m, events[0]), events[1..], Kept(m, events[0], kept));
    }
  }

  /** While no update clears a field, the table catches up with the files in memory. */
  lemma WriteBehindCatchesUp(table: map<nat, File>, last: nat, events: seq<Event>)
    requires IsTable(table, last) && LegalRun(Loaded(table, last), events) && KeepingRun(Loaded(table, last), events)
    requires Drained(Run(Loaded(table, last), events))
    ensures Run(Loaded(table, last), events).table == Run(Loaded(table, last), events).files
  {
    hide Inv, Next, Legal, Keeping, KeepsFields, Run, KeptAfter;
    LoadedOk(table, last);
    LoadedSteady(table, last);
    SteadyRun(Loaded(table, last), events, table.Keys);
    WriteBehindIff(table, last, events);
  }

  lemma LoadedSteady(table: map<nat, File>, last: nat)
    ensures Steady(Loaded(table, last), table.Keys)
  {
  }

  // ----- what goes wrong

  lemma RunOne(m: Meta, e: Event)
    ensures Run(m, [e]) == Next(m, e)
  {
    assert [e][1..] == [];
  }

  lemma RunCons(m: Meta, e: Event, rest: seq<Event>)
    ensures Run(m, [e] + rest) == Run(Next(m, e), rest)
  {
    assert ([e] + rest)[1..] == rest;
  }

  /** An update that clears a field does not reach the table. */
  lemma ClearedFieldStays()
    ensures var f := File(1, "a", 7, 1, 0, 0, 0); var g := f.(size := 0);
            var m := Run(Loaded(map[1 := f], 1), [UpdateFile(g)] + ([PickUpdated(1)] + [CallSucceeds(g)]));
            Drained(m) && m.table == map[1 := f] && m.files == map[1 := g] && f != g
  {
    var f := File(1, "a", 7, 1, 0, 0, 0);
    var g := f.(size := 0);
    var m0 := Loaded(map[1 := f], 1);
    RunCons(m0, UpdateFile(g), [PickUpdated(1)] + [CallSucceeds(g)]);
    var m1 := Next(m0, UpdateFile(g));
    RunCons(m1, PickUpdated(1), [CallSucceeds(g)]);
    RunOne(Next(m1, PickUpdated(1)), CallSucceeds(g));
  }

  /** A number used again is created, and the deletion that is due for it removes it. */
  function LosingRun(f: File): seq<Event> {
    [AddFile(f)] + ([PickCreated(f.seqNo)] + ([CallSucceeds(f)] + ([PickDeleted(f.seqNo)] + [CallSucceeds(f)])))
  }

  /** The file is in memory, not in the table, and nothing is due for it. */
  predicate IsLost(m: Meta, n: nat) {
    n in m.files && n !in m.table && n !in m.needCreated && n !in m.needUpdated && n !in m.needDeleted && m.call.Idle?
  }

  lemma ReuseSteps(m: Meta, f: File)
    requires m.call.Idle? && f.seqNo in m.needDeleted && f.seqNo !in m.needUpdated
    ensures Run(m, LosingRun(f)).files == m.files[f.seqNo := f] && IsLost(Run(m, LosingRun(f)), f.seqNo)
  {
    var n := f.seqNo;
    hide Run;
    RunCons(m, AddFile(f), [PickCreated(n)] + ([CallSucceeds(f)] + ([PickDeleted(n)] + [CallSucceeds(f)])));
    var m1 := Next(m, AddFile(f));
    RunCons(m1, PickCreated(n), [CallSucceeds(f)] + ([PickDeleted(n)] + [CallSucceeds(f)]));
    var m2 := Next(m1, PickCreated(n));
    RunCons(m2, CallSucceeds(f), [PickDeleted(n)] + [CallSucceeds(f)]);
    var m3 := Next(m2, CallSucceeds(f));
    RunCons(m3, PickDeleted(n), [CallSucceeds(f)]);
    RunOne(Next(m3, PickDeleted(n)), CallSucceeds(f));
  }

  /** A number that is not free loses its new file: in a run in which its creation succeeds, the deletion that
      was due for the old file removes the row, and nothing is due for the file any more. A deletion under way
      becomes due again when it fails. */
  lemma ReusedNumberIsLost(m: Meta, kept: set<nat>, f: File)
    requires Inv(m, kept) && (forall k :: k in m.files ==> k < f.seqNo) && !Free(m, f.seqNo)
    requires m.call.Idle? || m.call == Deleting(f.seqNo)
    ensures var m1 := Run(if m.call.Idle? then m else Next(m, CallFails), LosingRun(f));
            m1.files == m.files[f.seqNo := f] && IsLost(m1, f.seqNo)
  {
    hide Run, LosingRun, IsLost, Known;
    ReuseSteps(if m.call.Idle? then m else Next(m, CallFails), f);
  }

  /** Once the only file in memory is deleted, NewFile gives its number again, and it is not free. */
  lemma ReuseIsPossible(f: File)
    requires f.seqNo == 1
    ensures var m := Next(Next(Loaded(map[], 0), AddFile(f)), DeleteFiles(1));
            IsNext(m.files, 1) && !Free(m, 1) && m.call.Idle? && Inv(m, {})
  {
    var m := Next(Next(Loaded(map[], 0), AddFile(f)), DeleteFiles(1));
    assert m.files == map[] && m.needCreated == {} && m.needDeleted == {1};
  }
}
