/** What single calls do to the file records of storage/meta/db-meta-manager.go, and that what they do reaches the
    table once the database answers. */
module FileLaws {
  import opened FileMeta

  // ----- the files in memory

  lemma Added(m: Meta, f: File)
    ensures Next(m, AddFile(f)).files == m.files[f.seqNo := f]
  {
  }

  /** An update replaces the file of its number, and nothing if there is none. */
  lemma Updated(m: Meta, f: File)
    ensures Next(m, UpdateFile(f)).files.Keys == m.files.Keys
    ensures forall k :: k in m.files ==> Next(m, UpdateFile(f)).files[k] == if k == f.seqNo then f else m.files[k]
  {
  }

  /** A deletion takes exactly the files up to its number. */
  lemma Deleted(m: Meta, n: nat)
    ensures var files := Next(m, DeleteFiles(n)).files;
            && (forall k :: k in files <==> k in m.files && k > n)
            && forall k :: k in files ==> files[k] == m.files[k]
  {
  }

  // ----- what reaches the table

  /** Field by field, an update writes what is not zero or empty. */
  lemma MergedFields(row: File, f: File)
    ensures var g := Merge(row, f);
            && g.seqNo == row.seqNo && g.path == (if f.path == "" then row.path else f.path)
            && g.size == (if f.size == 0 then row.size else f.size)
            && g.createTime == (if f.createTime == 0 then row.createTime else f.createTime)
            && g.startTime == (if f.startTime == 0 then row.startTime else f.startTime)
            && g.endTime == (if f.endTime == 0 then row.endTime else f.endTime)
            && g.state == (if f.state == 0 then row.state else f.state)
  {
  }

  /** A file that is added is what the table has once its creation was picked and has succeeded. */
  lemma CreationReaches(m: Meta, kept: set<nat>, f: File)
    requires Inv(m, kept) && m.call.Idle? && Legal(m, AddFile(f))
    ensures var m1 := Next(Next(Next(m, AddFile(f)), PickCreated(f.seqNo)), CallSucceeds(f));
            m1.call.Idle? && m1.table == m.table[f.seqNo := f] && m1.files == m.files[f.seqNo := f]
  {
    hide Known;
  }

  /** An update of a file whose creation is not due is what the table has once it was picked and has succeeded, if no
      field is cleared. */
  lemma UpdateReaches(m: Meta, kept: set<nat>, f: File)
    requires Inv(m, kept) && m.call.Idle? && f.seqNo in m.files && f.seqNo !in m.needCreated
    ensures f.seqNo in m.table
    ensures var m1 := Next(Next(Next(m, UpdateFile(f)), PickUpdated(f.seqNo)), CallSucceeds(f));
            && m1.call.Idle? && m1.table == m.table[f.seqNo := Merge(m.table[f.seqNo], f)]
            && (m1.table[f.seqNo] == f <==> KeepsFields(m.table[f.seqNo], f))
  {
    hide KeepsFields, Merge;
    assert Known(m, kept, f.seqNo);
    MergeIsLaterIff(m.table[f.seqNo], f);
  }

  /** An update of a file whose creation is due is what is created. */
  lemma UpdateIsCreated(m: Meta, kept: set<nat>, f: File)
    requires Inv(m, kept) && m.call.Idle? && f.seqNo in m.needCreated
    ensures var m1 := Next(m, UpdateFile(f));
            && m1.needUpdated == m.needUpdated && f.seqNo in m1.needCreated
            && Next(Next(m1, PickCreated(f.seqNo)), CallSucceeds(f)).table == m.table[f.seqNo := f]
  {
    hide Known;
  }

  /** A file that is deleted is gone from the table once its deletion was picked and has succeeded, and no other
      row is. */
  lemma DeletionReaches(m: Meta, kept: set<nat>, n: nat, k: nat, answer: File)
    requires Inv(m, kept) && m.call.Idle? && k in m.files && k <= n
    ensures var m1 := Next(Next(Next(m, DeleteFiles(n)), PickDeleted(k)), CallSucceeds(answer));
            m1.call.Idle? && m1.table == m.table - {k} && k !in m1.files
  {
    hide Known;
  }

  /** A call that fails leaves the table as it was, and is due again if its file is still there; a deletion always is. */
  lemma FailureIsDue(m: Meta)
    ensures var m1 := Next(m, CallFails);
            && m1.table == m.table && m1.files == m.files && m1.call.Idle?
            && (m.call.Creating? ==> (m.call.key in m.files ==> m.call.key in m1.needCreated))
            && (m.call.Updating? ==> (m.call.key in m.files ==> m.call.key in m1.needUpdated))
            && (m.call.Deleting? ==> m.call.key in m1.needDeleted)
  {
  }
}
