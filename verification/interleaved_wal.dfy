/**
 The WAL over interleavings: entry ids are reused as row ids are, and a task that outlives its file can
 remove the entry of another one.
 */
module InterleavedWal {
  import opened Paths
  import opened Tiers
  import opened Store
  import opened Protocol
  import opened SerialRuns
  import opened WalProperties
  import opened Interleaving
  import opened ReplayConfluence
  import opened SoloTasks
  import opened Scenarios
  import opened CrashReplay

  /** Deleting the one file of the store takes both its entries along. */
  lemma DeleteEmptiesWal(s: State, p: FvfsPath, d: Bytes, on: TierBitmask)
    requires Shape(s, p, d, on, BOTH_ENTRIES)
    ensures
      var s' := Delete(s, p, HEALTHY).0;
      s'.db.wal == map[] && s'.db.rows == s.db.rows - {p}
  {
    hide UniqueIds, References;
  }

  /** The rows of a store with one file are the file and its ancestors. */
  lemma WrittenKeys(p: FvfsPath, d: Bytes)
    ensures Run(WrittenRun(p, d)).db.rows.Keys == {p} + Ancestors(p)
  {
    RunFromSnoc(INITIAL_STATE, [], WriteEv(p, d, false));
    assert [] + [WriteEv(p, d, false)] == WrittenRun(p, d);
    WriteRows(INITIAL_STATE, p, d);
    hide Write, RunFrom, UniqueIds, References;
  }

  /** Write `p`, let its upload run up to the removal of its entry, delete `p`, write the new path `q`, and go on. */
  function LateRemoval(p: FvfsPath, q: FvfsPath, d: Bytes, e: Bytes): seq<Move> {
    [Operate(WriteEv(p, d, false))] + Begun(Run(WrittenRun(p, d)), 0, UploadLookup(2, 1), HEALTHY, false, 7)
    + [Operate(DeleteEv(p, HEALTHY))] + [Operate(WriteEv(q, e, false))] + [Proceed(0, false)]
  }

  /** An upload of the file just written, up to the removal of its entry. */
  lemma UploadSteps(s: State, p: FvfsPath, d: Bytes)
    requires Truthful(s) && Shape(s, p, d, {Local}, BOTH_ENTRIES)
    ensures
      var (s', task') := Advanced(s, UploadLookup(2, 1), HEALTHY, false, 7);
      && task' == Complete(2) && s'.db.rows.Keys == s.db.rows.Keys
      && Shape(s', p, d, {Local, S3}, BOTH_ENTRIES)
  {
    hide Advanced, Upload, Truthful, UniqueIds, References;
    ShapeId(s, p, d, {Local}, BOTH_ENTRIES);
    CutUpload(s, 2, p);
    UploadTables(s, p, HEALTHY, false);
    hide Shape;
    RanShape(s, p, d, {Local}, BOTH_ENTRIES, 2);
    assert {Local} + {S3} == {Local, S3};
  }

  /** The upload stands right before the removal of entry 2, and the store has the file and its ancestors. */
  ghost predicate AboutToRemove(ms: seq<Move>, p: FvfsPath, d: Bytes) {
    && Exec(ms).tasks == map[0 := Complete(2)]
    && Shape(Exec(ms).st, p, d, {Local, S3}, BOTH_ENTRIES) && Exec(ms).st.db.rows.Keys == {p} + Ancestors(p)
  }

  lemma UploadBegun(p: FvfsPath, d: Bytes)
    ensures AboutToRemove([Operate(WriteEv(p, d, false))]
                          + Begun(Run(WrittenRun(p, d)), 0, UploadLookup(2, 1), HEALTHY, false, 7), p, d)
  {
    hide Exec, Advanced, Begun, Shape, Run, Inv, Truthful, UniqueIds, References;
    var m0, s := [Operate(WriteEv(p, d, false))], Run(WrittenRun(p, d));
    WriteMove(p, d);
    Written(p, d);
    WrittenKeys(p, d);
    RunInvariant(WrittenRun(p, d));
    InvStarts(s);
    UploadSteps(s, p, d);
    ExecBegun(m0, 0, UploadLookup(2, 1), HEALTHY, false, 7);
  }

  /** Then the file is deleted and another written: that one's upload is entry 2 now. */
  lemma Rewritten(ms: seq<Move>, p: FvfsPath, q: FvfsPath, d: Bytes, e: Bytes)
    requires AboutToRemove(ms, p, d) && q !in Ancestors(p)
    ensures
      var sys := Exec(ms + [Operate(DeleteEv(p, HEALTHY))] + [Operate(WriteEv(q, e, false))]);
      && sys.tasks == map[0 := Complete(2)] && IsFile(sys.st, q) && sys.st.db.rows[q].bitmask == {Local}
      && sys.st.db.wal == map[1 := WalEntry(sys.st.db.rows[q].id, ReplicateNas, sys.st.clock, 0),
                              2 := WalEntry(sys.st.db.rows[q].id, UploadS3, sys.st.clock, 0)]
  {
    hide Exec, Shape, Write, Delete, UniqueIds, References;
    OperateMove(ms, DeleteEv(p, HEALTHY));
    OperateMove(ms + [Operate(DeleteEv(p, HEALTHY))], WriteEv(q, e, false));
    RewrittenState(Exec(ms).st, p, q, d, e);
  }

  lemma OperateMove(ms: seq<Move>, e: Event)
    requires Exec(ms).tasks == map[0 := Complete(2)] && UserChange(e)
    ensures
      var sys := Exec(ms + [Operate(e)]);
      sys.st == Step(Exec(ms).st, e) && sys.tasks == map[0 := Complete(2)]
  {
    hide Exec, Step, UniqueIds, References;
    ExecSnoc(ms, Operate(e));
    assert Quiet(Exec(ms), e.path);
  }

  lemma RewrittenState(s: State, p: FvfsPath, q: FvfsPath, d: Bytes, e: Bytes)
    requires Shape(s, p, d, {Local, S3}, BOTH_ENTRIES) && s.db.rows.Keys == {p} + Ancestors(p) && q !in Ancestors(p)
    ensures
      var s' := Write(Delete(s, p, HEALTHY).0, q, e, false).0;
      && IsFile(s', q) && s'.db.rows[q].bitmask == {Local}
      && s'.db.wal == map[1 := WalEntry(s'.db.rows[q].id, ReplicateNas, s'.clock, 0),
                          2 := WalEntry(s'.db.rows[q].id, UploadS3, s'.clock, 0)]
  {
    hide Shape, Delete, UniqueIds, References, Ancestors;
    DeleteEmptiesWal(s, p, d, {Local, S3});
    WriteIntoEmptyWal(Delete(s, p, HEALTHY).0, q, e);
  }

  /**
   No path is ever overwritten, and yet the new file ends without a pending upload and without a copy on S3:
   the late removal took the entry that had got the old one's id.
   */
  lemma LateRemovalUncovers(p: FvfsPath, q: FvfsPath, d: Bytes, e: Bytes)
    requires q !in Ancestors(p)
    ensures
      var s := Exec(LateRemoval(p, q, d, e)).st;
      && IsFile(s, q) && S3 !in s.db.rows[q].bitmask && !Pending(s.db.wal, s.db.rows[q].id, UploadS3)
      && !Covered(s)
  {
    hide Exec, Begun, Run, AboutToRemove, Covered, Pending, UniqueIds, References;
    UploadBegun(p, d);
    var ms := [Operate(WriteEv(p, d, false))] + Begun(Run(WrittenRun(p, d)), 0, UploadLookup(2, 1), HEALTHY, false, 7);
    Rewritten(ms, p, q, d, e);
    var m3 := ms + [Operate(DeleteEv(p, HEALTHY))] + [Operate(WriteEv(q, e, false))];
    ExecSnoc(m3, Proceed(0, false));
    RemovedLast(Exec(m3).st, q);
  }

  lemma RemovedLast(s: State, q: FvfsPath)
    requires IsFile(s, q) && s.db.rows[q].bitmask == {Local}
    requires s.db.wal == map[1 := WalEntry(s.db.rows[q].id, ReplicateNas, s.clock, 0),
                             2 := WalEntry(s.db.rows[q].id, UploadS3, s.clock, 0)]
    ensures
      var s' := Advance(s, Complete(2), false).0;
      && IsFile(s', q) && S3 !in s'.db.rows[q].bitmask && !Pending(s'.db.wal, s'.db.rows[q].id, UploadS3)
      && !Covered(s')
  {
    hide UniqueIds, References;
    var s' := Advance(s, Complete(2), false).0;
    assert s'.db.wal == map[1 := WalEntry(s.db.rows[q].id, ReplicateNas, s.clock, 0)];
    assert !CoveredAt(s', q);
  }
}
