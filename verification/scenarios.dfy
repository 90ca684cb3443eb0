/**
 Runs that show each shortcoming of the code happening, from an empty store and for every path and
 content, beside the conditions proved in the other modules.
 */
module Scenarios {
  import opened Results
  import opened Paths
  import opened Tiers
  import opened Store
  import opened Protocol
  import opened SerialRuns
  import opened WalProperties
  import opened ReplayConfluence
  import opened Interleaving
  import opened SoloTasks
  import opened BlockedReads
  import Fuse

  // ---- A file on its way through the tiers

  function WrittenRun(p: FvfsPath, d: Bytes): seq<Event> {
    [WriteEv(p, d, false)]
  }

  function UploadedRun(p: FvfsPath, d: Bytes): seq<Event> {
    WrittenRun(p, d) + [AttemptEv(2, HEALTHY, false)]
  }

  function ReplicatedRun(p: FvfsPath, d: Bytes): seq<Event> {
    WrittenRun(p, d) + [AttemptEv(1, HEALTHY, false)]
  }

  function EverywhereRun(p: FvfsPath, d: Bytes): seq<Event> {
    ReplicatedRun(p, d) + [AttemptEv(2, HEALTHY, false)]
  }

  function ColdRun(p: FvfsPath, d: Bytes): seq<Event> {
    EverywhereRun(p, d) + [EvictEv(p, Local, false)]
  }

  /** The one file of the store, in row 1, with its copies and its pending entries. */
  ghost predicate Shape(s: State, p: FvfsPath, d: Bytes, on: TierBitmask, wal: Wal) {
    && p in s.db.rows && s.db.rows[p].id == 1 && s.db.rows[p].kind.File?
    && s.db.rows[p].hash == Sha256(d) && s.db.rows[p].bitmask == on && s.db.wal == wal
    && s.local == (if Local in on then map[p := d] else map[])
    && s.nas == (if Nas in on then map[p := d] else map[])
    && s.s3 == (if S3 in on then map[p := d] else map[])
  }

  const REPLICATE_FIRST := WalEntry(1, ReplicateNas, 0, 0)
  const UPLOAD_FIRST := WalEntry(1, UploadS3, 0, 0)

  lemma Written(p: FvfsPath, d: Bytes)
    ensures Shape(Run(WrittenRun(p, d)), p, d, {Local}, map[1 := REPLICATE_FIRST, 2 := UPLOAD_FIRST])
  {
    FirstWrite(p, d);
    RunFromSnoc(INITIAL_STATE, [], WriteEv(p, d, false));
    assert [] + [WriteEv(p, d, false)] == WrittenRun(p, d);
  }

  /** A healthy attempt at one of the two entries. */
  lemma Attempted(es: seq<Event>, p: FvfsPath, d: Bytes, on: TierBitmask, wal: Wal, w: nat)
    requires Shape(Run(es), p, d, on, wal) && Local in on && w in wal && wal[w].attempts == 0 && wal[w].fileId == 1
    requires TierOf(wal[w].op) !in on
    ensures Shape(Run(es + [AttemptEv(w, HEALTHY, false)]), p, d, on + {TierOf(wal[w].op)}, wal - {w})
  {
    hide Attempt, Shape, Inv, Run, UniqueIds, References;
    RunInvariant(es);
    RunSnoc(es, w);
    AttemptedState(Run(es), p, d, on, wal, w);
  }

  lemma RunSnoc(es: seq<Event>, w: nat)
    ensures Run(es + [AttemptEv(w, HEALTHY, false)]) == Attempt(Run(es), w, HEALTHY, false)
  {
    hide Attempt, RunFrom, UniqueIds, References;
    RunFromSnoc(INITIAL_STATE, es, AttemptEv(w, HEALTHY, false));
  }

  lemma AttemptedState(s: State, p: FvfsPath, d: Bytes, on: TierBitmask, wal: Wal, w: nat)
    requires Inv(s) && Shape(s, p, d, on, wal) && Local in on
    requires w in wal && wal[w].attempts == 0 && wal[w].fileId == 1 && TierOf(wal[w].op) !in on
    ensures Shape(Attempt(s, w, HEALTHY, false), p, d, on + {TierOf(wal[w].op)}, wal - {w})
  {
    assert Target(s, w) == p;
    hide Attempt, Inv, UniqueIds, References, Target;
    InvStarts(s);
    HealthyAttempt(s, w, p);
  }

  lemma Uploaded(p: FvfsPath, d: Bytes)
    ensures Shape(Run(UploadedRun(p, d)), p, d, {Local, S3}, map[1 := REPLICATE_FIRST])
  {
    hide Shape, Run;
    Written(p, d);
    var wal := map[1 := REPLICATE_FIRST, 2 := UPLOAD_FIRST];
    Attempted(WrittenRun(p, d), p, d, {Local}, wal, 2);
    assert {Local} + {S3} == {Local, S3} && wal - {2} == map[1 := REPLICATE_FIRST];
  }

  lemma Everywhere(p: FvfsPath, d: Bytes)
    ensures Shape(Run(ReplicatedRun(p, d)), p, d, {Local, Nas}, map[2 := UPLOAD_FIRST])
    ensures Shape(Run(EverywhereRun(p, d)), p, d, {Local, Nas, S3}, map[])
  {
    hide Shape, Run;
    Written(p, d);
    var wal := map[1 := REPLICATE_FIRST, 2 := UPLOAD_FIRST];
    Attempted(WrittenRun(p, d), p, d, {Local}, wal, 1);
    assert {Local} + {Nas} == {Local, Nas} && wal - {1} == map[2 := UPLOAD_FIRST];
    Attempted(ReplicatedRun(p, d), p, d, {Local, Nas}, map[2 := UPLOAD_FIRST], 2);
    assert {Local, Nas} + {S3} == {Local, Nas, S3} && map[2 := UPLOAD_FIRST] - {2} == map[];
  }

  /** Evicting the local copy of a file that S3 holds. */
  lemma LocalEvicted(s: State, p: FvfsPath, d: Bytes, on: TierBitmask, wal: Wal)
    requires Shape(s, p, d, on, wal) && {Local, S3} <= on
    ensures Evict(s, p, Local, false).1.Ok? && Shape(Evict(s, p, Local, false).0, p, d, on - {Local}, wal)
  {
    assert S3 in on;
    SetBitmaskOne(s.db, p, on - {Local});
    hide UniqueIds, References;
    assert map[p := d] - {p} == map[];
  }

  lemma Cold(p: FvfsPath, d: Bytes)
    ensures Shape(Run(ColdRun(p, d)), p, d, {Nas, S3}, map[])
  {
    hide Shape, Evict;
    Everywhere(p, d);
    LocalEvicted(Run(EverywhereRun(p, d)), p, d, {Local, Nas, S3}, map[]);
    RunFromSnoc(INITIAL_STATE, EverywhereRun(p, d), EvictEv(p, Local, false));
    assert {Local, Nas, S3} - {Local} == {Nas, S3};
  }

  // ---- Stale copies, evictions without a NAS copy

  /** Write, upload, write again: S3 holds the first version of a file that is the second. */
  lemma StaleCopy(p: FvfsPath, v1: Bytes, v2: Bytes)
    ensures
      var es := UploadedRun(p, v1) + [WriteEv(p, v2, false)];
      && p in SpecRun(es) && SpecRun(es)[p] == FileNode(v2)
      && Holds(Run(es).s3, p, v1) && S3 !in Run(es).db.rows[p].bitmask
  {
    Uploaded(p, v1);
    WriteLeavesColdCopies(UploadedRun(p, v1), p, v2);
  }

  /**
   Eviction asks for a copy on S3 alone: a file the NAS never held loses its local copy, and S3 is then the
   only tier that has it.
   */
  lemma EvictedWithoutNas(p: FvfsPath, d: Bytes)
    ensures
      var s := Run(UploadedRun(p, d));
      && p in s.db.rows && !(ColderThan(Local) <= s.db.rows[p].bitmask)
      && Evict(s, p, Local, false).1.Ok?
      && Shape(Evict(s, p, Local, false).0, p, d, {S3}, map[1 := REPLICATE_FIRST])
  {
    Uploaded(p, d);
    LocalEvicted(Run(UploadedRun(p, d)), p, d, {Local, S3}, map[1 := REPLICATE_FIRST]);
    assert {Local, S3} - {Local} == {S3};
    assert Nas in ColderThan(Local);
  }

  // ---- A stalled eviction

  /** The moves that write a file, copy it to both colder tiers and evict it from the local disk. */
  function ReplicatedMoves(p: FvfsPath, d: Bytes): seq<Move> {
    [Operate(WriteEv(p, d, false))] + Solo(Run(WrittenRun(p, d)), 0, ReplicateLookup(1, 1), HEALTHY, false)
  }

  function EverywhereMoves(p: FvfsPath, d: Bytes): seq<Move> {
    ReplicatedMoves(p, d) + Solo(Run(ReplicatedRun(p, d)), 0, UploadLookup(2, 1), HEALTHY, false)
  }

  function ColdMoves(p: FvfsPath, d: Bytes): seq<Move> {
    EverywhereMoves(p, d) + Solo(Run(EverywhereRun(p, d)), 0, EvictLookup(p, Local), HEALTHY, false)
  }

  /** No task is under way and the store is as after the serialised run. */
  ghost predicate At(ms: seq<Move>, es: seq<Event>) {
    Exec(ms).st == Run(es) && Exec(ms).tasks == map[]
  }

  lemma WriteMove(p: FvfsPath, d: Bytes)
    ensures At([Operate(WriteEv(p, d, false))], WrittenRun(p, d))
  {
    var e := WriteEv(p, d, false);
    ExecSnoc([], Operate(e));
    assert [] + [Operate(e)] == [Operate(e)];
    assert Quiet(BOOT, p);
    RunFromSnoc(INITIAL_STATE, [], e);
    assert [] + [e] == WrittenRun(p, d);
  }

  /** A task run alone, whose end is a step of the serialised run, takes both one further. */
  lemma SoloAt(ms: seq<Move>, es: seq<Event>, task: Task, e: Event)
    requires At(ms, es) && Starting(task) && Finish(Run(es), task, HEALTHY, false).0 == Step(Run(es), e)
    ensures At(ms + Solo(Run(es), 0, task, HEALTHY, false), es + [e])
  {
    hide Exec, Finish, Solo, RunFrom, Starting, Step, UniqueIds, References;
    ExecSolo(ms, 0, task, HEALTHY, false);
    RunFromSnoc(INITIAL_STATE, es, e);
  }

  /** A live entry worked off by a task of its own is a healthy attempt of the serialised run. */
  lemma EntryMoves(ms: seq<Move>, es: seq<Event>, w: nat)
    requires At(ms, es) && Live(Run(es), w)
    ensures At(ms + Solo(Run(es), 0, EntryTask(w, Run(es).db.wal[w]), HEALTHY, false),
               es + [AttemptEv(w, HEALTHY, false)])
  {
    hide At, Finish, Solo, Run, Attempt, EntryTask, UniqueIds, References;
    SoloEntry(Run(es), w, HEALTHY, false);
    SoloAt(ms, es, EntryTask(w, Run(es).db.wal[w]), AttemptEv(w, HEALTHY, false));
  }

  lemma ColdReached(p: FvfsPath, d: Bytes)
    ensures At(ColdMoves(p, d), ColdRun(p, d))
  {
    hide At, Finish, Solo, Attempt, Evict, Run, UniqueIds, References;
    Written(p, d);
    Everywhere(p, d);
    WriteMove(p, d);
    EntryMoves([Operate(WriteEv(p, d, false))], WrittenRun(p, d), 1);
    EntryMoves(ReplicatedMoves(p, d), ReplicatedRun(p, d), 2);
    SoloEvict(Run(EverywhereRun(p, d)), p, Local, HEALTHY, false);
    SoloAt(EverywhereMoves(p, d), EverywhereRun(p, d), EvictLookup(p, Local), EvictEv(p, Local, false));
  }

  /** For every path and content: written, copied to the NAS and S3, evicted from local, and then lost to readers. */
  lemma StalledEvictionHappens(p: FvfsPath, d: Bytes, more: seq<Move>, f: Faults)
    requires forall m | m in more :: LeavesPath(m, p)
    ensures
      var sys := Exec(ColdMoves(p, d) + StalledEviction(0, p) + more);
      && Read(sys.st, p, f).1.Err?
      && IsFile(sys.st, p) && Holds(sys.st.s3, p, Current(sys.st, p))
  {
    Cold(p, d);
    ColdReached(p, d);
    hide Exec, Run, ColdMoves, Read, UniqueIds, References, LeavesPath;
    StalledEvictionBlocksReads(ColdMoves(p, d), 0, p, more, f);
  }

  // ---- Orphans, reused ids, lost bytes

  /** Writing a path and deleting its parent leaves the path in the index without the parent. */
  lemma DeleteOrphans(p: FvfsPath, d: Bytes)
    requires p != "/"
    ensures
      var s := Run([WriteEv(p, d, false), DeleteEv(Parent(p).value, HEALTHY)]);
      p in s.db.rows && Parent(p).value !in s.db.rows
  {
    hide Run, SpecRun, SpecStep, Inv, UniqueIds, References;
    var a, b := WriteEv(p, d, false), DeleteEv(Parent(p).value, HEALTHY);
    OrphanInTree(p, d);
    RunInvariant([a, b]);
    assert Abs(Run([a, b]).db.rows).Keys == Run([a, b]).db.rows.Keys;
  }

  lemma OrphanInTree(p: FvfsPath, d: Bytes)
    requires p != "/"
    ensures
      var m := SpecRun([WriteEv(p, d, false), DeleteEv(Parent(p).value, HEALTHY)]);
      p in m && Parent(p).value !in m
  {
    hide Ancestors, SpecRun;
    var a, b := WriteEv(p, d, false), DeleteEv(Parent(p).value, HEALTHY);
    SpecRunSnoc([a], b);
    SpecRunSnoc([], a);
    assert [a] + [b] == [a, b] && [] + [a] == [a];
  }

  /** A row id comes back: two children of the root, one written after the other was deleted, get the same. */
  lemma RowIdReused(p: FvfsPath, q: FvfsPath, d1: Bytes, d2: Bytes)
    requires p != "/" && q != "/" && Parent(p) == Parent(q) == Some(ROOT)
    ensures
      var es := [MkdirEv(ROOT), WriteEv(p, d1, false)];
      var es' := es + [DeleteEv(p, HEALTHY)] + [WriteEv(q, d2, false)];
      && p in Run(es).db.rows && q in Run(es').db.rows && Run(es).db.rows[p].id == Run(es').db.rows[q].id == 2
  {
    hide Write, Mkdir, Delete, UniqueIds, References, RunFrom;
    var s1 := Mkdir(INITIAL_STATE, ROOT);
    RunEmpty();
    var es := [MkdirEv(ROOT), WriteEv(p, d1, false)];
    assert [] + [MkdirEv(ROOT)] == [MkdirEv(ROOT)] && [MkdirEv(ROOT)] + [WriteEv(p, d1, false)] == es;
    RunFromSnoc(INITIAL_STATE, [], MkdirEv(ROOT));
    RunFromSnoc(INITIAL_STATE, [MkdirEv(ROOT)], WriteEv(p, d1, false));
    RunFromSnoc(INITIAL_STATE, es, DeleteEv(p, HEALTHY));
    RunFromSnoc(INITIAL_STATE, es + [DeleteEv(p, HEALTHY)], WriteEv(q, d2, false));
    RootOnly(s1);
    WriteBelowRoot(s1, p, d1);
    var s2 := Run(es);
    var s3 := Run(es + [DeleteEv(p, HEALTHY)]);
    DeleteRows(s2, p);
    assert s3.db.rows.Keys == {ROOT};
    WriteBelowRoot(s3, q, d2);
  }

  lemma RunEmpty()
    ensures Run([]) == INITIAL_STATE
  {
  }

  lemma DeleteRows(s: State, p: FvfsPath)
    requires p in s.db.rows
    ensures Delete(s, p, HEALTHY).0.db.rows == s.db.rows - {p}
  {
    hide UniqueIds, References;
  }

  lemma RootOnly(s: State)
    requires s == Mkdir(INITIAL_STATE, ROOT)
    ensures s.db.rows.Keys == {ROOT} && s.db.rows[ROOT].id == 1
  {
    assert Ids(map[]) == {};
  }

  lemma WriteBelowRoot(s: State, p: FvfsPath, d: Bytes)
    requires s.db.rows.Keys == {ROOT} && s.db.rows[ROOT].id == 1
    requires p != "/" && Parent(p) == Some(ROOT)
    ensures
      var rows := Write(s, p, d, false).0.db.rows;
      rows.Keys == {ROOT, p} && rows[ROOT].id == 1 && rows[p].id == 2
  {
    assert Ids(s.db.rows) == {1} by { assert ROOT in s.db.rows; }
    var db1 := Upserted(s.db, p, FileRow(d, s.clock));
    assert db1.lastRowid == 2;
    assert Ancestors(ROOT) == {};
    assert Ancestors(p) == {ROOT};
    EnqueueBothKeepsRows(EnsureParents(db1, p, s.clock), db1.lastRowid, s.clock);
  }

  /** A FUSE write to a file whose only copy cannot be read for a moment: the splice starts from nothing. */
  lemma FailedReadRun(p: FvfsPath, d: Bytes, w: Fuse.Pwrite)
    ensures
      var q := Fuse.Request(w, Faults(true, false, false), false);
      var after := SpecRun(Fuse.Handled(WrittenRun(p, d), p, [q]));
      && p in after && after[p] == FileNode(Fuse.Splice([], w))
      && (after[p] == FileNode(Fuse.Splice(d, w)) <==>
            |d| <= w.End() && forall k | 0 <= k < |d| && k < w.offset :: d[k] == 0)
  {
    var f := Faults(true, false, false);
    var q := Fuse.Request(w, f, false);
    var es := WrittenRun(p, d);
    Written(p, d);
    UnreadableLocal(Run(es), p, d, map[1 := REPLICATE_FIRST, 2 := UPLOAD_FIRST]);
    hide Fuse.Splice, Read, Run, UniqueIds, References;
    var e := WriteEv(p, Fuse.Splice([], w), false);
    assert [q][..0] == [];
    assert Fuse.Handled(es, p, []) == es;
    assert Fuse.Handled(es, p, [q]) == es + [ReadEv(p, f)] + [e];
    SpecRunSnoc(es, ReadEv(p, f));
    SpecRunSnoc(es + [ReadEv(p, f)], e);
    Fuse.FailedReadLosesBytes(d, w);
  }

  lemma UnreadableLocal(s: State, p: FvfsPath, d: Bytes, wal: Wal)
    requires Shape(s, p, d, {Local}, wal)
    ensures Read(s, p, Faults(true, false, false)).1.Err?
  {
    hide UniqueIds, References;
  }
}
