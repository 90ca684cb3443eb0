/**
 The WAL over serialised runs: which files it covers, which file an entry denotes once row ids have
 been reused, and how often an entry can be tried.
 */
module WalProperties {
  import opened Results
  import opened Paths
  import opened Tiers
  import opened Store
  import opened Protocol
  import opened SerialRuns

  // ---- Coverage

  predicate Pending(wal: Wal, id: nat, op: WalOp) {
    exists w :: w in wal && wal[w].fileId == id && wal[w].op == op
  }

  /** A file is marked on S3, or its upload is pending (perhaps out of attempts). */
  predicate CoveredAt(s: State, p: FvfsPath)
    requires p in s.db.rows
  {
    var r := s.db.rows[p];
    r.kind.File? ==> S3 in r.bitmask || Pending(s.db.wal, r.id, UploadS3)
  }

  ghost predicate Covered(s: State) {
    forall p | p in s.db.rows :: CoveredAt(s, p)
  }

  /**
   What a caller can check before a write: the path is new, or its row happens to be the one
   inserted last, or an upload of it is still pending.
   */
  predicate WriteGuard(s: State, p: FvfsPath) {
    || p !in s.db.rows
    || s.db.lastRowid == s.db.rows[p].id
    || Pending(s.db.wal, s.db.rows[p].id, UploadS3)
  }

  /** Entries of `wal'` extend those of `wal`. */
  predicate Extends(wal: Wal, wal': Wal) {
    forall w | w in wal :: w in wal' && wal'[w] == wal[w]
  }

  lemma ExtendsKeepsPending(wal: Wal, wal': Wal, id: nat, op: WalOp)
    requires Extends(wal, wal') && Pending(wal, id, op)
    ensures Pending(wal', id, op)
  {
    var w :| w in wal && wal[w].fileId == id && wal[w].op == op;
    assert w in wal' && wal'[w].fileId == id && wal'[w].op == op;
  }

  lemma EnqueueBothEntries(db: Db, fileId: nat, now: int)
    ensures
      var db' := EnqueueBoth(db, fileId, now).0;
      && db'.rows == db.rows && Extends(db.wal, db'.wal)
      && (HasId(db.rows, fileId) <==> EnqueueBoth(db, fileId, now).1.Ok?)
      && (forall w | w in db'.wal && w !in db.wal :: db'.wal[w].fileId == fileId && db'.wal[w].attempts == 0)
      && (HasId(db.rows, fileId) ==> Pending(db'.wal, fileId, UploadS3))
  {
    if HasId(db.rows, fileId) {
      var db1 := Enqueue(db, fileId, ReplicateNas, now).value;
      var db2 := Enqueue(db1, fileId, UploadS3, now).value;
      assert db2.lastRowid in db2.wal && db2.wal[db2.lastRowid] == WalEntry(fileId, UploadS3, now, 0);
    }
  }

  /** The two tables after a write, by the id the two entries are queued under. */
  lemma WriteTables(s: State, p: FvfsPath, d: Bytes)
    ensures
      var s' := Write(s, p, d, false).0;
      var id := if p in s.db.rows then s.db.lastRowid else s'.db.rows[p].id;
      && p in s'.db.rows && s'.db.rows[p] == FileRow(d, s.clock).(id := s'.db.rows[p].id)
      && (p in s.db.rows ==> s'.db.rows[p].id == s.db.rows[p].id)
      && (forall q | q in s.db.rows && q != p :: q in s'.db.rows && s'.db.rows[q] == s.db.rows[q])
      && (forall q | q in s'.db.rows && q != p && q !in s.db.rows :: s'.db.rows[q].kind.Directory?)
      && Extends(s.db.wal, s'.db.wal)
      && (forall w | w in s'.db.wal && w !in s.db.wal ::
            s'.db.wal[w].fileId == id && s'.db.wal[w].attempts == 0)
      && (HasId(s'.db.rows, id) ==> Pending(s'.db.wal, id, UploadS3))
  {
    var db1 := Upserted(s.db, p, FileRow(d, s.clock));
    var db2 := EnsureParents(db1, p, s.clock);
    assert db2.rows[p] == db1.rows[p];
    EnqueueBothEntries(db2, db1.lastRowid, s.clock);
  }

  /** A write keeps every file covered exactly when its guard holds. */
  lemma WriteCoverage(s: State, p: FvfsPath, d: Bytes)
    requires Covered(s)
    ensures Covered(Write(s, p, d, false).0) <==> WriteGuard(s, p)
  {
    var s' := Write(s, p, d, false).0;
    WriteTables(s, p, d);
    var id := s'.db.rows[p].id;
    assert HasId(s'.db.rows, id);
    forall q | q in s'.db.rows && q != p ensures CoveredAt(s', q) {
      if q in s.db.rows && s.db.rows[q].kind.File? && S3 !in s.db.rows[q].bitmask {
        assert CoveredAt(s, q);
        ExtendsKeepsPending(s.db.wal, s'.db.wal, s.db.rows[q].id, UploadS3);
      }
    }
    if p in s.db.rows && Pending(s.db.wal, id, UploadS3) {
      ExtendsKeepsPending(s.db.wal, s'.db.wal, id, UploadS3);
    }
    assert CoveredAt(s', p) <==> Pending(s'.db.wal, id, UploadS3);
    if Pending(s'.db.wal, id, UploadS3) && p in s.db.rows && s.db.lastRowid != id {
      var w :| w in s'.db.wal && s'.db.wal[w].fileId == id && s'.db.wal[w].op == UploadS3;
      assert w in s.db.wal;
    }
  }

  lemma MkdirCoverage(s: State, p: FvfsPath)
    requires Covered(s)
    ensures Covered(Mkdir(s, p))
  {
    var s' := Mkdir(s, p);
    IndexRefines(s.db, p, DirRow(s.clock), s.clock);
    forall q | q in s'.db.rows ensures CoveredAt(s', q) {
      if q in s.db.rows && q != p { assert CoveredAt(s, q); }
    }
  }

  lemma DeleteCoverage(s: State, p: FvfsPath, f: Faults)
    requires Covered(s)
    ensures Covered(Delete(s, p, f).0)
  {
    var s' := Delete(s, p, f).0;
    forall q | q in s'.db.rows ensures CoveredAt(s', q) {
      var r := s.db.rows[q];
      assert CoveredAt(s, q);
      if r.kind.File? && S3 !in r.bitmask {
        var w :| w in s.db.wal && s.db.wal[w].fileId == r.id && s.db.wal[w].op == UploadS3;
        assert w in s'.db.wal;
      }
    }
  }

  /** Rows keep their identity and their S3 mark; entries for other files stay. */
  lemma KeepsCoverage(s: State, s': State)
    requires Covered(s) && s'.db.rows.Keys == s.db.rows.Keys
    requires forall q | q in s.db.rows :: s'.db.rows[q].id == s.db.rows[q].id
                                          && s'.db.rows[q].kind == s.db.rows[q].kind
                                          && (S3 in s.db.rows[q].bitmask ==> S3 in s'.db.rows[q].bitmask)
    requires forall w | w in s.db.wal && s.db.wal[w].op.UploadS3? ::
               || (w in s'.db.wal && s'.db.wal[w].fileId == s.db.wal[w].fileId && s'.db.wal[w].op.UploadS3?)
               || (forall q | q in s.db.rows && s.db.rows[q].id == s.db.wal[w].fileId :: S3 in s'.db.rows[q].bitmask)
    ensures Covered(s')
  {
    forall q | q in s'.db.rows ensures CoveredAt(s', q) {
      var r := s.db.rows[q];
      assert CoveredAt(s, q);
      if r.kind.File? && S3 !in s'.db.rows[q].bitmask {
        var w :| w in s.db.wal && s.db.wal[w].fileId == r.id && s.db.wal[w].op == UploadS3;
        assert w in s'.db.wal && s'.db.wal[w].fileId == r.id && s'.db.wal[w].op == UploadS3;
      }
    }
  }

  lemma EvictCoverage(s: State, p: FvfsPath, t: Tier, fails: bool)
    requires Covered(s)
    ensures Covered(Evict(s, p, t, fails).0)
  {
    hide UniqueIds, References;
    KeepsCoverage(s, Evict(s, p, t, fails).0);
  }

  /** Rows and entries stay, rows keep id and kind, and bitmasks only grow. */
  ghost predicate OnlyMarks(s: State, s': State) {
    && s'.db.wal == s.db.wal && s'.db.rows.Keys == s.db.rows.Keys && s'.db.lastRowid == s.db.lastRowid
    && forall q | q in s.db.rows :: && s'.db.rows[q].id == s.db.rows[q].id
                                    && s'.db.rows[q].kind == s.db.rows[q].kind
                                    && s'.db.rows[q].hash == s.db.rows[q].hash
                                    && s.db.rows[q].bitmask <= s'.db.rows[q].bitmask
  }

  lemma PutLocalTables(s: State, p: FvfsPath, d: Bytes)
    ensures OnlyMarks(s, PutLocal(s, p, d))
  {
  }

  lemma PromoteTables(s: State, f: Faults, putFails: bool)
    ensures OnlyMarks(s, Promote(s, f, putFails))
  {
    if s.queue != [] {
      var s0 := s.(queue := s.queue[1..]);
      ReadKeeps(s0, s.queue[0], f);
      var (s1, r) := Read(s0, s.queue[0], f);
      assert OnlyMarks(s, s1);
      if r.Ok? && !putFails { PutLocalTables(s1, s.queue[0], r.value); }
    }
  }

  lemma PromoteCoverage(s: State, f: Faults, putFails: bool)
    requires Covered(s)
    ensures Covered(Promote(s, f, putFails))
  {
    PromoteTables(s, f, putFails);
    KeepsCoverage(s, Promote(s, f, putFails));
  }

  lemma ReplicateTables(s: State, p: FvfsPath, f: Faults, putFails: bool)
    requires p in s.db.rows
    ensures OnlyMarks(s, Replicate(s, p, f, putFails).0)
  {
  }

  lemma UploadTables(s: State, p: FvfsPath, f: Faults, putFails: bool)
    requires p in s.db.rows
    ensures
      var (s', r) := Upload(s, p, f, putFails);
      OnlyMarks(s, s') && (r.Ok? ==> S3 in s'.db.rows[p].bitmask)
  {
    ReadKeeps(s, p, f);
  }

  lemma RunEntryTables(s: State, p: FvfsPath, op: WalOp, f: Faults, putFails: bool)
    requires p in s.db.rows
    ensures
      var (s', r) := RunEntry(s, p, op, f, putFails);
      OnlyMarks(s, s') && (r.Ok? && op.UploadS3? ==> S3 in s'.db.rows[p].bitmask)
  {
    match op
    case ReplicateNas => ReplicateTables(s, p, f, putFails);
    case UploadS3 => UploadTables(s, p, f, putFails);
  }

  /** Settling an entry after it ran: removed when it succeeded, counted when it failed. */
  lemma SettleCoverage(s: State, w: nat, p: FvfsPath, ok: bool)
    requires Covered(s) && w in s.db.wal && p in s.db.rows && s.db.rows[p].id == s.db.wal[w].fileId
    requires ok && s.db.wal[w].op.UploadS3? ==> S3 in s.db.rows[p].bitmask
    ensures Covered(s.(db := if ok then CompleteEntry(s.db, w) else RecordFailure(s.db, w)))
  {
    KeepsCoverage(s, s.(db := if ok then CompleteEntry(s.db, w) else RecordFailure(s.db, w)));
  }

  lemma AttemptCoverage(s: State, w: nat, f: Faults, putFails: bool)
    requires Covered(s)
    ensures Covered(Attempt(s, w, f, putFails))
  {
    if Live(s, w) {
      var op := s.db.wal[w].op;
      assert HasId(s.db.rows, s.db.wal[w].fileId);
      var p := PathOfId(s.db, s.db.wal[w].fileId).value;
      RunEntryTables(s, p, op, f, putFails);
      var (s1, r) := RunEntry(s, p, op, f, putFails);
      KeepsCoverage(s, s1);
      SettleCoverage(s1, w, p, r.Ok?);
    }
  }

  lemma StepCoverage(s: State, e: Event)
    requires Covered(s) && (e.WriteEv? && !e.putFails ==> WriteGuard(s, e.path))
    ensures Covered(Step(s, e))
  {
    match e
    case WriteEv(p, d, x) => if !x { WriteCoverage(s, p, d); }
    case MkdirEv(p) => MkdirCoverage(s, p);
    case ReadEv(p, f) => ReadKeeps(s, p, f); KeepsCoverage(s, Read(s, p, f).0);
    case DeleteEv(p, f) => DeleteCoverage(s, p, f);
    case EvictEv(p, t, x) => EvictCoverage(s, p, t, x);
    case PromoteEv(f, x) => PromoteCoverage(s, f, x);
    case AttemptEv(w, f, x) => AttemptCoverage(s, w, f, x);
    case RestartEv => KeepsCoverage(s, Restart(s));
    case ClockEv(now) => KeepsCoverage(s, Step(s, e));
  }

  /** Every write of the run that reaches the disk meets its guard. */
  ghost predicate Guarded(es: seq<Event>) {
    forall i | 0 <= i < |es| && es[i].WriteEv? && !es[i].putFails :: WriteGuard(Run(es[..i]), es[i].path)
  }

  lemma {:induction false} GuardedRunsCovered(es: seq<Event>)
    requires Guarded(es)
    ensures Covered(Run(es))
  {
    if es == [] {
    } else {
      var n := |es| - 1;
      forall i | 0 <= i < n && es[..n][i].WriteEv? && !es[..n][i].putFails
        ensures WriteGuard(Run(es[..n][..i]), es[..n][i].path)
      {
        assert es[..n][..i] == es[..i] && es[..n][i] == es[i];
      }
      GuardedRunsCovered(es[..n]);
      StepCoverage(Run(es[..n]), es[n]);
    }
  }

  /** In a guarded run every file is current on S3 or has an upload pending. */
  lemma WalCoverage(es: seq<Event>, p: FvfsPath)
    requires Guarded(es)
    requires p in SpecRun(es) && SpecRun(es)[p].FileNode?
    ensures
      var s := Run(es);
      p in s.db.rows
      && (Holds(s.s3, p, SpecRun(es)[p].bytes) || Pending(s.db.wal, s.db.rows[p].id, UploadS3))
  {
    GuardedRunsCovered(es);
    RunInvariant(es);
    var s := Run(es);
    assert p in Abs(s.db.rows);
    assert CoveredAt(s, p) && FileOk(s, p);
  }

  /** Runs that only write new paths are guarded. */
  lemma FreshWritesAreGuarded(es: seq<Event>)
    requires forall i | 0 <= i < |es| && es[i].WriteEv? && !es[i].putFails :: es[i].path !in SpecRun(es[..i])
    ensures Guarded(es)
  {
    forall i | 0 <= i < |es| && es[i].WriteEv? && !es[i].putFails
      ensures WriteGuard(Run(es[..i]), es[i].path)
    {
      RunInvariant(es[..i]);
      assert es[i].path !in Abs(Run(es[..i]).db.rows);
    }
  }

  // ---- Removing an entry

  /** What removing an entry may take away: an upload that is still to be done and that no other entry asks for. */
  predicate CompleteGuard(s: State, w: nat) {
    w in s.db.wal && s.db.wal[w].op.UploadS3? ==>
      forall p | p in s.db.rows && s.db.rows[p].kind.File? && s.db.rows[p].id == s.db.wal[w].fileId ::
        S3 in s.db.rows[p].bitmask || Pending(s.db.wal - {w}, s.db.rows[p].id, UploadS3)
  }

  /** Removing an entry keeps every file covered exactly when it takes no such upload away. */
  lemma CompleteCoverage(s: State, w: nat)
    requires Covered(s)
    ensures Covered(s.(db := CompleteEntry(s.db, w))) <==> CompleteGuard(s, w)
  {
    hide UniqueIds, References;
    var s' := s.(db := CompleteEntry(s.db, w));
    if CompleteGuard(s, w) {
      forall p | p in s'.db.rows ensures CoveredAt(s', p) {
        assert CoveredAt(s, p);
        CompleteCoversAt(s, w, p);
      }
    }
    if Covered(s') && w in s.db.wal && s.db.wal[w].op.UploadS3? {
      forall p | p in s.db.rows && s.db.rows[p].kind.File? && s.db.rows[p].id == s.db.wal[w].fileId
        ensures S3 in s.db.rows[p].bitmask || Pending(s.db.wal - {w}, s.db.rows[p].id, UploadS3)
      {
        assert CoveredAt(s', p);
      }
    }
  }

  lemma CompleteCoversAt(s: State, w: nat, p: FvfsPath)
    requires p in s.db.rows && CoveredAt(s, p) && CompleteGuard(s, w)
    ensures CoveredAt(s.(db := CompleteEntry(s.db, w)), p)
  {
    hide UniqueIds, References;
    var r := s.db.rows[p];
    if r.kind.File? && S3 !in r.bitmask {
      var v :| v in s.db.wal && s.db.wal[v].fileId == r.id && s.db.wal[v].op == UploadS3;
      if v != w {
        assert v in s.db.wal - {w};
      }
    }
  }

  /** A write of a new path while nothing is pending: its entries get the ids 1 and 2. */
  lemma WriteIntoEmptyWal(s: State, p: FvfsPath, d: Bytes)
    requires s.db.wal == map[] && p !in s.db.rows
    ensures
      var s' := Write(s, p, d, false).0;
      && p in s'.db.rows && s'.db.rows[p].kind.File? && s'.db.rows[p].bitmask == {Local}
      && s'.db.wal == map[1 := WalEntry(s'.db.rows[p].id, ReplicateNas, s.clock, 0),
                          2 := WalEntry(s'.db.rows[p].id, UploadS3, s.clock, 0)]
  {
    WriteTables(s, p, d);
    var db1 := Upserted(s.db, p, FileRow(d, s.clock));
    var db2 := EnsureParents(db1, p, s.clock);
    var id := db1.lastRowid;
    assert db2.rows[p].id == id && HasId(db2.rows, id);
    var db3 := Enqueue(db2, id, ReplicateNas, s.clock).value;
    assert db3.wal == map[1 := WalEntry(id, ReplicateNas, s.clock, 0)] && db3.wal.Keys == {1};
    var db4 := Enqueue(db3, id, UploadS3, s.clock).value;
    assert db4.lastRowid == 2;
    hide UniqueIds, References;
  }

  // ---- The guard is not idle: an overwrite after an upload loses its own upload

  /** A first write into an empty store: the file gets row 1 and WAL entries 1 and 2. */
  lemma FirstWrite(p: FvfsPath, d: Bytes)
    ensures
      var s := Write(INITIAL_STATE, p, d, false).0;
      && p in s.db.rows && s.db.rows[p] == FileRow(d, 0).(id := 1)
      && s.db.wal == map[1 := WalEntry(1, ReplicateNas, 0, 0), 2 := WalEntry(1, UploadS3, 0, 0)]
      && s.db.lastRowid == 2 && s.local == map[p := d]
  {
    var db1 := Upserted(EMPTY_TABLES, p, FileRow(d, 0));
    assert Ids(map[]) == {};
    assert db1.rows[p].id == 1 && db1.lastRowid == 1;
    var db2 := EnsureParents(db1, p, 0);
    assert p in db2.rows && db2.rows[p].id == 1;
    assert HasId(db2.rows, 1);
    var db3 := Enqueue(db2, 1, ReplicateNas, 0).value;
    assert db3.wal == map[1 := WalEntry(1, ReplicateNas, 0, 0)];
    assert db3.wal.Keys == {1};
    var db4 := Enqueue(db3, 1, UploadS3, 0).value;
    assert db4.lastRowid == 2;
  }

  /** A file just written can be uploaded when the backends are healthy. */
  lemma LocalUploadSucceeds(s: State, p: FvfsPath)
    requires p in s.db.rows && s.db.rows[p].kind.File? && Local in s.db.rows[p].bitmask && p in s.local
    ensures
      var (s', r) := Upload(s, p, HEALTHY, false);
      r.Ok? && OnlyMarks(s, s')
  {
    UploadTables(s, p, HEALTHY, false);
    hide UniqueIds, References, OnlyMarks;
  }

  /** Its upload succeeds: entry 2 is gone, and the id inserted last is still the WAL's. */
  lemma FirstUpload(p: FvfsPath, d: Bytes)
    ensures
      var s := Attempt(Write(INITIAL_STATE, p, d, false).0, 2, HEALTHY, false);
      && p in s.db.rows && s.db.rows[p].id == 1 && s.db.lastRowid == 2
      && s.db.wal == map[1 := WalEntry(1, ReplicateNas, 0, 0)]
  {
    hide Write, Upload, References;
    FirstWrite(p, d);
    var s := Write(INITIAL_STATE, p, d, false).0;
    assert HasId(s.db.rows, 1) && PathOfId(s.db, 1) == Some(p);
    LocalUploadSucceeds(s, p);
    assert s.db.wal - {2} == map[1 := WalEntry(1, ReplicateNas, 0, 0)];
  }

  /**
   For every path: write it, let its upload finish, write it again. The second write queues its
   entries under another row's id, and the new version has no upload pending.
   */
  lemma OverwriteLosesUpload(p: FvfsPath, v1: Bytes, v2: Bytes)
    ensures
      var s1 := Write(INITIAL_STATE, p, v1, false).0;
      var s2 := Attempt(s1, 2, HEALTHY, false);
      && Covered(s2) && !WriteGuard(s2, p) && !Covered(Write(s2, p, v2, false).0)
  {
    var s1 := Write(INITIAL_STATE, p, v1, false).0;
    var s2 := Attempt(s1, 2, HEALTHY, false);
    assert Covered(INITIAL_STATE);
    WriteCoverage(INITIAL_STATE, p, v1);
    AttemptCoverage(s1, 2, HEALTHY, false);
    FirstUpload(p, v1);
    WriteCoverage(s2, p, v2);
  }

  // ---- Attempts

  ghost predicate AttemptsBounded(wal: Wal) {
    forall w | w in wal :: wal[w].attempts <= MAX_ATTEMPTS
  }

  /** How a step may treat an entry that is in the WAL before and after it. */
  ghost predicate SameEntries(s: State, s': State) {
    forall w | w in s.db.wal && w in s'.db.wal ::
      && s'.db.wal[w].fileId == s.db.wal[w].fileId && s'.db.wal[w].op == s.db.wal[w].op
      && (s'.db.wal[w].attempts == s.db.wal[w].attempts
          || (s.db.wal[w].attempts < MAX_ATTEMPTS && s'.db.wal[w].attempts == s.db.wal[w].attempts + 1))
  }

  /** A step's effect on identities: rows keep their ids, entries their files, and a row goes only with its entries. */
  ghost predicate KeepsIdentity(s: State, s': State) {
    && SameEntries(s, s')
    && (forall p | p in s.db.rows && p in s'.db.rows :: s'.db.rows[p].id == s.db.rows[p].id)
    && (forall p, w | p in s.db.rows && w in s.db.wal && w in s'.db.wal && s.db.wal[w].fileId == s.db.rows[p].id ::
          p in s'.db.rows)
    && (forall w | w in s'.db.wal && w !in s.db.wal :: s'.db.wal[w].attempts == 0)
  }

  lemma AttemptKeepsIdentity(s: State, w: nat, f: Faults, putFails: bool)
    ensures KeepsIdentity(s, Attempt(s, w, f, putFails))
  {
    hide UniqueIds, RunEntry;
    if Live(s, w) {
      assert HasId(s.db.rows, s.db.wal[w].fileId);
      RunEntryTables(s, PathOfId(s.db, s.db.wal[w].fileId).value, s.db.wal[w].op, f, putFails);
    }
  }

  lemma OnlyMarksKeepsIdentity(s: State, s': State)
    requires OnlyMarks(s, s')
    ensures KeepsIdentity(s, s')
  {
  }

  lemma MkdirKeepsIdentity(s: State, p: FvfsPath)
    ensures KeepsIdentity(s, Mkdir(s, p))
  {
  }

  lemma DeleteKeepsIdentity(s: State, p: FvfsPath, f: Faults)
    ensures KeepsIdentity(s, Delete(s, p, f).0)
  {
  }

  lemma EvictKeepsIdentity(s: State, p: FvfsPath, t: Tier, fails: bool)
    ensures KeepsIdentity(s, Evict(s, p, t, fails).0)
  {
    hide UniqueIds, References;
  }

  lemma SameTablesKeepIdentity(s: State, s': State)
    requires s'.db.rows == s.db.rows && s'.db.wal == s.db.wal
    ensures KeepsIdentity(s, s')
  {
    hide UniqueIds, References;
  }

  lemma WriteKeepsIdentity(s: State, p: FvfsPath, d: Bytes)
    ensures KeepsIdentity(s, Write(s, p, d, false).0)
  {
    hide Write, UniqueIds, References, Pending;
    WriteTables(s, p, d);
  }

  lemma StepKeepsIdentity(s: State, e: Event)
    ensures KeepsIdentity(s, Step(s, e))
  {
    hide KeepsIdentity, UniqueIds, References, Mkdir, Delete, Evict, Promote, Attempt, Read;
    match e
    case WriteEv(p, d, x) => if x { SameTablesKeepIdentity(s, s); } else { WriteKeepsIdentity(s, p, d); }
    case MkdirEv(p) => MkdirKeepsIdentity(s, p);
    case ReadEv(p, f) => ReadKeeps(s, p, f); OnlyMarksKeepsIdentity(s, Read(s, p, f).0);
    case DeleteEv(p, f) => DeleteKeepsIdentity(s, p, f);
    case EvictEv(p, t, x) => EvictKeepsIdentity(s, p, t, x);
    case PromoteEv(f, x) => PromoteTables(s, f, x); OnlyMarksKeepsIdentity(s, Promote(s, f, x));
    case AttemptEv(w, f, x) => AttemptKeepsIdentity(s, w, f, x);
    case RestartEv => SameTablesKeepIdentity(s, Restart(s));
    case ClockEv(now) => SameTablesKeepIdentity(s, s.(clock := now));
  }

  /** Over all restarts, replays and flushes no entry is tried more than ten times. */
  lemma {:induction false} AttemptsStayBounded(es: seq<Event>)
    ensures AttemptsBounded(Run(es).db.wal)
  {
    if es == [] {
    } else {
      var n := |es| - 1;
      AttemptsStayBounded(es[..n]);
      StepKeepsIdentity(Run(es[..n]), es[n]);
    }
  }

  // ---- Row ids are reused, entries are not misdirected

  /** Which incarnation of which path: the step that inserted its row. */
  datatype Incarnation = Incarnation(path: FvfsPath, born: nat)

  datatype History = History(born: map<FvfsPath, nat>, target: map<nat, Incarnation>)

  /** Written along with step `n`: birth of new rows, and what new entries point at. */
  function Record(h: History, s: State, s': State, n: nat): History {
    var born := map p | p in s'.db.rows :: if p in s.db.rows && p in h.born then h.born[p] else n;
    var target := map w | w in s'.db.wal ::
        if w in s.db.wal && w in h.target then h.target[w]
        else match PathOfId(s'.db, s'.db.wal[w].fileId)
          case Some(p) => Incarnation(p, born[p])
          case None => Incarnation(ROOT, n);
    History(born, target)
  }

  function HistoryOf(es: seq<Event>): History {
    if es == [] then History(map[], map[])
    else
      var n := |es| - 1;
      Record(HistoryOf(es[..n]), Run(es[..n]), Run(es), n)
  }

  ghost predicate Directed(h: History, s: State) {
    && h.born.Keys == s.db.rows.Keys && h.target.Keys == s.db.wal.Keys
    && forall w | w in s.db.wal ::
         && PathOfId(s.db, s.db.wal[w].fileId) == Some(h.target[w].path)
         && h.target[w].path in h.born && h.born[h.target[w].path] == h.target[w].born
  }

  lemma RecordDirected(h: History, s: State, s': State, n: nat)
    requires Directed(h, s) && KeepsIdentity(s, s')
    ensures Directed(Record(h, s, s', n), s')
  {
    var h' := Record(h, s, s', n);
    forall w | w in s'.db.wal
      ensures PathOfId(s'.db, s'.db.wal[w].fileId) == Some(h'.target[w].path)
      ensures h'.target[w].path in h'.born && h'.born[h'.target[w].path] == h'.target[w].born
    {
      assert HasId(s'.db.rows, s'.db.wal[w].fileId);
      var q := PathOfId(s'.db, s'.db.wal[w].fileId).value;
      if w in s.db.wal {
        var p := h.target[w].path;
        assert p in s.db.rows && s.db.rows[p].id == s.db.wal[w].fileId;
        assert p in s'.db.rows && s'.db.rows[p].id == s'.db.wal[w].fileId;
        assert q == p;
      }
    }
  }

  lemma {:induction false} HistoryDirected(es: seq<Event>)
    ensures Directed(HistoryOf(es), Run(es))
  {
    if es == [] {
    } else {
      var n := |es| - 1;
      HistoryDirected(es[..n]);
      StepKeepsIdentity(Run(es[..n]), es[n]);
      RecordDirected(HistoryOf(es[..n]), Run(es[..n]), Run(es), n);
    }
  }

  /**
   SQLite hands out the ids of deleted rows again, yet in every run each pending entry still denotes
   the row it was queued for, inserted at the same step: the "deleted file" branches never run.
   */
  lemma EntriesKeepTheirFile(es: seq<Event>, w: nat)
    requires w in Run(es).db.wal
    ensures
      var s, h := Run(es), HistoryOf(es);
      && w in h.target
      && PathOfId(s.db, s.db.wal[w].fileId) == Some(h.target[w].path)
      && h.target[w].path in h.born && h.born[h.target[w].path] == h.target[w].born
  {
    HistoryDirected(es);
  }
}
