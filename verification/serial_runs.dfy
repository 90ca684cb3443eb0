/**
 Serialised runs: whatever backend calls fail, the tiered store behaves like one plain map from
 paths to directories and file contents.
 */
module SerialRuns {
  import opened Results
  import opened Paths
  import opened Tiers
  import opened Store
  import opened Protocol

  // ---- The plain map

  datatype Node = DirNode | FileNode(bytes: Bytes)

  type Tree = map<FvfsPath, Node>

  /** Missing ancestors become directories; what is there stays. */
  function WithParents(m: Tree, p: FvfsPath): Tree {
    (map a | a in Ancestors(p) :: DirNode) + m
  }

  /** What each operation means on the plain map: only write, mkdir and delete change it. */
  function SpecStep(m: Tree, e: Event): Tree {
    match e
    case WriteEv(p, d, putFails) => if putFails then m else WithParents(m[p := FileNode(d)], p)
    case MkdirEv(p) => WithParents(m[p := DirNode], p)
    case DeleteEv(p, _) => m - {p}
    case _ => m
  }

  function SpecRun(es: seq<Event>): Tree {
    if es == [] then map[] else SpecStep(SpecRun(es[..|es| - 1]), es[|es| - 1])
  }

  lemma SpecRunSnoc(es: seq<Event>, e: Event)
    ensures SpecRun(es + [e]) == SpecStep(SpecRun(es), e)
  {
    assert (es + [e])[..|es|] == es;
  }

  // ---- What the tables and backends stand for

  function Content(r: Row): Bytes {
    if r.hash.Sha256? then r.hash.content else []
  }

  function NodeOf(r: Row): Node {
    if r.kind.Directory? then DirNode else FileNode(Content(r))
  }

  function Abs(rows: Rows): Tree {
    map p | p in rows :: NodeOf(rows[p])
  }

  predicate IsFile(s: State, p: FvfsPath) {
    p in s.db.rows && s.db.rows[p].kind.File?
  }

  predicate Holds(b: Backend, p: FvfsPath, d: Bytes) {
    p in b && b[p] == d
  }

  /** The row's digest and size describe its content; set bits name current copies; local is never stale. */
  predicate FileOk(s: State, p: FvfsPath)
    requires p in s.db.rows
  {
    var r := s.db.rows[p];
    && r.hash.Sha256? && r.size == |r.hash.content|
    && r.bitmask != {}
    && (Local in r.bitmask ==> p in s.local)
    && (p in s.local ==> s.local[p] == Content(r))
    && (Nas in r.bitmask ==> Holds(s.nas, p, Content(r)))
    && (S3 in r.bitmask ==> Holds(s.s3, p, Content(r)))
  }

  ghost predicate Inv(s: State) {
    forall p | p in s.db.rows && s.db.rows[p].kind.File? :: FileOk(s, p)
  }

  // ---- write, mkdir, delete

  lemma EnqueueBothKeepsRows(db: Db, fileId: nat, now: int)
    ensures EnqueueBoth(db, fileId, now).0.rows == db.rows
  {
  }

  lemma UpsertedAbs(db: Db, p: FvfsPath, row: Row)
    ensures Abs(Upserted(db, p, row).rows) == Abs(db.rows)[p := NodeOf(row)]
  {
  }

  lemma AddedDirsAbs(rows: Rows, rows': Rows, added: set<FvfsPath>)
    requires rows'.Keys == rows.Keys + added
    requires forall q | q in rows :: q in rows' && rows'[q] == rows[q]
    requires forall q | q in rows' && q !in rows :: rows'[q].kind.Directory?
    ensures Abs(rows') == (map a | a in added :: DirNode) + Abs(rows)
  {
  }

  /** Indexing a path and its ancestors: what `write` and `mkdir` do to the `files` table. */
  lemma IndexRefines(db: Db, p: FvfsPath, row: Row, now: int)
    ensures
      var rows := EnsureParents(Upserted(db, p, row), p, now).rows;
      && p in rows && rows[p] == row.(id := rows[p].id)
      && (forall q | q in rows && q != p && rows[q].kind.File? :: q in db.rows && rows[q] == db.rows[q])
      && Abs(rows) == WithParents(Abs(db.rows)[p := NodeOf(row)], p)
  {
    UpsertedAbs(db, p, row);
    var db1 := Upserted(db, p, row);
    AddedDirsAbs(db1.rows, EnsureParents(db1, p, now).rows, Ancestors(p));
  }

  lemma WriteRefines(s: State, p: FvfsPath, data: Bytes, putFails: bool)
    requires Inv(s)
    ensures
      var s' := Write(s, p, data, putFails).0;
      Inv(s') && Abs(s'.db.rows) == SpecStep(Abs(s.db.rows), WriteEv(p, data, putFails))
  {
    if !putFails {
      var s' := Write(s, p, data, putFails).0;
      var row := FileRow(data, s.clock);
      var db1 := Upserted(s.db, p, row);
      var db2 := EnsureParents(db1, p, s.clock);
      EnqueueBothKeepsRows(db2, db1.lastRowid, s.clock);
      IndexRefines(s.db, p, row, s.clock);
      forall q | q in s'.db.rows && s'.db.rows[q].kind.File? ensures FileOk(s', q) {
        if q != p { assert FileOk(s, q); }
      }
    }
  }

  lemma MkdirRefines(s: State, p: FvfsPath)
    requires Inv(s)
    ensures Inv(Mkdir(s, p)) && Abs(Mkdir(s, p).db.rows) == SpecStep(Abs(s.db.rows), MkdirEv(p))
  {
    var s' := Mkdir(s, p);
    IndexRefines(s.db, p, DirRow(s.clock), s.clock);
    forall q | q in s'.db.rows && s'.db.rows[q].kind.File? ensures FileOk(s', q) {
      assert FileOk(s, q);
    }
  }

  lemma DeleteRefines(s: State, p: FvfsPath, f: Faults)
    requires Inv(s)
    ensures
      var s' := Delete(s, p, f).0;
      Inv(s') && Abs(s'.db.rows) == SpecStep(Abs(s.db.rows), DeleteEv(p, f))
  {
    var s' := Delete(s, p, f).0;
    if p in s.db.rows {
      forall q | q in s'.db.rows && s'.db.rows[q].kind.File? ensures FileOk(s', q) {
        assert FileOk(s, q);
      }
    }
  }

  // ---- reads change only statistics and the queue

  /** The rows differ at most in their access statistics. */
  predicate StatsOnly(rows: Rows, rows': Rows) {
    && rows'.Keys == rows.Keys
    && forall q | q in rows ::
         rows'[q] == rows[q].(accessedAt := rows'[q].accessedAt, accessCount := rows'[q].accessCount)
  }

  predicate SameStores(s: State, s': State) {
    s'.local == s.local && s'.nas == s.nas && s'.s3 == s.s3
  }

  lemma StatsOnlyKeeps(s: State, s': State)
    requires SameStores(s, s') && StatsOnly(s.db.rows, s'.db.rows)
    ensures Abs(s'.db.rows) == Abs(s.db.rows)
    ensures Inv(s) ==> Inv(s')
  {
    if Inv(s) {
      forall q | q in s'.db.rows && s'.db.rows[q].kind.File? ensures FileOk(s', q) { assert FileOk(s, q); }
    }
  }

  lemma ReadKeeps(s: State, p: FvfsPath, f: Faults)
    ensures
      var s' := Read(s, p, f).0;
      && SameStores(s, s') && s'.clock == s.clock && StatsOnly(s.db.rows, s'.db.rows)
      && s'.db.wal == s.db.wal && s'.db.lastRowid == s.db.lastRowid
  {
  }

  /** A read answers with the file's content or an error; with healthy backends it answers. */
  lemma ReadCurrent(s: State, p: FvfsPath, f: Faults)
    requires Inv(s)
    ensures
      var r := Read(s, p, f).1;
      && (r.Ok? ==> p in s.db.rows && s.db.rows[p].kind.File? && r.value == Content(s.db.rows[p]))
      && (f == HEALTHY && p in s.db.rows && s.db.rows[p].kind.File? ==> r.Ok?)
  {
    if p in s.db.rows && s.db.rows[p].kind.File? {
      assert FileOk(s, p);
      var bm := s.db.rows[p].bitmask;
      assert Local in bm || Nas in bm || S3 in bm by {
        var t :| t in bm;
        match t case Local => case Nas => case S3 =>
      }
    }
  }

  lemma ReadRefines(s: State, p: FvfsPath, f: Faults)
    requires Inv(s)
    ensures
      var (s', r) := Read(s, p, f);
      && Inv(s') && Abs(s'.db.rows) == Abs(s.db.rows)
      && (r.Ok? ==> p in s'.db.rows && s'.db.rows[p].kind.File? && r.value == Content(s'.db.rows[p]))
  {
    ReadKeeps(s, p, f);
    ReadCurrent(s, p, f);
    StatsOnlyKeeps(s, Read(s, p, f).0);
  }

  // ---- bitmask changes touch one row

  lemma SetBitmaskOne(db: Db, p: FvfsPath, bm: TierBitmask)
    requires p in db.rows
    ensures SetBitmask(db, db.rows[p].id, bm).rows == db.rows[p := db.rows[p].(bitmask := bm)]
  {
  }

  lemma RemarkKeepsAbs(rows: Rows, p: FvfsPath, bm: TierBitmask)
    requires p in rows
    ensures Abs(rows[p := rows[p].(bitmask := bm)]) == Abs(rows)
  {
  }

  lemma EvictRefines(s: State, p: FvfsPath, t: Tier, fails: bool)
    requires Inv(s)
    ensures var s' := Evict(s, p, t, fails).0; Inv(s') && Abs(s'.db.rows) == Abs(s.db.rows)
  {
    var s' := Evict(s, p, t, fails).0;
    if s' != s {
      SetBitmaskOne(s.db, p, s.db.rows[p].bitmask - {t});
      RemarkKeepsAbs(s.db.rows, p, s.db.rows[p].bitmask - {t});
      forall q | q in s'.db.rows && s'.db.rows[q].kind.File? ensures FileOk(s', q) {
        assert FileOk(s, q);
        if q == p {
          assert S3 in s'.db.rows[q].bitmask;
        }
      }
    }
  }

  /** Putting the current bytes on a tier and marking it there keeps the invariant. */
  lemma MarkRefines(s: State, s': State, p: FvfsPath, t: Tier, d: Bytes)
    requires Inv(s) && p in s.db.rows
    requires s.db.rows[p].kind.File? ==> d == Content(s.db.rows[p])
    requires s'.local == if t.Local? then s.local[p := d] else s.local
    requires s'.nas == if t.Nas? then s.nas[p := d] else s.nas
    requires s'.s3 == if t.S3? then s.s3[p := d] else s.s3
    requires s'.db.rows == s.db.rows[p := s.db.rows[p].(bitmask := s.db.rows[p].bitmask + {t})]
    ensures Inv(s') && Abs(s'.db.rows) == Abs(s.db.rows)
  {
    RemarkKeepsAbs(s.db.rows, p, s.db.rows[p].bitmask + {t});
    forall q | q in s'.db.rows && s'.db.rows[q].kind.File? ensures FileOk(s', q) {
      assert FileOk(s, q);
      if q == p {
        assert t in s'.db.rows[q].bitmask;
      }
    }
  }

  lemma PutLocalRefines(s: State, p: FvfsPath, d: Bytes)
    requires Inv(s) && p in s.db.rows && s.db.rows[p].kind.File? && d == Content(s.db.rows[p])
    ensures Inv(PutLocal(s, p, d)) && Abs(PutLocal(s, p, d).db.rows) == Abs(s.db.rows)
  {
    SetBitmaskOne(s.db, p, s.db.rows[p].bitmask + {Local});
    MarkRefines(s, PutLocal(s, p, d), p, Local, d);
  }

  lemma PromoteRefines(s: State, f: Faults, putFails: bool)
    requires Inv(s)
    ensures Inv(Promote(s, f, putFails)) && Abs(Promote(s, f, putFails).db.rows) == Abs(s.db.rows)
  {
    if s.queue != [] {
      var p, s0 := s.queue[0], s.(queue := s.queue[1..]);
      InvSameRows(s, s0);
      ReadRefines(s0, p, f);
      var (s1, r) := Read(s0, p, f);
      if r.Ok? && !putFails {
        PutLocalRefines(s1, p, r.value);
      }
    }
  }

  lemma ReplicateRefines(s: State, p: FvfsPath, f: Faults, putFails: bool)
    requires Inv(s) && p in s.db.rows
    ensures
      var s' := Replicate(s, p, f, putFails).0;
      Inv(s') && Abs(s'.db.rows) == Abs(s.db.rows)
  {
    var d := Fetch(s.local, p, f.local);
    if d.Ok? && !putFails {
      SetBitmaskOne(s.db, p, s.db.rows[p].bitmask + {Nas});
      assert s.db.rows[p].kind.File? ==> FileOk(s, p);
      MarkRefines(s, Replicate(s, p, f, putFails).0, p, Nas, d.value);
    }
  }

  lemma UploadRefines(s: State, p: FvfsPath, f: Faults, putFails: bool)
    requires Inv(s) && p in s.db.rows
    ensures
      var s' := Upload(s, p, f, putFails).0;
      Inv(s') && Abs(s'.db.rows) == Abs(s.db.rows)
  {
    ReadKeeps(s, p, f);
    ReadRefines(s, p, f);
    hide Read, Inv, UniqueIds, References;
    var (s1, r) := Read(s, p, f);
    if r.Ok? && !putFails {
      SetBitmaskOne(s1.db, p, s1.db.rows[p].bitmask + {S3});
      MarkRefines(s1, Upload(s, p, f, putFails).0, p, S3, r.value);
    }
  }

  lemma RunEntryRefines(s: State, p: FvfsPath, op: WalOp, f: Faults, putFails: bool)
    requires Inv(s) && p in s.db.rows
    ensures
      var s' := RunEntry(s, p, op, f, putFails).0;
      Inv(s') && Abs(s'.db.rows) == Abs(s.db.rows)
  {
    hide Replicate, Upload, Inv, Abs, UniqueIds, References;
    match op
    case ReplicateNas => ReplicateRefines(s, p, f, putFails);
    case UploadS3 => UploadRefines(s, p, f, putFails);
  }

  lemma InvSameRows(s: State, s': State)
    requires Inv(s) && s'.db.rows == s.db.rows
    requires s'.local == s.local && s'.nas == s.nas && s'.s3 == s.s3
    ensures Inv(s')
  {
    forall q | q in s'.db.rows && s'.db.rows[q].kind.File? ensures FileOk(s', q) { assert FileOk(s, q); }
  }

  lemma AttemptRefines(s: State, w: nat, f: Faults, putFails: bool)
    requires Inv(s)
    ensures Inv(Attempt(s, w, f, putFails)) && Abs(Attempt(s, w, f, putFails).db.rows) == Abs(s.db.rows)
  {
    if Live(s, w) {
      match PathOfId(s.db, s.db.wal[w].fileId)
      case None => InvSameRows(s, Attempt(s, w, f, putFails));
      case Some(p) =>
        RunEntryRefines(s, p, s.db.wal[w].op, f, putFails);
        InvSameRows(RunEntry(s, p, s.db.wal[w].op, f, putFails).0, Attempt(s, w, f, putFails));
    }
  }

  /** Every step keeps the invariant and does on the plain map what its specification says. */
  lemma StepRefines(s: State, e: Event)
    requires Inv(s)
    ensures Inv(Step(s, e)) && Abs(Step(s, e).db.rows) == SpecStep(Abs(s.db.rows), e)
  {
    match e
    case WriteEv(p, d, x) => WriteRefines(s, p, d, x);
    case MkdirEv(p) => MkdirRefines(s, p);
    case ReadEv(p, f) => ReadRefines(s, p, f);
    case DeleteEv(p, f) => DeleteRefines(s, p, f);
    case EvictEv(p, t, x) => EvictRefines(s, p, t, x);
    case PromoteEv(f, x) => PromoteRefines(s, f, x);
    case AttemptEv(w, f, x) => AttemptRefines(s, w, f, x);
    case RestartEv => InvSameRows(s, Step(s, e));
    case ClockEv(now) => InvSameRows(s, Step(s, e));
  }

  lemma {:induction false} RunInvariant(es: seq<Event>)
    ensures Inv(Run(es)) && Abs(Run(es).db.rows) == SpecRun(es)
  {
    if es == [] {
    } else {
      var n := |es| - 1;
      RunInvariant(es[..n]);
      StepRefines(Run(es[..n]), es[n]);
    }
  }

  /**
   After every serialised run, under every pattern of failures, a read that succeeds returns what the
   plain map holds, a read of a file succeeds when the backends are healthy, and nothing but files is read.
   */
  lemma SerialRefinement(es: seq<Event>, p: FvfsPath, f: Faults)
    ensures
      var m, r := SpecRun(es), Read(Run(es), p, f).1;
      && (r.Ok? ==> p in m && m[p] == FileNode(r.value))
      && (p in m && m[p].FileNode? && f == HEALTHY ==> r == Ok(m[p].bytes))
      && (p !in m ==> r == Err(NotFound))
      && (p in m && m[p].DirNode? ==> r == Err(IsADirectory))
  {
    RunInvariant(es);
    ReadCurrent(Run(es), p, f);
  }

  /** For a file, local holds the current bytes or nothing, and every tier the bitmask names holds them. */
  lemma CopiesAreCurrent(es: seq<Event>, p: FvfsPath)
    requires p in SpecRun(es) && SpecRun(es)[p].FileNode?
    ensures
      var s, d := Run(es), SpecRun(es)[p].bytes;
      && p in s.db.rows
      && (p in s.local ==> s.local[p] == d)
      && s.db.rows[p].bitmask != {}
      && (forall t | t in s.db.rows[p].bitmask :: Holds(BackendOf(s, t), p, d))
  {
    RunInvariant(es);
    var s := Run(es);
    assert p in Abs(s.db.rows) && FileOk(s, p);
    forall t | t in s.db.rows[p].bitmask ensures Holds(BackendOf(s, t), p, Content(s.db.rows[p])) {
      match t case Local => case Nas => case S3 =>
    }
  }

  // ---- Colder tiers do go stale

  /**
   A write leaves the NAS and S3 as they were: copies of the old version stay there, out of date, and
   only the bitmask, now naming the local disk alone, keeps readers away from them.
   */
  lemma WriteLeavesColdCopies(es: seq<Event>, p: FvfsPath, d: Bytes)
    ensures
      var es' := es + [WriteEv(p, d, false)];
      var s, s' := Run(es), Run(es');
      && p in SpecRun(es') && SpecRun(es')[p] == FileNode(d)
      && s'.nas == s.nas && s'.s3 == s.s3
      && p in s'.db.rows && s'.db.rows[p].bitmask == {Local}
  {
    var e := WriteEv(p, d, false);
    RunFromSnoc(INITIAL_STATE, es, e);
    assert (es + [e])[..|es|] == es;
    var s := Run(es);
    var db1 := Upserted(s.db, p, FileRow(d, s.clock));
    EnqueueBothKeepsRows(EnsureParents(db1, p, s.clock), db1.lastRowid, s.clock);
  }
}
