/**
 What each operation does to every tier, row and entry, under every pattern of backend failures: exactly
 when it succeeds, what it then puts or removes and where, and that it leaves everything else alone.
 */
module Effects {
  import opened Results
  import opened Paths
  import opened Tiers
  import opened Store
  import opened Protocol
  import opened SerialRuns
  import opened WalProperties
  import ReplayConfluence

  predicate FailsOn(f: Faults, t: Tier) {
    match t case Local => f.local case Nas => f.nas case S3 => f.s3
  }

  /** The object at `q` on a tier is the same in both states: there with the same bytes, or missing. */
  predicate SameAt(s: State, s': State, t: Tier, q: FvfsPath) {
    && (q in BackendOf(s', t) <==> q in BackendOf(s, t))
    && (q in BackendOf(s, t) ==> BackendOf(s', t)[q] == BackendOf(s, t)[q])
  }

  /** No object differs, except perhaps the one at `p` on `t`. */
  ghost predicate OnlyAt(s: State, s': State, t: Tier, p: FvfsPath) {
    forall u, q | !(u == t && q == p) :: SameAt(s, s', u, q)
  }

  lemma OnlyPut(s: State, s': State, t: Tier, p: FvfsPath, d: Bytes)
    requires s'.local == if t.Local? then s.local[p := d] else s.local
    requires s'.nas == if t.Nas? then s.nas[p := d] else s.nas
    requires s'.s3 == if t.S3? then s.s3[p := d] else s.s3
    ensures OnlyAt(s, s', t, p) && Holds(BackendOf(s', t), p, d)
  {
    hide UniqueIds, References;
  }

  lemma OnlyTaken(s: State, s': State, t: Tier, p: FvfsPath)
    requires s'.local == if t.Local? then s.local - {p} else s.local
    requires s'.nas == if t.Nas? then s.nas - {p} else s.nas
    requires s'.s3 == if t.S3? then s.s3 - {p} else s.s3
    ensures OnlyAt(s, s', t, p) && p !in BackendOf(s', t)
  {
    hide UniqueIds, References;
  }

  // ---- read

  /** The row names the tier, the tier has the object and the call to it does not fail. */
  predicate Serves(s: State, p: FvfsPath, f: Faults, t: Tier)
    requires p in s.db.rows
  {
    t in s.db.rows[p].bitmask && !FailsOn(f, t) && p in BackendOf(s, t)
  }

  /** The tier a read is answered from: the local disk if it serves, else the NAS if it is named, else S3. */
  predicate AnswersFrom(s: State, p: FvfsPath, f: Faults, t: Tier) {
    && IsFile(s, p) && Serves(s, p, f, t)
    && (t != Local ==> !Serves(s, p, f, Local))
    && (t == S3 ==> Nas !in s.db.rows[p].bitmask)
  }

  /** What the tiers answer, once the row is found. */
  lemma TiersAnswer(s: State, p: FvfsPath, f: Faults)
    requires IsFile(s, p)
    ensures
      var (s1, r) := ReadTiers(s, p, s.db.rows[p].bitmask, f);
      && (r.Ok? <==> AnswersFrom(s, p, f, Local) || AnswersFrom(s, p, f, Nas) || AnswersFrom(s, p, f, S3))
      && (forall t | AnswersFrom(s, p, f, t) ::
            r == Ok(BackendOf(s, t)[p]) && s1.queue == if t.Local? then s.queue else s.queue + [p])
      && (r.Err? ==> s1 == s)
  {
    hide UniqueIds, References;
  }

  /** At most one tier answers, and which one decides whether the read succeeds. */
  lemma ReadAnswered(s: State, p: FvfsPath, f: Faults)
    ensures Read(s, p, f).1.Ok? <==>
            AnswersFrom(s, p, f, Local) || AnswersFrom(s, p, f, Nas) || AnswersFrom(s, p, f, S3)
    ensures forall t | AnswersFrom(s, p, f, t) ::
              Read(s, p, f).1 == Ok(BackendOf(s, t)[p]) &&
              Read(s, p, f).0.queue == if t.Local? then s.queue else s.queue + [p]
    ensures Read(s, p, f).1.Err? ==> Read(s, p, f).0 == s
  {
    hide UniqueIds, References, Accessed, ReadTiers, Serves, BackendOf;
    if IsFile(s, p) { TiersAnswer(s, p, f); }
  }

  lemma AccessedOne(db: Db, p: FvfsPath, now: int)
    requires p in db.rows
    ensures Accessed(db, db.rows[p].id, now).rows ==
            db.rows[p := db.rows[p].(accessedAt := now, accessCount := db.rows[p].accessCount + 1)]
  {
  }

  /**
   Under any failures a read succeeds exactly when some tier answers it, and then with that tier's bytes. It
   asks for a promotion exactly when the tier was not the local disk, and counts the access; a read that
   fails changes nothing.
   */
  lemma ReadSucceedsIff(s: State, p: FvfsPath, f: Faults)
    ensures
      var (s', r) := Read(s, p, f);
      && (r.Ok? <==> exists t :: AnswersFrom(s, p, f, t))
      && (forall t | AnswersFrom(s, p, f, t) ::
            && r == Ok(BackendOf(s, t)[p])
            && s'.queue == (if t.Local? then s.queue else s.queue + [p])
            && s'.db.rows == s.db.rows[p := s.db.rows[p].(accessedAt := s.clock,
                                                          accessCount := s.db.rows[p].accessCount + 1)])
      && (r.Err? ==> s' == s)
  {
    ReadAnswered(s, p, f);
    if p in s.db.rows { AccessedOne(s.db, p, s.clock); }
    hide UniqueIds, References, Serves, Read;
  }

  // ---- write, mkdir

  /**
   A write whose put fails changes nothing. Otherwise the bytes are on the local disk, the row describes them,
   names the local disk alone and starts its statistics at the time of the write, and no other object or
   existing row changes.
   */
  lemma WriteEffect(s: State, p: FvfsPath, d: Bytes, putFails: bool)
    ensures
      var s' := Step(s, WriteEv(p, d, putFails));
      if putFails then s' == s
      else
        && OnlyAt(s, s', Local, p) && Holds(s'.local, p, d) && s'.queue == s.queue
        && p in s'.db.rows && s'.db.rows[p] == Row(s'.db.rows[p].id, File, |d|, Sha256(d), {Local}, s.clock, 0)
        && (forall q | q in s.db.rows && q != p :: q in s'.db.rows && s'.db.rows[q] == s.db.rows[q])
  {
    if !putFails {
      hide UniqueIds, References, OnlyAt, Upserted, EnsureParents, EnqueueBoth;
      WriteRow(s, p, d);
      OnlyPut(s, Write(s, p, d, false).0, Local, p, d);
    }
  }

  lemma WriteRow(s: State, p: FvfsPath, d: Bytes)
    ensures
      var rows := Write(s, p, d, false).0.db.rows;
      && p in rows && rows[p] == Row(rows[p].id, File, |d|, Sha256(d), {Local}, s.clock, 0)
      && (forall q | q in s.db.rows && q != p :: q in rows && rows[q] == s.db.rows[q])
  {
    var db1 := Upserted(s.db, p, FileRow(d, s.clock));
    EnqueueBothKeepsRows(EnsureParents(db1, p, s.clock), db1.lastRowid, s.clock);
    hide UniqueIds, References, EnqueueBoth;
  }

  /** An accepted write adds two entries to the WAL and no more: a replication and an upload, not yet tried. */
  lemma WriteQueues(s: State, p: FvfsPath, d: Bytes)
    requires Write(s, p, d, false).1.Ok?
    ensures
      var wal := Write(s, p, d, false).0.db.wal;
      exists v: nat, w: nat, id: nat ::
        && v !in s.db.wal && w !in s.db.wal && v != w
        && wal == s.db.wal[v := WalEntry(id, ReplicateNas, s.clock, 0)][w := WalEntry(id, UploadS3, s.clock, 0)]
        && (p !in s.db.rows ==> id == Write(s, p, d, false).0.db.rows[p].id)
  {
    hide UniqueIds, References;
  }

  /** mkdir marks every tier in the row it writes, and leaves all objects and all other rows alone. */
  lemma MkdirEffect(s: State, p: FvfsPath)
    ensures
      var s' := Step(s, MkdirEv(p));
      && SameStores(s, s') && s'.queue == s.queue && s'.db.wal == s.db.wal
      && p in s'.db.rows && s'.db.rows[p] == Row(s'.db.rows[p].id, Directory, 0, NoHash, {Local, Nas, S3}, s.clock, 0)
      && (forall q | q in s.db.rows && q != p :: q in s'.db.rows && s'.db.rows[q] == s.db.rows[q])
  {
    hide UniqueIds, References;
  }

  // ---- delete, evict

  lemma DeleteOn(s: State, p: FvfsPath, f: Faults, t: Tier, q: FvfsPath)
    requires p in s.db.rows
    ensures
      var s' := Delete(s, p, f).0;
      if q == p && t in s.db.rows[p].bitmask && !FailsOn(f, t) then q !in BackendOf(s', t) else SameAt(s, s', t, q)
  {
    hide UniqueIds, References;
  }

  /**
   A delete succeeds exactly when the path has a row, whatever backend calls fail. It takes away the object on
   each tier the row names whose call does not fail, and nothing else; a refused delete changes nothing.
   */
  lemma DeleteEffect(s: State, p: FvfsPath, f: Faults)
    ensures
      var (s', r) := Delete(s, p, f);
      && (r.Ok? <==> p in s.db.rows) && (r.Err? ==> s' == s && r == Err(NotFound))
      && (r.Ok? ==>
            && p !in s'.db.rows && s'.queue == s.queue
            && forall t, q :: if q == p && t in s.db.rows[p].bitmask && !FailsOn(f, t)
                              then q !in BackendOf(s', t) else SameAt(s, s', t, q))
  {
    if p in s.db.rows {
      forall t, q
        ensures
          var s' := Delete(s, p, f).0;
          if q == p && t in s.db.rows[p].bitmask && !FailsOn(f, t) then q !in BackendOf(s', t) else SameAt(s, s', t, q)
      {
        DeleteOn(s, p, f, t, q);
      }
    }
    hide UniqueIds, References, SameAt, BackendOf, FailsOn;
  }

  /**
   An eviction succeeds exactly when the row names S3, the tier is not S3, the tier has the object and the
   call does not fail. Then that object is gone, the row no longer names the tier, and nothing else changes; a
   refused eviction changes nothing.
   */
  lemma EvictEffect(s: State, p: FvfsPath, t: Tier, fails: bool)
    ensures
      var (s', r) := Evict(s, p, t, fails);
      && (r.Ok? <==> p in s.db.rows && S3 in s.db.rows[p].bitmask && t != S3 && !fails && p in BackendOf(s, t))
      && (r.Err? ==> s' == s)
      && (r.Ok? ==>
            && p !in BackendOf(s', t) && OnlyAt(s, s', t, p)
            && s'.db.rows == s.db.rows[p := s.db.rows[p].(bitmask := s.db.rows[p].bitmask - {t})]
            && s'.db.wal == s.db.wal && s'.queue == s.queue)
  {
    hide UniqueIds, References, SetBitmask, OnlyAt;
    var s' := Evict(s, p, t, fails).0;
    if s' != s {
      SetBitmaskOne(s.db, p, s.db.rows[p].bitmask - {t});
      OnlyTaken(s, s', t, p);
    }
  }

  // ---- the promotion task

  /** Promotion's own read, with the signal already taken from the queue. */
  lemma PromoteReads(s: State, f: Faults)
    requires s.queue != []
    ensures
      var p := s.queue[0];
      var (s1, r) := Read(s.(queue := s.queue[1..]), p, f);
      && (r.Ok? <==> exists t :: AnswersFrom(s, p, f, t))
      && (forall t | AnswersFrom(s, p, f, t) ::
            r == Ok(BackendOf(s, t)[p]) && s1.queue == if t.Local? then s.queue[1..] else s.queue[1..] + [p])
      && (if r.Ok? then p in s.db.rows else s1 == s.(queue := s.queue[1..]))
      && SameStores(s, s1) && s1.db.wal == s.db.wal && StatsOnly(s.db.rows, s1.db.rows)
  {
    hide UniqueIds, References, Read, Serves;
    var p, s0 := s.queue[0], s.(queue := s.queue[1..]);
    ReadSucceedsIff(s0, p, f);
    ReadKeeps(s0, p, f);
    assert forall t :: AnswersFrom(s0, p, f, t) <==> AnswersFrom(s, p, f, t) by { SameAnswers(s, s0, p, f); }
  }

  lemma SameAnswers(s: State, s': State, p: FvfsPath, f: Faults)
    requires SameStores(s, s') && s'.db.rows == s.db.rows
    ensures forall t :: AnswersFrom(s', p, f, t) <==> AnswersFrom(s, p, f, t)
  {
    hide UniqueIds, References;
  }

  /**
   A promotion brings the bytes of the tier that answers its read to the local disk and marks the row, if the
   put does not fail, and touches no other object; its read may ask for another promotion. When no tier
   answers, only the signal goes.
   */
  lemma PromoteEffect(s: State, f: Faults, putFails: bool)
    requires s.queue != []
    ensures
      var s', p := Step(s, PromoteEv(f, putFails)), s.queue[0];
      && s'.db.wal == s.db.wal
      && ((forall t :: !AnswersFrom(s, p, f, t)) ==> s' == s.(queue := s.queue[1..]))
      && (forall t | AnswersFrom(s, p, f, t) ::
            && s'.queue == (if t.Local? then s.queue[1..] else s.queue[1..] + [p])
            && ReplayConfluence.RowsMarked(s.db.rows, s'.db.rows, p, if putFails then {} else {Local})
            && if putFails then SameStores(s, s')
               else OnlyAt(s, s', Local, p) && Holds(s'.local, p, BackendOf(s, t)[p]))
  {
    hide UniqueIds, References, Read, AnswersFrom, OnlyAt, PutLocal, ReplayConfluence.RowsMarked;
    PromoteReads(s, f);
    var p := s.queue[0];
    var (s1, r) := Read(s.(queue := s.queue[1..]), p, f);
    StatsMarkNothing(s.db.rows, s1.db.rows, p);
    if r.Ok? {
      PutLocalEffect(s, s1, p, r.value);
    }
  }

  lemma StatsMarkNothing(rows: Rows, rows': Rows, p: FvfsPath)
    requires StatsOnly(rows, rows')
    ensures ReplayConfluence.RowsMarked(rows, rows', p, {})
  {
  }

  lemma PutLocalEffect(s: State, s1: State, p: FvfsPath, d: Bytes)
    requires p in s.db.rows && SameStores(s, s1) && StatsOnly(s.db.rows, s1.db.rows)
    ensures
      var s' := PutLocal(s1, p, d);
      && OnlyAt(s, s', Local, p) && Holds(s'.local, p, d) && s'.queue == s1.queue && s'.db.wal == s1.db.wal
      && ReplayConfluence.RowsMarked(s.db.rows, s'.db.rows, p, {Local})
  {
    hide UniqueIds, References, OnlyAt;
    ReplayConfluence.MarkAfterStats(s.db, s1.db, p, Local);
    OnlyPut(s, PutLocal(s1, p, d), Local, p, d);
    hide SetBitmask, ReplayConfluence.RowsMarked;
  }

  // ---- one attempt at a WAL entry

  /** The entry's source can be read: the local copy for a replication, any tier that answers for an upload. */
  predicate HasSource(s: State, p: FvfsPath, op: WalOp, f: Faults) {
    match op
    case ReplicateNas => !f.local && p in s.local
    case UploadS3 => exists t :: AnswersFrom(s, p, f, t)
  }

  lemma ReplicateRuns(s: State, p: FvfsPath, f: Faults, putFails: bool)
    requires p in s.db.rows
    ensures
      var (s', r) := Replicate(s, p, f, putFails);
      var done := HasSource(s, p, ReplicateNas, f) && !putFails;
      && r.Ok? == done && (!done ==> s' == s)
      && (done ==> OnlyAt(s, s', Nas, p) && Holds(s'.nas, p, s.local[p]))
      && (done ==> ReplayConfluence.RowsMarked(s.db.rows, s'.db.rows, p, {Nas}))
  {
    hide UniqueIds, References, OnlyAt;
    var (s', r) := Replicate(s, p, f, putFails);
    if r.Ok? {
      OnlyPut(s, s', Nas, p, s.local[p]);
      SetBitmaskOne(s.db, p, s.db.rows[p].bitmask + {Nas});
    }
  }

  lemma UploadRuns(s: State, p: FvfsPath, f: Faults, putFails: bool)
    requires p in s.db.rows
    ensures
      var (s', r) := Upload(s, p, f, putFails);
      var done := HasSource(s, p, UploadS3, f) && !putFails;
      && r.Ok? == done && (!done ==> SameStores(s, s'))
      && (done ==> OnlyAt(s, s', S3, p))
      && (done ==> forall t | AnswersFrom(s, p, f, t) :: Holds(s'.s3, p, BackendOf(s, t)[p]))
      && ReplayConfluence.RowsMarked(s.db.rows, s'.db.rows, p, if done then {S3} else {})
  {
    hide UniqueIds, References, OnlyAt, AnswersFrom, Read;
    ReadSucceedsIff(s, p, f);
    ReadKeeps(s, p, f);
    var s', d := Upload(s, p, f, putFails).0, Read(s, p, f).1;
    if d.Ok? && !putFails {
      OnlyPut(s, s', S3, p, d.value);
      ReplayConfluence.MarkAfterStats(s.db, Read(s, p, f).0.db, p, S3);
    }
  }

  /** What an entry's operation does, for any failures: its copy and its mark, both or neither. */
  ghost predicate Ran(s: State, s': State, p: FvfsPath, op: WalOp, f: Faults, done: bool)
    requires done ==> HasSource(s, p, op, f)
  {
    var t := ReplayConfluence.TierOf(op);
    && ReplayConfluence.RowsMarked(s.db.rows, s'.db.rows, p, if done then {t} else {})
    && if !done then SameStores(s, s')
       else
         && OnlyAt(s, s', t, p)
         && (op.ReplicateNas? ==> Holds(s'.nas, p, s.local[p]))
         && (op.UploadS3? ==> forall u | AnswersFrom(s, p, f, u) :: Holds(s'.s3, p, BackendOf(s, u)[p]))
  }

  lemma RunEntryRuns(s: State, p: FvfsPath, op: WalOp, f: Faults, putFails: bool)
    requires p in s.db.rows
    ensures
      var (s', r) := RunEntry(s, p, op, f, putFails);
      && (r.Ok? <==> HasSource(s, p, op, f) && !putFails)
      && Ran(s, s', p, op, f, r.Ok?) && s'.db.wal == s.db.wal
  {
    hide UniqueIds, References, OnlyAt, AnswersFrom, Upload, Replicate;
    RunEntryTables(s, p, op, f, putFails);
    match op
    case ReplicateNas => ReplicateRuns(s, p, f, putFails);
    case UploadS3 => UploadRuns(s, p, f, putFails);
  }

  /**
   Under any failures an attempt removes its entry exactly when the entry's source can be read and the put does
   not fail. Then the bytes read are on the entry's tier, the row is marked there and no other object changes.
   Otherwise no object and no bitmask changes and the entry has one more attempt.
   */
  lemma AttemptEffect(s: State, w: nat, f: Faults, putFails: bool)
    requires Live(s, w)
    ensures
      var s', p, op := Step(s, AttemptEv(w, f, putFails)), ReplayConfluence.Target(s, w), s.db.wal[w].op;
      && (w !in s'.db.wal <==> HasSource(s, p, op, f) && !putFails)
      && Ran(s, s', p, op, f, w !in s'.db.wal)
      && (w in s'.db.wal ==> s'.db.wal[w] == s.db.wal[w].(attempts := s.db.wal[w].attempts + 1))
      && (forall v | v != w :: (v in s'.db.wal <==> v in s.db.wal) && (v in s.db.wal ==> s'.db.wal[v] == s.db.wal[v]))
  {
    hide UniqueIds, References, RunEntry, HasSource, Ran, Attempt, ReplayConfluence.Target, RecordFailure;
    var p, op := ReplayConfluence.Target(s, w), s.db.wal[w].op;
    RunEntryRuns(s, p, op, f, putFails);
    AttemptSettles(s, w, f, putFails);
    var (s1, r) := RunEntry(s, p, op, f, putFails);
    RanThen(s, s1, Attempt(s, w, f, putFails), p, op, f, r.Ok?);
  }

  lemma AttemptSettles(s: State, w: nat, f: Faults, putFails: bool)
    requires Live(s, w)
    ensures
      var (s1, r) := RunEntry(s, ReplayConfluence.Target(s, w), s.db.wal[w].op, f, putFails);
      Attempt(s, w, f, putFails) ==
      s1.(db := if r.Ok? then CompleteEntry(s1.db, w) else RecordFailure(s1.db, w))
  {
    hide UniqueIds, RunEntry, CompleteEntry, RecordFailure;
  }

  lemma RanThen(s: State, s1: State, s2: State, p: FvfsPath, op: WalOp, f: Faults, done: bool)
    requires (done ==> HasSource(s, p, op, f)) && Ran(s, s1, p, op, f, done)
    requires SameStores(s1, s2) && s2.db.rows == s1.db.rows
    ensures Ran(s, s2, p, op, f, done)
  {
    hide UniqueIds, References, AnswersFrom, HasSource;
    if done { OnlyAtThen(s, s1, s2, ReplayConfluence.TierOf(op), p); }
    hide OnlyAt;
  }

  lemma OnlyAtThen(s: State, s1: State, s2: State, t: Tier, p: FvfsPath)
    requires OnlyAt(s, s1, t, p) && SameStores(s1, s2)
    ensures OnlyAt(s, s2, t, p)
  {
    hide UniqueIds, References;
    forall u, q | !(u == t && q == p) ensures SameAt(s, s2, u, q) { assert SameAt(s, s1, u, q); }
  }

  lemma TargetById(s: State, w: nat, p: FvfsPath)
    requires w in s.db.wal
    ensures ReplayConfluence.Target(s, w) == p <==> p in s.db.rows && s.db.rows[p].id == s.db.wal[w].fileId
  {
  }

  /** An entry is tried as long as nine failures or fewer are stored for it; from ten on nothing happens. */
  lemma TenAttempts(s: State, w: nat, f: Faults, putFails: bool)
    ensures Step(s, AttemptEv(w, f, putFails)) != s <==> w in s.db.wal && s.db.wal[w].attempts <= 9
  {
    hide Attempt, UniqueIds, References, HasSource, Ran;
    if Live(s, w) {
      AttemptEffect(s, w, f, putFails);
    } else {
      DeadEntry(s, w, f, putFails);
    }
  }

  lemma DeadEntry(s: State, w: nat, f: Faults, putFails: bool)
    requires !Live(s, w)
    ensures Attempt(s, w, f, putFails) == s
  {
  }

  /**
   Where bitmasks tell the truth, under any failures: an attempt that removes a file's entry has put the file's
   content on the entry's tier and marked the row; one that does not leaves every object and bitmask alone and
   adds one to its count.
   */
  lemma AttemptDelivers(s: State, w: nat, p: FvfsPath, f: Faults, putFails: bool)
    requires Inv(s) && Live(s, w) && IsFile(s, p) && s.db.rows[p].id == s.db.wal[w].fileId
    ensures
      var s', t := Step(s, AttemptEv(w, f, putFails)), ReplayConfluence.TierOf(s.db.wal[w].op);
      && p in s'.db.rows && Content(s'.db.rows[p]) == Content(s.db.rows[p])
      && (w !in s'.db.wal ==> t in s'.db.rows[p].bitmask && Holds(BackendOf(s', t), p, Content(s.db.rows[p])))
      && (w in s'.db.wal ==>
            && s'.db.wal[w].attempts == s.db.wal[w].attempts + 1 && SameStores(s, s')
            && s'.db.rows[p].bitmask == s.db.rows[p].bitmask)
  {
    TargetById(s, w, p);
    assert FileOk(s, p);
    hide UniqueIds, References, Step, Inv, OnlyAt, AnswersFrom;
    AttemptEffect(s, w, f, putFails);
    var op := s.db.wal[w].op;
    if op.UploadS3? && HasSource(s, p, op, f) {
      var t :| AnswersFrom(s, p, f, t);
      AnswerIsCurrent(s, p, f, t);
    }
  }

  lemma AnswerIsCurrent(s: State, p: FvfsPath, f: Faults, t: Tier)
    requires p in s.db.rows && FileOk(s, p) && AnswersFrom(s, p, f, t)
    ensures BackendOf(s, t)[p] == Content(s.db.rows[p])
  {
    match t case Local => case Nas => case S3 =>
  }

  /** The entry's copy of the file at `p` is on the entry's tier, and the row says so. */
  predicate Delivered(s: State, op: WalOp, p: FvfsPath, d: Bytes) {
    var t := ReplayConfluence.TierOf(op);
    p in s.db.rows && t in s.db.rows[p].bitmask && Holds(BackendOf(s, t), p, d)
  }

  /** Only an attempt at the entry, or the delete of its file, takes an entry out of the WAL. */
  lemma EntryStays(s: State, e: Event, w: nat)
    requires w in s.db.wal && !(e.AttemptEv? && e.entry == w)
    requires e.DeleteEv? ==> e.path != ReplayConfluence.Target(s, w)
    ensures w in Step(s, e).db.wal
  {
    hide UniqueIds, References, Upserted, EnsureParents;
    match e
    case WriteEv(p, d, x) => if !x { WriteTables(s, p, d); }
    case MkdirEv(p) =>
    case ReadEv(p, f) => ReadKeeps(s, p, f);
    case DeleteEv(p, f) => TargetById(s, w, p);
    case EvictEv(p, t, x) =>
    case PromoteEv(f, x) => PromoteTables(s, f, x);
    case AttemptEv(v, f, x) => if Live(s, v) { AttemptEffect(s, v, f, x); }
    case RestartEv =>
    case ClockEv(now) =>
  }

  /**
   No copy a file still lacks is forgotten: in every serialised run, under every pattern of failures, an entry
   for a file leaves the WAL only when the file is deleted, or when its copy of the file's current bytes is on
   its tier and marked.
   */
  lemma EntriesLeaveDelivered(es: seq<Event>, e: Event, w: nat, p: FvfsPath)
    requires
      var s := Run(es);
      w in s.db.wal && w !in Run(es + [e]).db.wal && IsFile(s, p) && s.db.rows[p].id == s.db.wal[w].fileId
    ensures (e.DeleteEv? && e.path == p) ||
            (p in SpecRun(es) && SpecRun(es)[p].FileNode? &&
             Delivered(Run(es + [e]), Run(es).db.wal[w].op, p, SpecRun(es)[p].bytes))
  {
    hide Step, UniqueIds, References, RunFrom, Inv;
    var s := Run(es);
    RunInvariant(es);
    RunFromSnoc(INITIAL_STATE, es, e);
    TargetById(s, w, p);
    assert p in Abs(s.db.rows);
    if e.AttemptEv? && e.entry == w {
      TenAttempts(s, w, e.faults, e.putFails);
      AttemptDelivers(s, w, p, e.faults, e.putFails);
    } else if !(e.DeleteEv? && e.path == p) {
      EntryStays(s, e, w);
    }
  }

  // ---- every event

  /** The event may change the object at `q` on the tier. */
  predicate Touches(s: State, e: Event, t: Tier, q: FvfsPath) {
    match e
    case WriteEv(p, _, putFails) => q == p && t == Local && !putFails
    case DeleteEv(p, f) => q == p && p in s.db.rows && t in s.db.rows[p].bitmask && !FailsOn(f, t)
    case EvictEv(p, u, fails) => q == p && t == u && t != S3 && !fails
    case PromoteEv(_, putFails) => t == Local && s.queue != [] && q == s.queue[0] && !putFails
    case AttemptEv(w, _, putFails) =>
      Live(s, w) && q == ReplayConfluence.Target(s, w) && t == ReplayConfluence.TierOf(s.db.wal[w].op) && !putFails
    case _ => false
  }

  /** No other event, and no failed call, changes an object: reads, mkdir and restarts change none. */
  lemma ObjectsChangeOnlyWhereTouched(s: State, e: Event, t: Tier, q: FvfsPath)
    requires !Touches(s, e, t, q)
    ensures SameAt(s, Step(s, e), t, q)
  {
    hide UniqueIds, References, Read, Write, Mkdir, Delete, Evict, Promote, Attempt, AnswersFrom, HasSource, Serves;
    match e
    case WriteEv(p, d, x) => WriteEffect(s, p, d, x);
    case MkdirEv(p) => MkdirEffect(s, p);
    case ReadEv(p, f) => ReadKeeps(s, p, f);
    case DeleteEv(p, f) => DeleteEffect(s, p, f);
    case EvictEv(p, u, x) => EvictEffect(s, p, u, x);
    case PromoteEv(f, x) => PromoteTouches(s, f, x, t, q);
    case AttemptEv(w, f, x) => AttemptTouches(s, w, f, x, t, q);
    case RestartEv =>
    case ClockEv(now) =>
  }

  lemma SameStoresSame(s: State, s': State, t: Tier, q: FvfsPath)
    requires s'.local == s.local && s'.nas == s.nas && s'.s3 == s.s3
    ensures SameAt(s, s', t, q)
  {
  }

  lemma SameElsewhere(s: State, s': State, u: Tier, p: FvfsPath, t: Tier, q: FvfsPath)
    requires SameStores(s, s') || (OnlyAt(s, s', u, p) && !(t == u && q == p))
    ensures SameAt(s, s', t, q)
  {
    hide UniqueIds, References;
    if SameStores(s, s') { SameStoresSame(s, s', t, q); }
    hide SameAt;
  }

  /** The stores after a promotion. */
  lemma PromoteStores(s: State, f: Faults, putFails: bool)
    requires s.queue != []
    ensures
      var s' := Promote(s, f, putFails);
      SameStores(s, s') || (!putFails && OnlyAt(s, s', Local, s.queue[0]))
  {
    hide UniqueIds, References, Promote, AnswersFrom, ReplayConfluence.RowsMarked, OnlyAt;
    PromoteEffect(s, f, putFails);
    if u :| AnswersFrom(s, s.queue[0], f, u) {
    }
  }

  lemma PromoteTouches(s: State, f: Faults, putFails: bool, t: Tier, q: FvfsPath)
    requires !Touches(s, PromoteEv(f, putFails), t, q)
    ensures SameAt(s, Promote(s, f, putFails), t, q)
  {
    if s.queue != [] {
      hide UniqueIds, References, Promote, SameStores, OnlyAt, SameAt;
      PromoteStores(s, f, putFails);
      SameElsewhere(s, Promote(s, f, putFails), Local, s.queue[0], t, q);
    }
  }

  lemma RanStores(s: State, s': State, p: FvfsPath, op: WalOp, f: Faults, done: bool)
    requires (done ==> HasSource(s, p, op, f)) && Ran(s, s', p, op, f, done)
    ensures if done then OnlyAt(s, s', ReplayConfluence.TierOf(op), p) else SameStores(s, s')
  {
    hide OnlyAt, SameStores, UniqueIds, References;
  }

  lemma AttemptElsewhere(s: State, w: nat, f: Faults, putFails: bool, t: Tier, q: FvfsPath)
    requires Live(s, w)
    requires putFails || q != ReplayConfluence.Target(s, w) || t != ReplayConfluence.TierOf(s.db.wal[w].op)
    ensures SameAt(s, Attempt(s, w, f, putFails), t, q)
  {
    hide UniqueIds, References, Attempt, HasSource, Ran, ReplayConfluence.Target, SameStores, OnlyAt, SameAt;
    AttemptEffect(s, w, f, putFails);
    var s', p, op := Attempt(s, w, f, putFails), ReplayConfluence.Target(s, w), s.db.wal[w].op;
    var done := HasSource(s, p, op, f) && !putFails;
    assert done == (w !in s'.db.wal);
    RanStores(s, s', p, op, f, done);
    SameElsewhere(s, s', ReplayConfluence.TierOf(op), p, t, q);
  }

  lemma AttemptTouches(s: State, w: nat, f: Faults, putFails: bool, t: Tier, q: FvfsPath)
    requires !Touches(s, AttemptEv(w, f, putFails), t, q)
    ensures SameAt(s, Attempt(s, w, f, putFails), t, q)
  {
    hide UniqueIds, References, Attempt, ReplayConfluence.Target;
    if Live(s, w) {
      AttemptElsewhere(s, w, f, putFails, t, q);
    } else {
      DeadEntry(s, w, f, putFails);
    }
  }

  /** A restart loses the promotion signals and the connection's last inserted id, and nothing that is stored. */
  lemma RestartEffect(s: State)
    ensures
      var s' := Step(s, RestartEv);
      && s'.queue == [] && s'.db.lastRowid == 0 && s'.clock == s.clock
      && SameStores(s, s') && s'.db.rows == s.db.rows && s'.db.wal == s.db.wal
  {
  }
}
