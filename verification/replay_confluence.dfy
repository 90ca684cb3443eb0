/**
 WAL replay with healthy backends: in any order, cut short at any statement and started again, it
 ends with the same NAS and S3 contents, the same bitmasks and the same remaining entries, from every
 state in which bitmasks tell no lies and no file is torn between its two entries.
 */
module ReplayConfluence {
  import opened Paths
  import opened Tiers
  import opened Store
  import opened Protocol
  import opened SerialRuns

  // ---- Steps of interrupted replays

  /**
   A whole attempt; an attempt cut short after an upload's read has counted its access, after the copy
   reached the backend, or after the bitmask was also written; or the restart that follows.
   */
  datatype ReplayStep =
    | Whole(entry: nat)
    | CutAfterRead(entry: nat)
    | CutAfterPut(entry: nat)
    | CutAfterMark(entry: nat)
    | Again

  /** The file an entry is about and whether its effect can succeed. */
  predicate CanRun(s: State, w: nat)
    requires w in s.db.wal
  {
    var p := Target(s, w);
    match s.db.wal[w].op
    case ReplicateNas => p in s.local
    case UploadS3 => IsFile(s, p) && Readable(s, p)
  }

  /** With healthy backends a read of the file would find an object: at the first tier its bitmask leads to. */
  predicate Readable(s: State, p: FvfsPath) {
    p in s.db.rows &&
    var bm := s.db.rows[p].bitmask;
    (Local in bm && p in s.local) || (if Nas in bm then p in s.nas else S3 in bm && p in s.s3)
  }

  lemma HealthyReadIff(s: State, p: FvfsPath)
    ensures Read(s, p, HEALTHY).1.Ok? <==> IsFile(s, p) && Readable(s, p)
  {
    hide UniqueIds, References;
  }

  function Target(s: State, w: nat): (p: FvfsPath)
    requires w in s.db.wal
    ensures p in s.db.rows && s.db.rows[p].id == s.db.wal[w].fileId
  {
    assert HasId(s.db.rows, s.db.wal[w].fileId);
    PathOfId(s.db, s.db.wal[w].fileId).value
  }

  /** The copy alone, as `put` leaves it when the daemon stops right after. */
  function PutOnly(s: State, w: nat): State
    requires w in s.db.wal
  {
    var p := Target(s, w);
    match s.db.wal[w].op
    case ReplicateNas => if p in s.local then s.(nas := s.nas[p := s.local[p]]) else s
    case UploadS3 =>
      var (s1, r) := Read(s, p, HEALTHY);
      if r.Ok? then s1.(s3 := s1.s3[p := r.value]) else s1
  }

  /** An upload's read alone; a replication's read leaves no trace. */
  function ReadOnly(s: State, w: nat): State
    requires w in s.db.wal
  {
    if s.db.wal[w].op.UploadS3? then Read(s, Target(s, w), HEALTHY).0 else s
  }

  function ReplayOne(s: State, step: ReplayStep): State {
    match step
    case Again => Restart(s)
    case Whole(w) => Attempt(s, w, HEALTHY, false)
    case CutAfterRead(w) => if Live(s, w) then ReadOnly(s, w) else s
    case CutAfterPut(w) => if Live(s, w) then PutOnly(s, w) else s
    case CutAfterMark(w) =>
      if Live(s, w) then RunEntry(s, Target(s, w), s.db.wal[w].op, HEALTHY, false).0 else s
  }

  function ReplayMany(s: State, steps: seq<ReplayStep>): State {
    if steps == [] then s else ReplayOne(ReplayMany(s, steps[..|steps| - 1]), steps[|steps| - 1])
  }

  // ---- What replay must leave behind, computed from where it started

  /** Some entry with attempts left asks for this of the file. */
  predicate Reached(wal: Wal, id: nat, op: WalOp) {
    exists w :: w in wal && wal[w].attempts < MAX_ATTEMPTS && wal[w].op == op && wal[w].fileId == id
  }

  predicate NasDue(s: State, p: FvfsPath) {
    p in s.db.rows && p in s.local && Reached(s.db.wal, s.db.rows[p].id, ReplicateNas)
  }

  predicate S3Due(s: State, p: FvfsPath) {
    IsFile(s, p) && Readable(s, p) && Reached(s.db.wal, s.db.rows[p].id, UploadS3)
  }

  datatype Outcome = Outcome(nas: Backend, s3: Backend, bitmasks: map<FvfsPath, TierBitmask>, wal: Wal)

  function OutcomeNas(s: State): Backend {
    map p | p in s.nas.Keys + s.db.rows.Keys && (p in s.nas || NasDue(s, p)) ::
      if NasDue(s, p) then s.local[p] else s.nas[p]
  }

  function OutcomeS3(s: State): Backend {
    map p | p in s.s3.Keys + s.db.rows.Keys && (p in s.s3 || S3Due(s, p)) ::
      if S3Due(s, p) then Content(s.db.rows[p]) else s.s3[p]
  }

  function OutcomeBitmask(s: State, p: FvfsPath): TierBitmask
    requires p in s.db.rows
  {
    s.db.rows[p].bitmask + (if NasDue(s, p) then {Nas} else {}) + (if S3Due(s, p) then {S3} else {})
  }

  /** Entries that can run are gone; live ones that cannot have used up their attempts. */
  function OutcomeWal(s: State): Wal {
    map w | w in s.db.wal && !(Live(s, w) && CanRun(s, w)) ::
      if Live(s, w) then s.db.wal[w].(attempts := MAX_ATTEMPTS) else s.db.wal[w]
  }

  function OutcomeOf(s: State): Outcome {
    Outcome(OutcomeNas(s), OutcomeS3(s), map p | p in s.db.rows :: OutcomeBitmask(s, p), OutcomeWal(s))
  }

  /** What is there now, as an outcome. */
  function Present(s: State): Outcome {
    Outcome(s.nas, s.s3, map p | p in s.db.rows :: s.db.rows[p].bitmask, s.db.wal)
  }

  /** Replay stops when no entry has attempts left. */
  predicate Settled(s: State) {
    forall w | w in s.db.wal :: !Live(s, w)
  }

  // ---- Where replay may start

  /** Copies the bitmask names are not out of date, nor is a local one; a set S3 bit means S3 has the bytes. */
  predicate TruthfulAt(s: State, p: FvfsPath)
    requires p in s.db.rows
  {
    var r := s.db.rows[p];
    && r.hash.Sha256?
    && (p in s.local ==> s.local[p] == Content(r))
    && (Nas in r.bitmask && p in s.nas ==> s.nas[p] == Content(r))
    && (S3 in r.bitmask ==> Holds(s.s3, p, Content(r)))
  }

  ghost predicate Truthful(s: State) {
    forall p | IsFile(s, p) :: TruthfulAt(s, p)
  }

  /** No read can serve the file's upload, but its replication would put back the copy reads look for. */
  predicate Torn(s: State, p: FvfsPath) {
    && IsFile(s, p) && p in s.local && !Readable(s, p)
    && Reached(s.db.wal, s.db.rows[p].id, ReplicateNas) && Reached(s.db.wal, s.db.rows[p].id, UploadS3)
  }

  ghost predicate Untorn(s: State) {
    forall p :: !Torn(s, p)
  }

  /** States of serialised runs are such: every file can be read. */
  lemma InvStarts(s: State)
    requires Inv(s)
    ensures Truthful(s) && Untorn(s)
    ensures forall p | IsFile(s, p) :: Readable(s, p)
  {
    forall p | IsFile(s, p) ensures TruthfulAt(s, p) && Readable(s, p) {
      assert FileOk(s, p);
      ReadCurrent(s, p, HEALTHY);
      HealthyReadIff(s, p);
    }
  }

  lemma TruthfulRead(s: State, p: FvfsPath)
    requires Truthful(s) && Read(s, p, HEALTHY).1.Ok?
    ensures IsFile(s, p) && Read(s, p, HEALTHY).1.value == Content(s.db.rows[p])
  {
    HealthyReadIff(s, p);
    assert TruthfulAt(s, p);
    hide UniqueIds, References, Truthful;
  }

  // ---- What one step does

  function TierOf(op: WalOp): Tier {
    match op case ReplicateNas => Nas case UploadS3 => S3
  }

  /** Rows as before, but for statistics and for tiers added to the bitmask of `p`. */
  ghost predicate RowsMarked(rows: Rows, rows': Rows, p: FvfsPath, added: TierBitmask) {
    && rows'.Keys == rows.Keys
    && forall q | q in rows ::
         && rows'[q].id == rows[q].id && rows'[q].kind == rows[q].kind && rows'[q].hash == rows[q].hash
         && rows'[q].size == rows[q].size
         && rows'[q].bitmask == rows[q].bitmask + if q == p then added else {}
  }

  /** The effect of an entry, as far as it got: the copy, and the mark. */
  ghost predicate Effect(s: State, s': State, w: nat, copied: bool, marked: bool)
    requires w in s.db.wal && (copied ==> CanRun(s, w))
  {
    var p, op := Target(s, w), s.db.wal[w].op;
    && s'.local == s.local
    && s'.nas == (if copied && op.ReplicateNas? then s.nas[p := s.local[p]] else s.nas)
    && s'.s3 == (if copied && op.UploadS3? then s.s3[p := Content(s.db.rows[p])] else s.s3)
    && RowsMarked(s.db.rows, s'.db.rows, p, if marked then {TierOf(op)} else {})
  }

  lemma ReplicateEffect(s: State, w: nat)
    requires w in s.db.wal && s.db.wal[w].op.ReplicateNas?
    ensures
      var (s', r) := Replicate(s, Target(s, w), HEALTHY, false);
      && r.Ok? == CanRun(s, w) && s'.db.wal == s.db.wal
      && Effect(s, s', w, CanRun(s, w), CanRun(s, w))
  {
    var p := Target(s, w);
    SetBitmaskOne(s.db, p, s.db.rows[p].bitmask + {Nas});
  }

  /** Marking a tier after a read counted an access. */
  lemma MarkAfterStats(db: Db, db1: Db, p: FvfsPath, t: Tier)
    requires p in db.rows && StatsOnly(db.rows, db1.rows)
    ensures RowsMarked(db.rows, SetBitmask(db1, db.rows[p].id, db.rows[p].bitmask + {t}).rows, p, {t})
  {
  }

  /** Uploads with healthy backends: a readable file's content reaches S3, anything else is refused. */
  lemma HealthyUpload(s: State, p: FvfsPath)
    requires Truthful(s) && p in s.db.rows
    ensures
      var (s', r) := Upload(s, p, HEALTHY, false);
      && r.Ok? == (IsFile(s, p) && Readable(s, p))
      && s'.local == s.local && s'.nas == s.nas && s'.db.wal == s.db.wal
      && s'.s3 == (if r.Ok? then s.s3[p := Content(s.db.rows[p])] else s.s3)
      && RowsMarked(s.db.rows, s'.db.rows, p, if r.Ok? then {S3} else {})
  {
    ReadKeeps(s, p, HEALTHY);
    HealthyReadIff(s, p);
    var (s1, r) := Read(s, p, HEALTHY);
    if r.Ok? {
      TruthfulRead(s, p);
      MarkAfterStats(s.db, s1.db, p, S3);
    } else {
      assert s1 == s;
    }
    hide Readable, Truthful, UniqueIds, References;
  }

  lemma UploadEffect(s: State, w: nat)
    requires Truthful(s) && w in s.db.wal && s.db.wal[w].op.UploadS3?
    ensures
      var (s', r) := Upload(s, Target(s, w), HEALTHY, false);
      && r.Ok? == CanRun(s, w) && s'.db.wal == s.db.wal
      && Effect(s, s', w, CanRun(s, w), CanRun(s, w))
  {
    HealthyUpload(s, Target(s, w));
  }

  lemma RunEntryEffect(s: State, w: nat)
    requires Truthful(s) && w in s.db.wal
    ensures
      var (s', r) := RunEntry(s, Target(s, w), s.db.wal[w].op, HEALTHY, false);
      && r.Ok? == CanRun(s, w) && s'.db.wal == s.db.wal
      && Effect(s, s', w, CanRun(s, w), CanRun(s, w))
  {
    match s.db.wal[w].op
    case ReplicateNas => ReplicateEffect(s, w);
    case UploadS3 => UploadEffect(s, w);
  }

  lemma PutOnlyEffect(s: State, w: nat)
    requires Truthful(s) && w in s.db.wal
    ensures PutOnly(s, w).db.wal == s.db.wal && Effect(s, PutOnly(s, w), w, CanRun(s, w), false)
  {
    if s.db.wal[w].op.UploadS3? {
      UploadPutEffect(s, w);
    }
    hide UniqueIds, References, Truthful, Readable, Read;
  }

  lemma UploadPutEffect(s: State, w: nat)
    requires Truthful(s) && w in s.db.wal && s.db.wal[w].op.UploadS3?
    ensures PutOnly(s, w).db.wal == s.db.wal && Effect(s, PutOnly(s, w), w, CanRun(s, w), false)
  {
    hide Read, Readable, Truthful, UniqueIds, References, Target;
    var p := Target(s, w);
    ReadKeeps(s, p, HEALTHY);
    HealthyReadIff(s, p);
    if Read(s, p, HEALTHY).1.Ok? {
      TruthfulRead(s, p);
    }
  }

  lemma ReadOnlyEffect(s: State, w: nat)
    requires w in s.db.wal
    ensures ReadOnly(s, w).db.wal == s.db.wal && Effect(s, ReadOnly(s, w), w, false, false)
  {
    if s.db.wal[w].op.UploadS3? {
      ReadKeeps(s, Target(s, w), HEALTHY);
    }
    hide Read;
  }

  /** An effect keeps the copies current. */
  lemma EffectKeepsTruth(s: State, s': State, w: nat, copied: bool, marked: bool)
    requires Truthful(s) && w in s.db.wal && (copied ==> CanRun(s, w)) && (marked ==> copied)
    requires Effect(s, s', w, copied, marked)
    ensures Truthful(s')
  {
    forall q | IsFile(s', q) ensures TruthfulAt(s', q) {
      assert TruthfulAt(s, q);
      EffectKeepsFile(s, s', w, copied, marked, q);
    }
  }

  lemma EffectKeepsFile(s: State, s': State, w: nat, copied: bool, marked: bool, q: FvfsPath)
    requires w in s.db.wal && (copied ==> CanRun(s, w)) && (marked ==> copied)
    requires Effect(s, s', w, copied, marked) && IsFile(s, q) && TruthfulAt(s, q)
    ensures q in s'.db.rows && TruthfulAt(s', q)
  {
    EffectNas(s, s', w, copied, marked, q);
    EffectS3(s, s', w, copied, marked, q);
    hide UniqueIds, References, CanRun, RowsMarked;
    assert About(s, w, q, ReplicateNas) && copied ==> q in s.local by { RunnableLocal(s, w); }
  }

  /** Whether the entry asks for this of `q`. */
  predicate About(s: State, w: nat, q: FvfsPath, op: WalOp)
    requires w in s.db.wal
  {
    q == Target(s, w) && op == s.db.wal[w].op
  }

  lemma RunnableLocal(s: State, w: nat)
    requires w in s.db.wal
    ensures CanRun(s, w) && s.db.wal[w].op.ReplicateNas? ==> Target(s, w) in s.local
    ensures CanRun(s, w) && s.db.wal[w].op.UploadS3? ==> IsFile(s, Target(s, w)) && Readable(s, Target(s, w))
  {
    hide UniqueIds, References, Target, Readable;
  }

  /** What an effect does at `q` on the NAS. */
  lemma EffectNas(s: State, s': State, w: nat, copied: bool, marked: bool, q: FvfsPath)
    requires w in s.db.wal && (copied ==> CanRun(s, w)) && (marked ==> copied) && Effect(s, s', w, copied, marked)
    ensures s'.local == s.local
    ensures if copied && About(s, w, q, ReplicateNas) then q in s.local && Holds(s'.nas, q, s.local[q])
            else (q in s'.nas <==> q in s.nas) && (q in s.nas ==> s'.nas[q] == s.nas[q])
    ensures q in s.db.rows ==>
              && q in s'.db.rows && s'.db.rows[q].hash == s.db.rows[q].hash
              && (Local in s'.db.rows[q].bitmask <==> Local in s.db.rows[q].bitmask)
              && (Nas in s'.db.rows[q].bitmask <==>
                    Nas in s.db.rows[q].bitmask || (marked && About(s, w, q, ReplicateNas)))
  {
    RunnableLocal(s, w);
    hide UniqueIds, References, CanRun, Target;
  }

  /** And on S3. */
  lemma EffectS3(s: State, s': State, w: nat, copied: bool, marked: bool, q: FvfsPath)
    requires w in s.db.wal && (copied ==> CanRun(s, w)) && (marked ==> copied) && Effect(s, s', w, copied, marked)
    ensures q in s.db.rows <==> q in s'.db.rows
    ensures if copied && About(s, w, q, UploadS3) then Holds(s'.s3, q, Content(s.db.rows[q]))
            else (q in s'.s3 <==> q in s.s3) && (q in s.s3 ==> s'.s3[q] == s.s3[q])
    ensures q in s.db.rows ==>
              && s'.db.rows[q].hash == s.db.rows[q].hash && IsFile(s', q) == IsFile(s, q)
              && s'.db.rows[q].id == s.db.rows[q].id
              && (S3 in s'.db.rows[q].bitmask <==>
                    S3 in s.db.rows[q].bitmask || (marked && About(s, w, q, UploadS3)))
  {
    hide UniqueIds, References, CanRun, Target;
  }

  /** An effect never makes a file unreadable, and makes one readable only by replicating it. */
  lemma EffectReadable(s: State, s': State, w: nat, copied: bool, marked: bool, q: FvfsPath)
    requires w in s.db.wal && (copied ==> CanRun(s, w)) && (marked ==> copied)
    requires Effect(s, s', w, copied, marked) && IsFile(s, q)
    ensures Readable(s, q) ==> Readable(s', q)
    ensures Readable(s', q) && !Readable(s, q) ==>
              copied && q == Target(s, w) && s.db.wal[w].op.ReplicateNas? && q in s.local
  {
    EffectNas(s, s', w, copied, marked, q);
    EffectS3(s, s', w, copied, marked, q);
    RunnableLocal(s, w);
    hide UniqueIds, References, Target, Effect, CanRun;
  }

  // ---- The outcome does not move

  /** The WAL after a step: as it was, without an entry that is done, or with a failure more of one that cannot run. */
  ghost predicate Settles(wal: Wal, wal': Wal, w: nat, done: bool, canRun: bool)
    requires w in wal
  {
    || wal' == wal
    || (wal' == wal - {w} && done)
    || (wal' == wal[w := wal[w].(attempts := wal[w].attempts + 1)] && !canRun)
  }

  ghost predicate OneStep(s: State, s': State, w: nat, copied: bool, marked: bool) {
    && Live(s, w) && (copied ==> CanRun(s, w)) && (marked ==> copied)
    && Effect(s, s', w, copied, marked)
    && Settles(s.db.wal, s'.db.wal, w, copied && marked, CanRun(s, w))
  }

  /** An entry of another kind or file stays live; so does this one unless it is done or cannot run. */
  lemma ReachedStable(wal: Wal, wal': Wal, w: nat, done: bool, canRun: bool, id: nat, op: WalOp)
    requires w in wal && Settles(wal, wal', w, done, canRun)
    ensures Reached(wal', id, op) ==> Reached(wal, id, op)
    ensures Reached(wal, id, op) ==>
              || Reached(wal', id, op)
              || (id == wal[w].fileId && op == wal[w].op && (!canRun || done))
  {
    if Reached(wal', id, op) {
      var v :| v in wal' && wal'[v].attempts < MAX_ATTEMPTS && wal'[v].op == op && wal'[v].fileId == id;
      assert v in wal && wal[v].attempts < MAX_ATTEMPTS;
    }
    if Reached(wal, id, op) && !(id == wal[w].fileId && op == wal[w].op) {
      var v :| v in wal && wal[v].attempts < MAX_ATTEMPTS && wal[v].op == op && wal[v].fileId == id;
      assert v != w && v in wal' && wal'[v] == wal[v];
    }
  }

  /** At `q`: what was due on the NAS is still due or done, and nothing else changed there. */
  ghost predicate NasConsistent(s: State, s': State, q: FvfsPath) {
    && (q in s.db.rows <==> q in s'.db.rows)
    && (NasDue(s', q) ==> NasDue(s, q) && s'.local[q] == s.local[q])
    && (NasDue(s, q) && !NasDue(s', q) ==> Holds(s'.nas, q, s.local[q]) && Nas in s'.db.rows[q].bitmask)
    && (!NasDue(s, q) ==> (q in s.nas <==> q in s'.nas) && (q in s.nas ==> s'.nas[q] == s.nas[q]))
    && (q in s.db.rows && Nas in s'.db.rows[q].bitmask ==> Nas in s.db.rows[q].bitmask || NasDue(s, q))
  }

  ghost predicate S3Consistent(s: State, s': State, q: FvfsPath) {
    && (q in s.db.rows <==> q in s'.db.rows)
    && (S3Due(s', q) ==> S3Due(s, q) && Content(s'.db.rows[q]) == Content(s.db.rows[q]))
    && (S3Due(s, q) && !S3Due(s', q) ==>
          Holds(s'.s3, q, Content(s.db.rows[q])) && S3 in s'.db.rows[q].bitmask)
    && (!S3Due(s, q) ==> (q in s.s3 <==> q in s'.s3) && (q in s.s3 ==> s'.s3[q] == s.s3[q]))
    && (q in s.db.rows && S3 in s'.db.rows[q].bitmask ==> S3 in s.db.rows[q].bitmask || S3Due(s, q))
  }

  ghost predicate Consistent(s: State, s': State, q: FvfsPath) {
    && NasConsistent(s, s', q) && S3Consistent(s, s', q)
    && (q in s.db.rows ==>
          && s.db.rows[q].bitmask <= s'.db.rows[q].bitmask
          && (Local in s'.db.rows[q].bitmask ==> Local in s.db.rows[q].bitmask))
  }

  /** What is due of `q` stays due, unless the step was about it and is done or cannot run. */
  lemma DueStable(s: State, s': State, w: nat, copied: bool, marked: bool, q: FvfsPath, op: WalOp)
    requires OneStep(s, s', w, copied, marked) && q in s.db.rows
    ensures
      var before, after := Reached(s.db.wal, s.db.rows[q].id, op), Reached(s'.db.wal, s.db.rows[q].id, op);
      && (after ==> before)
      && (before && !after ==> About(s, w, q, op) && (!CanRun(s, w) || (copied && marked)))
      && (About(s, w, q, op) && CanRun(s, w) ==> before)
  {
    ReachedStable(s.db.wal, s'.db.wal, w, copied && marked, CanRun(s, w), s.db.rows[q].id, op);
    assert s.db.rows[q].id == s.db.wal[w].fileId ==> q == Target(s, w);
    hide UniqueIds, References, CanRun, Effect, Settles;
    assert Live(s, w);
  }

  lemma StepNasConsistent(s: State, s': State, w: nat, copied: bool, marked: bool, q: FvfsPath)
    requires OneStep(s, s', w, copied, marked)
    ensures NasConsistent(s, s', q)
  {
    EffectNas(s, s', w, copied, marked, q);
    EffectS3(s, s', w, copied, marked, q);
    RunnableLocal(s, w);
    hide UniqueIds, References, Reached, Settles, Target, Effect, CanRun;
    if q in s.db.rows {
      DueStable(s, s', w, copied, marked, q, ReplicateNas);
    }
  }

  /** Of a file with an upload to come, readability does not change: it is not torn. */
  lemma ReadableStable(s: State, s': State, w: nat, copied: bool, marked: bool, q: FvfsPath)
    requires OneStep(s, s', w, copied, marked) && Untorn(s) && IsFile(s, q)
    requires Reached(s.db.wal, s.db.rows[q].id, UploadS3)
    ensures Readable(s', q) <==> Readable(s, q)
  {
    EffectReadable(s, s', w, copied, marked, q);
    hide UniqueIds, References, Settles, Readable, Effect;
    assert Live(s, w) && !Torn(s, q);
    assert About(s, w, q, ReplicateNas) ==> Reached(s.db.wal, s.db.rows[q].id, ReplicateNas);
  }

  lemma StepKeepsUntorn(s: State, s': State, w: nat, copied: bool, marked: bool)
    requires OneStep(s, s', w, copied, marked) && Untorn(s)
    ensures Untorn(s')
  {
    hide UniqueIds, References, Readable, Settles, Reached;
    forall q | IsFile(s, q) ensures Torn(s', q) ==> Torn(s, q) {
      EffectReadable(s, s', w, copied, marked, q);
      DueStable(s, s', w, copied, marked, q, ReplicateNas);
      DueStable(s, s', w, copied, marked, q, UploadS3);
    }
  }

  lemma StepS3Consistent(s: State, s': State, w: nat, copied: bool, marked: bool, q: FvfsPath)
    requires OneStep(s, s', w, copied, marked) && Untorn(s)
    ensures S3Consistent(s, s', q)
  {
    EffectS3(s, s', w, copied, marked, q);
    RunnableLocal(s, w);
    hide UniqueIds, References, Reached, Settles, Target, Readable, Untorn, Effect, CanRun;
    if IsFile(s, q) {
      DueStable(s, s', w, copied, marked, q, UploadS3);
      if Reached(s.db.wal, s.db.rows[q].id, UploadS3) {
        ReadableStable(s, s', w, copied, marked, q);
      }
    }
  }

  lemma StepConsistent(s: State, s': State, w: nat, copied: bool, marked: bool, q: FvfsPath)
    requires OneStep(s, s', w, copied, marked) && Untorn(s)
    ensures Consistent(s, s', q)
  {
    StepNasConsistent(s, s', w, copied, marked, q);
    StepS3Consistent(s, s', w, copied, marked, q);
  }

  lemma RunnableIsDue(s: State, w: nat)
    requires Live(s, w) && CanRun(s, w)
    ensures if s.db.wal[w].op.ReplicateNas? then NasDue(s, Target(s, w)) else S3Due(s, Target(s, w))
  {
  }

  lemma NasStable(s: State, s': State)
    requires forall q :: Consistent(s, s', q)
    ensures OutcomeNas(s') == OutcomeNas(s)
  {
    forall q ensures q in OutcomeNas(s') <==> q in OutcomeNas(s)
             ensures q in OutcomeNas(s) ==> OutcomeNas(s')[q] == OutcomeNas(s)[q]
    {
      assert Consistent(s, s', q);
    }
  }

  lemma S3Stable(s: State, s': State)
    requires forall q :: Consistent(s, s', q)
    ensures OutcomeS3(s') == OutcomeS3(s)
  {
    forall q ensures q in OutcomeS3(s') <==> q in OutcomeS3(s)
             ensures q in OutcomeS3(s) ==> OutcomeS3(s')[q] == OutcomeS3(s)[q]
    {
      assert Consistent(s, s', q);
    }
  }

  lemma BitmaskStable(s: State, s': State, q: FvfsPath)
    requires Consistent(s, s', q) && q in s.db.rows
    ensures OutcomeBitmask(s', q) == OutcomeBitmask(s, q)
  {
    SameTiers(OutcomeBitmask(s', q), OutcomeBitmask(s, q));
  }

  lemma SameTiers(a: TierBitmask, b: TierBitmask)
    requires (Local in a <==> Local in b) && (Nas in a <==> Nas in b) && (S3 in a <==> S3 in b)
    ensures a == b
  {
    forall t: Tier ensures t in a <==> t in b {
      match t case Local => case Nas => case S3 =>
    }
  }

  /** Entries keep their file while rows keep their ids. */
  ghost predicate SameTargets(s: State, s': State) {
    && s'.local == s.local && s'.db.rows.Keys == s.db.rows.Keys
    && forall q | q in s.db.rows ::
         && s'.db.rows[q].id == s.db.rows[q].id && s'.db.rows[q].kind == s.db.rows[q].kind
         && s'.db.rows[q].hash == s.db.rows[q].hash
  }

  lemma SameTarget(s: State, s': State, v: nat)
    requires SameTargets(s, s') && v in s.db.wal && v in s'.db.wal
    requires s'.db.wal[v].fileId == s.db.wal[v].fileId
    ensures Target(s', v) == Target(s, v)
  {
    assert s'.db.rows[Target(s, v)].id == s'.db.wal[v].fileId;
  }

  lemma CanRunStable(s: State, s': State, v: nat)
    requires SameTargets(s, s') && v in s.db.wal && v in s'.db.wal
    requires s'.db.wal[v].fileId == s.db.wal[v].fileId && s'.db.wal[v].op == s.db.wal[v].op
    requires s.db.wal[v].op.UploadS3? && IsFile(s, Target(s, v)) ==>
               (Readable(s', Target(s, v)) <==> Readable(s, Target(s, v)))
    ensures CanRun(s', v) == CanRun(s, v)
  {
    SameTarget(s, s', v);
    hide UniqueIds, References, Readable, Target;
  }

  /** Whether a live entry can run does not change. */
  lemma LiveCanRunStable(s: State, s': State, w: nat, copied: bool, marked: bool, v: nat)
    requires OneStep(s, s', w, copied, marked) && Untorn(s)
    requires Live(s, v) && v in s'.db.wal
    ensures CanRun(s', v) == CanRun(s, v)
  {
    hide UniqueIds, References, Readable, Target, Untorn;
    assert SameTargets(s, s');
    var q := Target(s, v);
    if s.db.wal[v].op.UploadS3? && IsFile(s, q) {
      assert Reached(s.db.wal, s.db.rows[q].id, UploadS3);
      ReadableStable(s, s', w, copied, marked, q);
    }
    CanRunStable(s, s', v);
  }

  lemma WalStableAt(s: State, s': State, w: nat, copied: bool, marked: bool, v: nat)
    requires OneStep(s, s', w, copied, marked) && Untorn(s)
    ensures v in OutcomeWal(s') <==> v in OutcomeWal(s)
    ensures v in OutcomeWal(s) ==> OutcomeWal(s')[v] == OutcomeWal(s)[v]
  {
    hide UniqueIds, References, CanRun, Effect, Untorn, OutcomeWal;
    OutcomeWalAt(s, v);
    OutcomeWalAt(s', v);
    if Live(s, v) && v in s'.db.wal {
      LiveCanRunStable(s, s', w, copied, marked, v);
    }
  }

  lemma OutcomeWalAt(s: State, v: nat)
    ensures v in OutcomeWal(s) <==> v in s.db.wal && !(Live(s, v) && CanRun(s, v))
    ensures v in OutcomeWal(s) ==>
              OutcomeWal(s)[v] == if Live(s, v) then s.db.wal[v].(attempts := MAX_ATTEMPTS) else s.db.wal[v]
  {
    hide UniqueIds, References, CanRun;
  }

  lemma WalStable(s: State, s': State, w: nat, copied: bool, marked: bool)
    requires OneStep(s, s', w, copied, marked) && Untorn(s)
    ensures OutcomeWal(s') == OutcomeWal(s)
  {
    forall v ensures v in OutcomeWal(s') <==> v in OutcomeWal(s)
             ensures v in OutcomeWal(s) ==> OutcomeWal(s')[v] == OutcomeWal(s)[v]
    {
      WalStableAt(s, s', w, copied, marked, v);
    }
    hide OutcomeWal;
  }

  lemma OutcomeStable(s: State, s': State)
    requires forall q :: Consistent(s, s', q)
    requires s'.db.rows.Keys == s.db.rows.Keys && OutcomeWal(s') == OutcomeWal(s)
    ensures OutcomeOf(s') == OutcomeOf(s)
  {
    NasStable(s, s');
    S3Stable(s, s');
    forall q | q in s.db.rows ensures OutcomeBitmask(s', q) == OutcomeBitmask(s, q) {
      BitmaskStable(s, s', q);
    }
  }

  lemma StepOutcome(s: State, s': State, w: nat, copied: bool, marked: bool)
    requires OneStep(s, s', w, copied, marked) && Untorn(s)
    ensures OutcomeOf(s') == OutcomeOf(s)
  {
    hide OutcomeOf, OutcomeWal, Consistent;
    forall q ensures Consistent(s, s', q) { StepConsistent(s, s', w, copied, marked, q); }
    WalStable(s, s', w, copied, marked);
    OutcomeStable(s, s');
  }

  lemma WholeStep(s: State, w: nat)
    requires Truthful(s) && Live(s, w)
    ensures OneStep(s, Attempt(s, w, HEALTHY, false), w, CanRun(s, w), CanRun(s, w))
  {
    RunEntryEffect(s, w);
  }

  lemma AttemptRunnable(s: State, w: nat)
    requires Truthful(s) && Live(s, w) && CanRun(s, w)
    ensures
      var s1 := RunEntry(s, Target(s, w), s.db.wal[w].op, HEALTHY, false).0;
      && Attempt(s, w, HEALTHY, false) == s1.(db := CompleteEntry(s1.db, w))
      && s1.db.wal == s.db.wal && Effect(s, s1, w, true, true)
  {
    RunEntryEffect(s, w);
    assert HasId(s.db.rows, s.db.wal[w].fileId);
    hide UniqueIds, References, RunEntry, CanRun, Truthful, Effect;
  }

  /** A healthy attempt adds its tier if it can run, and keeps every row's identity. */
  lemma AttemptMarks(s: State, w: nat)
    requires Truthful(s) && Live(s, w)
    ensures
      var s', p := Attempt(s, w, HEALTHY, false), Target(s, w);
      && SameTargets(s, s') && (forall q | q in s.db.rows :: s.db.rows[q].bitmask <= s'.db.rows[q].bitmask)
      && (CanRun(s, w) ==> w !in s'.db.wal && TierOf(s.db.wal[w].op) in s'.db.rows[p].bitmask)
  {
    WholeStep(s, w);
    if CanRun(s, w) {
      AttemptRunnable(s, w);
    }
    hide UniqueIds, References, Truthful, Attempt, Target, CanRun;
  }

  /** What one healthy attempt at a runnable entry does, for the file it is about. */
  lemma HealthyAttempt(s: State, w: nat, p: FvfsPath)
    requires Truthful(s) && Live(s, w) && CanRun(s, w) && p in s.db.rows && s.db.rows[p].id == s.db.wal[w].fileId
    ensures
      var s', op := Attempt(s, w, HEALTHY, false), s.db.wal[w].op;
      && s'.db.wal == s.db.wal - {w} && s'.local == s.local && s'.db.rows.Keys == s.db.rows.Keys
      && s'.nas == (if op.ReplicateNas? then s.nas[p := s.local[p]] else s.nas)
      && s'.s3 == (if op.UploadS3? then s.s3[p := Content(s.db.rows[p])] else s.s3)
      && s'.db.rows[p].bitmask == s.db.rows[p].bitmask + {TierOf(op)}
      && s'.db.rows[p].id == s.db.rows[p].id && s'.db.rows[p].hash == s.db.rows[p].hash
      && s'.db.rows[p].kind == s.db.rows[p].kind
  {
    assert Target(s, w) == p;
    AttemptRunnable(s, w);
    hide UniqueIds, References, RunEntry, Attempt, Target, Truthful;
  }

  /** The step a move of the replay takes, by how far it got. */
  lemma ReplayOneStep(s: State, step: ReplayStep)
    requires Truthful(s) && !step.Again? && Live(s, step.entry)
    ensures
      var copied := CanRun(s, step.entry) && !step.CutAfterRead?;
      OneStep(s, ReplayOne(s, step), step.entry, copied, copied && !step.CutAfterPut?)
  {
    var w := step.entry;
    match step {
      case Whole(_) => WholeStep(s, w);
      case CutAfterRead(_) => ReadOnlyEffect(s, w);
      case CutAfterPut(_) => PutOnlyEffect(s, w);
      case CutAfterMark(_) => RunEntryEffect(s, w);
    }
    hide UniqueIds, References, CanRun, Effect, Truthful, RunEntry, ReadOnly, PutOnly, Attempt;
  }

  lemma ReplayOneStable(s: State, step: ReplayStep)
    requires Truthful(s) && Untorn(s)
    ensures
      var s' := ReplayOne(s, step);
      Truthful(s') && Untorn(s') && OutcomeOf(s') == OutcomeOf(s)
  {
    var s' := ReplayOne(s, step);
    if step.Again? {
      RestartStable(s);
    } else if Live(s, step.entry) {
      hide OutcomeOf, UniqueIds, References, CanRun, Effect, Settles, Untorn, Truthful, ReplayOne;
      var w, copied := step.entry, CanRun(s, step.entry) && !step.CutAfterRead?;
      var marked := copied && !step.CutAfterPut?;
      ReplayOneStep(s, step);
      EffectKeepsTruth(s, s', w, copied, marked);
      StepKeepsUntorn(s, s', w, copied, marked);
      StepOutcome(s, s', w, copied, marked);
    }
  }

  lemma RestartStable(s: State)
    ensures Truthful(s) ==> Truthful(Restart(s))
    ensures Untorn(s) ==> Untorn(Restart(s))
    ensures OutcomeOf(Restart(s)) == OutcomeOf(s)
  {
    var s' := Restart(s);
    forall q ensures IsFile(s', q) == IsFile(s, q) && Torn(s', q) == Torn(s, q) && Consistent(s, s', q)
             ensures IsFile(s, q) ==> TruthfulAt(s', q) == TruthfulAt(s, q)
    {
      RestartStableAt(s, q);
    }
    RestartKeepsWal(s);
    hide OutcomeOf, OutcomeWal, Torn, TruthfulAt, Consistent, UniqueIds, References;
    OutcomeStable(s, s');
  }

  lemma RestartStableAt(s: State, q: FvfsPath)
    ensures
      var s' := Restart(s);
      && IsFile(s', q) == IsFile(s, q) && Torn(s', q) == Torn(s, q) && Consistent(s, s', q)
      && (IsFile(s, q) ==> TruthfulAt(s', q) == TruthfulAt(s, q))
  {
    hide UniqueIds, References, Reached, Consistent;
    RestartConsistentAt(s, q);
  }

  lemma RestartConsistentAt(s: State, q: FvfsPath)
    ensures Consistent(s, Restart(s), q)
  {
    hide UniqueIds, References, Reached;
  }

  lemma RestartKeepsWal(s: State)
    ensures OutcomeWal(Restart(s)) == OutcomeWal(s)
  {
    hide UniqueIds, References, OutcomeWal;
    var s' := Restart(s);
    forall v ensures v in OutcomeWal(s') <==> v in OutcomeWal(s)
             ensures v in OutcomeWal(s) ==> OutcomeWal(s')[v] == OutcomeWal(s)[v]
    {
      OutcomeWalAt(s, v);
      OutcomeWalAt(s', v);
      if v in s.db.wal { CanRunStable(s, s', v); }
    }
  }

  lemma {:induction false} ReplayManyAppend(s: State, a: seq<ReplayStep>, b: seq<ReplayStep>)
    ensures ReplayMany(s, a + b) == ReplayMany(ReplayMany(s, a), b)
  {
    hide ReplayOne, UniqueIds, References;
    if b == [] {
      assert a + b == a;
    } else {
      var n := |b| - 1;
      ReplayManyAppend(s, a, b[..n]);
      assert (a + b)[..|a + b| - 1] == a + b[..n];
    }
  }

  lemma {:induction false} ReplayManyStable(s: State, steps: seq<ReplayStep>)
    requires Truthful(s) && Untorn(s)
    ensures
      var s' := ReplayMany(s, steps);
      Truthful(s') && Untorn(s') && OutcomeOf(s') == OutcomeOf(s)
  {
    hide Truthful, Untorn, OutcomeOf, ReplayOne, UniqueIds, References;
    if steps == [] {
    } else {
      var n := |steps| - 1;
      ReplayManyStable(s, steps[..n]);
      ReplayOneStable(ReplayMany(s, steps[..n]), steps[n]);
    }
  }

  lemma SettledNothingDue(s: State, p: FvfsPath)
    requires Settled(s)
    ensures !NasDue(s, p) && !S3Due(s, p)
  {
    assert forall id, op :: !Reached(s.db.wal, id, op);
  }

  /** Once settled, what is there is the outcome. */
  lemma SettledIsOutcome(s: State)
    requires Settled(s)
    ensures OutcomeOf(s) == Present(s)
  {
    hide NasDue, S3Due, UniqueIds, References, CanRun;
    forall p ensures !NasDue(s, p) && !S3Due(s, p) { SettledNothingDue(s, p); }
    assert OutcomeNas(s) == s.nas;
    assert OutcomeS3(s) == s.s3;
    assert OutcomeWal(s) == s.db.wal;
  }

  /**
   Two replays of the same state, each in its own order, with its own interruptions and restarts,
   that both run to the end leave the same NAS, S3, bitmasks and WAL.
   */
  lemma ReplayConfluent(s: State, a: seq<ReplayStep>, b: seq<ReplayStep>)
    requires Truthful(s) && Untorn(s) && Settled(ReplayMany(s, a)) && Settled(ReplayMany(s, b))
    ensures Present(ReplayMany(s, a)) == Present(ReplayMany(s, b)) == OutcomeOf(s)
  {
    hide Truthful, Untorn, OutcomeOf, Present, ReplayMany, Settled, UniqueIds, References;
    ReplayManyStable(s, a);
    ReplayManyStable(s, b);
    SettledIsOutcome(ReplayMany(s, a));
    SettledIsOutcome(ReplayMany(s, b));
  }

  /** A finished replay has done every live upload of a readable file: no entry, the bit set, S3 current. */
  lemma ReplayUploadsEverything(s: State, a: seq<ReplayStep>, w: nat)
    requires Truthful(s) && Untorn(s) && Settled(ReplayMany(s, a))
    requires Live(s, w) && s.db.wal[w].op.UploadS3? && IsFile(s, Target(s, w)) && Readable(s, Target(s, w))
    ensures
      var s', p := ReplayMany(s, a), Target(s, w);
      && w !in s'.db.wal && p in s'.db.rows && S3 in s'.db.rows[p].bitmask
      && Holds(s'.s3, p, Content(s.db.rows[p]))
  {
    ReplayConfluent(s, a, a);
    hide Truthful, Untorn, UniqueIds, References, Readable;
    var s', p := ReplayMany(s, a), Target(s, w);
    assert CanRun(s, w);
    RunnableIsDue(s, w);
    assert w !in OutcomeWal(s) && p in OutcomeS3(s);
    assert p in Present(s').bitmasks && Present(s').bitmasks[p] == OutcomeBitmask(s, p);
  }

  /** After any serialised run every start is such, and every file can be read. */
  lemma SerialReplayConfluent(es: seq<Event>, a: seq<ReplayStep>, b: seq<ReplayStep>)
    requires Settled(ReplayMany(Run(es), a)) && Settled(ReplayMany(Run(es), b))
    ensures Present(ReplayMany(Run(es), a)) == Present(ReplayMany(Run(es), b)) == OutcomeOf(Run(es))
    ensures forall p | IsFile(Run(es), p) :: Readable(Run(es), p)
  {
    hide Truthful, Untorn, OutcomeOf, Present, ReplayMany, Settled, Run, Readable, Inv;
    RunInvariant(es);
    InvStarts(Run(es));
    ReplayConfluent(Run(es), a, b);
  }

  lemma FinishedStepIdle(s: State, step: ReplayStep)
    requires Settled(s)
    ensures ReplayOne(s, step) == if step.Again? then Restart(s) else s
  {
    if !step.Again? { assert !Live(s, step.entry); }
  }

  /** Running a finished replay again, any way at all, changes nothing. */
  lemma {:induction false} FinishedReplayIdle(s: State, steps: seq<ReplayStep>)
    requires Settled(s)
    ensures Settled(ReplayMany(s, steps)) && Present(ReplayMany(s, steps)) == Present(s)
  {
    if steps == [] {
    } else {
      var n := |steps| - 1;
      FinishedReplayIdle(s, steps[..n]);
      FinishedStepIdle(ReplayMany(s, steps[..n]), steps[n]);
    }
  }
}
