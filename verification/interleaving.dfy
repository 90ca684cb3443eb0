/**
 Interleavings: any number of reads, evictions, replications, uploads and promotions, advancing one
 backend call or SQL statement at a time, in any order, and stopping (crashing) anywhere. A write,
 mkdir or delete of a path runs while no task is under way on that path.
 */
module Interleaving {
  import opened Results
  import opened Paths
  import opened Tiers
  import opened Store
  import opened Protocol
  import opened SerialRuns

  // ---- Tasks and their program points

  /** Where `TierRouter::read` stands, with the id and bitmask it looked up. */
  datatype ReadPc =
    | Lookup
    | TryLocal(id: nat, bm: TierBitmask)
    | TryNas(id: nat)
    | TryS3(id: nat)
    | Count(id: nat, data: Bytes)
    | Got(data: Bytes)
    | Failed

  datatype Task =
    | Reading(path: FvfsPath, pc: ReadPc)
    | EvictLookup(path: FvfsPath, tier: Tier)
    | EvictDelete(path: FvfsPath, tier: Tier, id: nat, bm: TierBitmask)
    | EvictMark(path: FvfsPath, tier: Tier, id: nat, bm: TierBitmask)
    | ReplicateLookup(entry: nat, fileId: nat)
    | ReplicateGet(entry: nat, path: FvfsPath, id: nat, bm: TierBitmask)
    | ReplicatePut(entry: nat, path: FvfsPath, id: nat, bm: TierBitmask, data: Bytes)
    | ReplicateMark(entry: nat, path: FvfsPath, id: nat, bm: TierBitmask)
    | UploadLookup(entry: nat, fileId: nat)
    | UploadRead(entry: nat, path: FvfsPath, id: nat, bm: TierBitmask, pc: ReadPc)
    | UploadPut(entry: nat, path: FvfsPath, id: nat, bm: TierBitmask, data: Bytes)
    | UploadMark(entry: nat, path: FvfsPath, id: nat, bm: TierBitmask)
    | PromoteRead(path: FvfsPath, pc: ReadPc)
    | PromotePut(path: FvfsPath, data: Bytes)
    | PromoteLookup(path: FvfsPath)
    | PromoteMark(path: FvfsPath, id: nat, bm: TierBitmask)
    | Complete(entry: nat)
    | RecordFailed(entry: nat)
    | Finished

  function Colder(id: nat, bm: TierBitmask): ReadPc {
    if Nas in bm then TryNas(id) else if S3 in bm then TryS3(id) else Failed
  }

  function FetchColder(s: State, p: FvfsPath, id: nat, r: Result<Bytes>): (State, ReadPc) {
    match r
    case Ok(d) => (s.(queue := s.queue + [p]), Count(id, d))
    case Err(_) => (s, Failed)
  }

  function ReadStep(s: State, p: FvfsPath, pc: ReadPc, fails: bool): (State, ReadPc) {
    match pc
    case Lookup =>
      if p !in s.db.rows || s.db.rows[p].kind.Directory? then (s, Failed)
      else
        var r := s.db.rows[p];
        (s, if Local in r.bitmask then TryLocal(r.id, r.bitmask) else Colder(r.id, r.bitmask))
    case TryLocal(id, bm) =>
      (match Fetch(s.local, p, fails)
       case Ok(d) => (s, Count(id, d))
       case Err(_) => (s, Colder(id, bm)))
    case TryNas(id) => FetchColder(s, p, id, Fetch(s.nas, p, fails))
    case TryS3(id) => FetchColder(s, p, id, Fetch(s.s3, p, fails))
    case Count(id, d) => (s.(db := Accessed(s.db, id, s.clock)), Got(d))
    case Got(_) => (s, pc)
    case Failed => (s, pc)
  }

  /** One backend call or SQL statement of a task. */
  function Advance(s: State, task: Task, fails: bool): (State, Task) {
    match task
    case Reading(p, pc) =>
      var (s1, pc1) := ReadStep(s, p, pc, fails); (s1, Reading(p, pc1))
    case EvictLookup(p, t) =>
      if p !in s.db.rows || !SafeToEvictFrom(s.db.rows[p].bitmask, t) then (s, Finished)
      else (s, EvictDelete(p, t, s.db.rows[p].id, s.db.rows[p].bitmask))
    case EvictDelete(p, t, id, bm) =>
      if fails || p !in BackendOf(s, t) then (s, Finished)
      else (match t
            case Local => (s.(local := s.local - {p}), EvictMark(p, t, id, bm))
            case Nas => (s.(nas := s.nas - {p}), EvictMark(p, t, id, bm))
            case S3 => (s, Finished))
    case EvictMark(p, t, id, bm) => (s.(db := SetBitmask(s.db, id, bm - {t})), Finished)
    case ReplicateLookup(w, fileId) =>
      (match PathOfId(s.db, fileId)
       case None => (s, Complete(w))
       case Some(p) => (s, ReplicateGet(w, p, fileId, s.db.rows[p].bitmask)))
    case ReplicateGet(w, p, id, bm) =>
      (match Fetch(s.local, p, fails)
       case Ok(d) => (s, ReplicatePut(w, p, id, bm, d))
       case Err(_) => (s, RecordFailed(w)))
    case ReplicatePut(w, p, id, bm, d) =>
      if fails then (s, RecordFailed(w)) else (s.(nas := s.nas[p := d]), ReplicateMark(w, p, id, bm))
    case ReplicateMark(w, p, id, bm) => (s.(db := SetBitmask(s.db, id, bm + {Nas})), Complete(w))
    case UploadLookup(w, fileId) =>
      (match PathOfId(s.db, fileId)
       case None => (s, Complete(w))
       case Some(p) => (s, UploadRead(w, p, fileId, s.db.rows[p].bitmask, Lookup)))
    case UploadRead(w, p, id, bm, pc) =>
      (match pc
       case Got(d) => (s, UploadPut(w, p, id, bm, d))
       case Failed => (s, RecordFailed(w))
       case _ => var (s1, pc1) := ReadStep(s, p, pc, fails); (s1, UploadRead(w, p, id, bm, pc1)))
    case UploadPut(w, p, id, bm, d) =>
      if fails then (s, RecordFailed(w)) else (s.(s3 := s.s3[p := d]), UploadMark(w, p, id, bm))
    case UploadMark(w, p, id, bm) => (s.(db := SetBitmask(s.db, id, bm + {S3})), Complete(w))
    case PromoteRead(p, pc) =>
      (match pc
       case Got(d) => (s, PromotePut(p, d))
       case Failed => (s, Finished)
       case _ => var (s1, pc1) := ReadStep(s, p, pc, fails); (s1, PromoteRead(p, pc1)))
    case PromotePut(p, d) =>
      if fails then (s, Finished) else (s.(local := s.local[p := d]), PromoteLookup(p))
    case PromoteLookup(p) =>
      if p !in s.db.rows then (s, Finished)
      else (s, PromoteMark(p, s.db.rows[p].id, s.db.rows[p].bitmask))
    case PromoteMark(p, id, bm) => (s.(db := SetBitmask(s.db, id, bm + {Local})), Finished)
    case Complete(w) => (s.(db := CompleteEntry(s.db, w)), Finished)
    case RecordFailed(w) => (s.(db := RecordFailure(s.db, w)), Finished)
    case Finished => (s, Finished)
  }

  /** The path a task is working on, once it has looked the path up. */
  function Under(task: Task): Option<FvfsPath> {
    match task
    case Reading(p, pc) => if pc.Lookup? || pc.Failed? then None else Some(p)
    case EvictDelete(p, _, _, _) => Some(p)
    case EvictMark(p, _, _, _) => Some(p)
    case ReplicateGet(_, p, _, _) => Some(p)
    case ReplicatePut(_, p, _, _, _) => Some(p)
    case ReplicateMark(_, p, _, _) => Some(p)
    case UploadRead(_, p, _, _, _) => Some(p)
    case UploadPut(_, p, _, _, _) => Some(p)
    case UploadMark(_, p, _, _) => Some(p)
    case PromoteRead(p, pc) => if pc.Lookup? || pc.Failed? then None else Some(p)
    case PromotePut(p, _) => Some(p)
    case PromoteLookup(p) => Some(p)
    case PromoteMark(p, _, _) => Some(p)
    case _ => None
  }

  predicate Starting(task: Task) {
    match task
    case Reading(_, pc) => pc.Lookup?
    case PromoteRead(_, pc) => pc.Lookup?
    case _ => task.EvictLookup? || task.ReplicateLookup? || task.UploadLookup?
  }

  // ---- The system and its moves

  /** The store, the tasks under way, and a log of the changes made by users. */
  datatype System = System(st: State, tasks: map<nat, Task>, log: seq<Event>)

  datatype Move =
    | Operate(event: Event)
    | Spawn(id: nat, task: Task)
    | Proceed(id: nat, fails: bool)
    | Stop(id: nat)

  ghost predicate Quiet(sys: System, p: FvfsPath) {
    forall i | i in sys.tasks :: Under(sys.tasks[i]) != Some(p)
  }

  predicate UserChange(e: Event) {
    e.WriteEv? || e.MkdirEv? || e.DeleteEv?
  }

  ghost predicate Enabled(sys: System, m: Move) {
    match m
    case Operate(e) => (UserChange(e) && Quiet(sys, e.path)) || e.RestartEv? || e.ClockEv?
    case Spawn(i, task) => i !in sys.tasks && Starting(task)
    case Proceed(i, _) => i in sys.tasks
    case Stop(i) => i in sys.tasks
  }

  ghost function Next(sys: System, m: Move): System {
    if !Enabled(sys, m) then sys
    else match m
      case Operate(e) => sys.(st := Step(sys.st, e), log := sys.log + [e])
      case Spawn(i, task) => sys.(tasks := sys.tasks[i := task])
      case Proceed(i, fails) =>
        var (s1, t1) := Advance(sys.st, sys.tasks[i], fails);
        sys.(st := s1, tasks := sys.tasks[i := t1])
      case Stop(i) => sys.(tasks := sys.tasks - {i})
  }

  const BOOT := System(INITIAL_STATE, map[], [])

  ghost function Exec(ms: seq<Move>): System {
    if ms == [] then BOOT else Next(Exec(ms[..|ms| - 1]), ms[|ms| - 1])
  }

  // ---- What holds between the steps

  function Current(s: State, p: FvfsPath): Bytes
    requires p in s.db.rows
  {
    Content(s.db.rows[p])
  }

  predicate NotStale(b: Backend, p: FvfsPath, d: Bytes) {
    p in b ==> b[p] == d
  }

  /** A bitmask, stored or remembered by a task, that names no stale NAS copy and only a real S3 copy. */
  predicate SnapshotOk(s: State, p: FvfsPath, bm: TierBitmask)
    requires p in s.db.rows
  {
    && (Nas in bm ==> NotStale(s.nas, p, Current(s, p)))
    && (S3 in bm ==> Holds(s.s3, p, Current(s, p)))
  }

  /** The current version is on the local disk or on S3, and local is never stale. */
  predicate FileSafe(s: State, p: FvfsPath)
    requires p in s.db.rows
  {
    && s.db.rows[p].hash.Sha256?
    && NotStale(s.local, p, Current(s, p))
    && (p in s.local || Holds(s.s3, p, Current(s, p)))
    && SnapshotOk(s, p, s.db.rows[p].bitmask)
  }

  predicate RowIs(s: State, p: FvfsPath, id: nat) {
    p in s.db.rows && s.db.rows[p].id == id
  }

  predicate Remembers(s: State, p: FvfsPath, id: nat, bm: TierBitmask) {
    RowIs(s, p, id) && (IsFile(s, p) ==> SnapshotOk(s, p, bm))
  }

  predicate ReadOk(s: State, p: FvfsPath, pc: ReadPc) {
    match pc
    case Lookup => true
    case TryLocal(id, bm) => IsFile(s, p) && Remembers(s, p, id, bm)
    case TryNas(id) => IsFile(s, p) && RowIs(s, p, id) && NotStale(s.nas, p, Current(s, p))
    case TryS3(id) => IsFile(s, p) && RowIs(s, p, id) && Holds(s.s3, p, Current(s, p))
    case Count(id, d) => IsFile(s, p) && RowIs(s, p, id) && d == Current(s, p)
    case Got(d) => IsFile(s, p) && d == Current(s, p)
    case Failed => true
  }

  predicate TaskOk(s: State, task: Task) {
    match task
    case Reading(p, pc) => ReadOk(s, p, pc)
    case EvictDelete(p, t, id, bm) => Remembers(s, p, id, bm) && SafeToEvictFrom(bm, t)
    case EvictMark(p, t, id, bm) => Remembers(s, p, id, bm)
    case ReplicateGet(_, p, id, bm) => Remembers(s, p, id, bm)
    case ReplicatePut(_, p, id, bm, d) => Remembers(s, p, id, bm) && (IsFile(s, p) ==> d == Current(s, p))
    case ReplicateMark(_, p, id, bm) => Remembers(s, p, id, bm + {Nas})
    case UploadRead(_, p, id, bm, pc) => Remembers(s, p, id, bm) && ReadOk(s, p, pc)
    case UploadPut(_, p, id, bm, d) => Remembers(s, p, id, bm) && IsFile(s, p) && d == Current(s, p)
    case UploadMark(_, p, id, bm) => Remembers(s, p, id, bm + {S3})
    case PromoteRead(p, pc) => ReadOk(s, p, pc)
    case PromotePut(p, d) => IsFile(s, p) && d == Current(s, p)
    case PromoteLookup(p) => IsFile(s, p)
    case PromoteMark(p, id, bm) => Remembers(s, p, id, bm)
    case _ => true
  }

  ghost predicate AllSafe(s: State) {
    forall p | IsFile(s, p) :: FileSafe(s, p)
  }

  ghost predicate SystemInv(sys: System) {
    && AllSafe(sys.st)
    && (forall i | i in sys.tasks :: TaskOk(sys.st, sys.tasks[i]))
    && Abs(sys.st.db.rows) == SpecRun(sys.log)
  }

  // ---- What one step of a task may do to any path: the tasks' common guarantee

  predicate EvolvesAt(s: State, s': State, p: FvfsPath)
    requires p in s.db.rows && p in s'.db.rows
  {
    var r, r' := s.db.rows[p], s'.db.rows[p];
    && r'.id == r.id && r'.kind == r.kind && r'.hash == r.hash
    && (r.kind.File? ==>
          && (NotStale(s.local, p, Current(s, p)) ==> NotStale(s'.local, p, Current(s, p)))
          && (p in s.local && p !in s'.local ==> Holds(s.s3, p, Current(s, p)))
          && (NotStale(s.nas, p, Current(s, p)) ==> NotStale(s'.nas, p, Current(s, p)))
          && (Holds(s.s3, p, Current(s, p)) ==> Holds(s'.s3, p, Current(s, p)))
          && SnapshotOk(s', p, r'.bitmask))
  }

  ghost predicate Evolves(s: State, s': State) {
    && s'.db.rows.Keys == s.db.rows.Keys
    && forall p | p in s.db.rows :: EvolvesAt(s, s', p)
  }

  lemma EvolvesKeepsSafe(s: State, s': State)
    requires Evolves(s, s') && AllSafe(s)
    ensures AllSafe(s')
  {
    forall p | IsFile(s', p) ensures FileSafe(s', p) {
      assert EvolvesAt(s, s', p) && FileSafe(s, p);
    }
  }

  lemma EvolvesKeepsAbs(s: State, s': State)
    requires Evolves(s, s')
    ensures Abs(s'.db.rows) == Abs(s.db.rows)
  {
    assert forall p | p in s.db.rows :: EvolvesAt(s, s', p);
  }

  lemma EvolvesKeepsReadOk(s: State, s': State, p: FvfsPath, pc: ReadPc)
    requires Evolves(s, s') && ReadOk(s, p, pc)
    ensures ReadOk(s', p, pc)
  {
    if p in s.db.rows { assert EvolvesAt(s, s', p); }
  }

  lemma EvolvesKeepsRemembers(s: State, s': State, p: FvfsPath, id: nat, bm: TierBitmask)
    requires Evolves(s, s') && Remembers(s, p, id, bm)
    ensures Remembers(s', p, id, bm) && IsFile(s', p) == IsFile(s, p) && Current(s', p) == Current(s, p)
  {
    assert EvolvesAt(s, s', p);
  }

  /** What a task relies on survives the steps of every other task. */
  lemma EvolvesKeepsTask(s: State, s': State, task: Task)
    requires Evolves(s, s') && TaskOk(s, task)
    ensures TaskOk(s', task)
  {
    match task
    case Reading(p, pc) => EvolvesKeepsReadOk(s, s', p, pc);
    case EvictDelete(p, _, id, bm) => EvolvesKeepsRemembers(s, s', p, id, bm);
    case EvictMark(p, _, id, bm) => EvolvesKeepsRemembers(s, s', p, id, bm);
    case ReplicateGet(_, p, id, bm) => EvolvesKeepsRemembers(s, s', p, id, bm);
    case ReplicatePut(_, p, id, bm, _) => EvolvesKeepsRemembers(s, s', p, id, bm);
    case ReplicateMark(_, p, id, bm) => EvolvesKeepsRemembers(s, s', p, id, bm + {Nas});
    case UploadRead(_, p, id, bm, pc) =>
      EvolvesKeepsRemembers(s, s', p, id, bm);
      EvolvesKeepsReadOk(s, s', p, pc);
    case UploadPut(_, p, id, bm, _) => EvolvesKeepsRemembers(s, s', p, id, bm);
    case UploadMark(_, p, id, bm) => EvolvesKeepsRemembers(s, s', p, id, bm + {S3});
    case PromoteRead(p, pc) => EvolvesKeepsReadOk(s, s', p, pc);
    case PromotePut(p, _) => assert EvolvesAt(s, s', p);
    case PromoteLookup(p) => assert EvolvesAt(s, s', p);
    case PromoteMark(p, id, bm) => EvolvesKeepsRemembers(s, s', p, id, bm);
    case _ =>
  }

  // ---- Every step keeps the guarantee and its own promise

  /** Two contents of a backend that agree on every other path. */
  ghost predicate SameOff(b: Backend, b': Backend, p: FvfsPath) {
    forall q | q != p :: (q in b <==> q in b') && (q in b ==> b'[q] == b[q])
  }

  /** The stores and the rows agree away from `p`. */
  ghost predicate SameElsewhere(s: State, s': State, p: FvfsPath) {
    && s'.db.rows.Keys == s.db.rows.Keys
    && (forall q | q in s.db.rows && q != p :: s'.db.rows[q] == s.db.rows[q])
    && SameOff(s.local, s'.local, p) && SameOff(s.nas, s'.nas, p) && SameOff(s.s3, s'.s3, p)
  }

  lemma LocalStep(s: State, s': State, p: FvfsPath)
    requires AllSafe(s) && SameElsewhere(s, s', p) && p in s.db.rows && EvolvesAt(s, s', p)
    ensures Evolves(s, s')
  {
    forall q | q in s.db.rows ensures EvolvesAt(s, s', q) {
      assert IsFile(s, q) ==> FileSafe(s, q);
    }
  }

  lemma SameRowsEvolves(s: State, s': State)
    requires AllSafe(s) && SameStores(s, s') && StatsOnly(s.db.rows, s'.db.rows)
    ensures Evolves(s, s')
  {
    forall q | q in s.db.rows ensures EvolvesAt(s, s', q) {
      assert IsFile(s, q) ==> FileSafe(s, q);
    }
  }

  lemma AccessedStats(db: Db, id: nat, now: int)
    ensures StatsOnly(db.rows, db.rows) && StatsOnly(db.rows, Accessed(db, id, now).rows)
  {
    hide UniqueIds, References;
  }

  lemma ReadStepKeeps(s: State, p: FvfsPath, pc: ReadPc, fails: bool)
    ensures var s' := ReadStep(s, p, pc, fails).0; SameStores(s, s') && StatsOnly(s.db.rows, s'.db.rows)
  {
    hide UniqueIds, References, Accessed, StatsOnly, Colder, FetchColder, Fetch;
    AccessedStats(s.db, if pc.Count? then pc.id else 0, s.clock);
    if pc.TryNas? {
      FetchColderKeeps(s, p, pc.id, Fetch(s.nas, p, fails));
    } else if pc.TryS3? {
      FetchColderKeeps(s, p, pc.id, Fetch(s.s3, p, fails));
    }
  }

  lemma FetchColderKeeps(s: State, p: FvfsPath, id: nat, r: Result<Bytes>)
    ensures var s' := FetchColder(s, p, id, r).0; SameStores(s, s') && s'.db == s.db
  {
    hide UniqueIds, References;
  }

  lemma ReadStepOkHere(s: State, p: FvfsPath, pc: ReadPc, fails: bool)
    requires ReadOk(s, p, pc) && (IsFile(s, p) ==> FileSafe(s, p))
    ensures var (s', pc') := ReadStep(s, p, pc, fails); ReadOk(s', p, pc')
  {
    hide UniqueIds, References;
    ReadStepKeeps(s, p, pc, fails);
  }

  lemma ReadStepOk(s: State, p: FvfsPath, pc: ReadPc, fails: bool)
    requires AllSafe(s) && ReadOk(s, p, pc)
    ensures var (s', pc') := ReadStep(s, p, pc, fails); Evolves(s, s') && ReadOk(s', p, pc')
  {
    hide UniqueIds, References, ReadStep, ReadOk, FileSafe;
    ReadStepKeeps(s, p, pc, fails);
    SameRowsEvolves(s, ReadStep(s, p, pc, fails).0);
    ReadStepOkHere(s, p, pc, fails);
  }

  /** Marking a tier with a bitmask the task vouches for. */
  lemma MarkStep(s: State, p: FvfsPath, id: nat, bm: TierBitmask)
    requires AllSafe(s) && Remembers(s, p, id, bm)
    ensures Evolves(s, s.(db := SetBitmask(s.db, id, bm)))
  {
    var s' := s.(db := SetBitmask(s.db, id, bm));
    SetBitmaskOne(s.db, p, bm);
    assert IsFile(s, p) ==> FileSafe(s, p);
    LocalStep(s, s', p);
  }

  lemma RemembersLess(s: State, p: FvfsPath, id: nat, bm: TierBitmask, t: Tier)
    requires Remembers(s, p, id, bm)
    ensures Remembers(s, p, id, bm - {t})
    ensures t.Local? ==> Remembers(s, p, id, bm + {t})
  {
  }

  lemma EvictDeleteOk(s: State, p: FvfsPath, t: Tier, id: nat, bm: TierBitmask, fails: bool)
    requires AllSafe(s) && TaskOk(s, EvictDelete(p, t, id, bm))
    ensures var (s', task') := Advance(s, EvictDelete(p, t, id, bm), fails);
            Evolves(s, s') && TaskOk(s', task')
  {
    hide UniqueIds, References;
    var (s', task') := Advance(s, EvictDelete(p, t, id, bm), fails);
    assert IsFile(s, p) ==> FileSafe(s, p) && Holds(s.s3, p, Current(s, p));
    LocalStep(s, s', p);
    EvolvesKeepsTask(s, s', EvictMark(p, t, id, bm));
  }

  lemma PutNasOk(s: State, w: nat, p: FvfsPath, id: nat, bm: TierBitmask, d: Bytes, fails: bool)
    requires AllSafe(s) && TaskOk(s, ReplicatePut(w, p, id, bm, d))
    ensures var (s', task') := Advance(s, ReplicatePut(w, p, id, bm, d), fails);
            Evolves(s, s') && TaskOk(s', task')
  {
    var (s', task') := Advance(s, ReplicatePut(w, p, id, bm, d), fails);
    assert IsFile(s, p) ==> FileSafe(s, p);
    LocalStep(s, s', p);
  }

  lemma PutS3Ok(s: State, w: nat, p: FvfsPath, id: nat, bm: TierBitmask, d: Bytes, fails: bool)
    requires AllSafe(s) && TaskOk(s, UploadPut(w, p, id, bm, d))
    ensures var (s', task') := Advance(s, UploadPut(w, p, id, bm, d), fails);
            Evolves(s, s') && TaskOk(s', task')
  {
    hide UniqueIds, References;
    var (s', task') := Advance(s, UploadPut(w, p, id, bm, d), fails);
    assert FileSafe(s, p);
    LocalStep(s, s', p);
  }

  lemma PutLocalOk(s: State, p: FvfsPath, d: Bytes, fails: bool)
    requires AllSafe(s) && TaskOk(s, PromotePut(p, d))
    ensures var (s', task') := Advance(s, PromotePut(p, d), fails); Evolves(s, s') && TaskOk(s', task')
  {
    var (s', task') := Advance(s, PromotePut(p, d), fails);
    assert FileSafe(s, p);
    LocalStep(s, s', p);
  }

  lemma MarkTaskOk(s: State, task: Task, fails: bool)
    requires task.EvictMark? || task.ReplicateMark? || task.UploadMark? || task.PromoteMark?
    requires AllSafe(s) && TaskOk(s, task)
    ensures var (s', task') := Advance(s, task, fails); Evolves(s, s') && TaskOk(s', task')
  {
    match task
    case EvictMark(p, t, id, bm) =>
      RemembersLess(s, p, id, bm, t);
      MarkStep(s, p, id, bm - {t});
    case ReplicateMark(_, p, id, bm) => MarkStep(s, p, id, bm + {Nas});
    case UploadMark(_, p, id, bm) => MarkStep(s, p, id, bm + {S3});
    case PromoteMark(p, id, bm) =>
      RemembersLess(s, p, id, bm, Local);
      MarkStep(s, p, id, bm + {Local});
  }

  /** A row just looked up is remembered correctly. */
  lemma LookupRemembers(s: State, p: FvfsPath)
    requires AllSafe(s) && p in s.db.rows
    ensures Remembers(s, p, s.db.rows[p].id, s.db.rows[p].bitmask)
  {
    assert IsFile(s, p) ==> FileSafe(s, p);
  }

  lemma LookupTaskOk(s: State, task: Task, fails: bool)
    requires task.EvictLookup? || task.ReplicateLookup? || task.UploadLookup? || task.PromoteLookup?
    requires AllSafe(s) && TaskOk(s, task)
    ensures var (s', task') := Advance(s, task, fails); Evolves(s, s') && TaskOk(s', task')
  {
    SameRowsEvolves(s, s);
    match task
    case EvictLookup(p, _) => if p in s.db.rows { LookupRemembers(s, p); }
    case ReplicateLookup(_, fileId) =>
      var found := PathOfId(s.db, fileId);
      if found.Some? { LookupRemembers(s, found.value); }
    case UploadLookup(_, fileId) =>
      var found := PathOfId(s.db, fileId);
      if found.Some? { LookupRemembers(s, found.value); }
    case PromoteLookup(p) => LookupRemembers(s, p);
  }

  lemma WalTaskOk(s: State, task: Task, fails: bool)
    requires task.ReplicateGet? || task.Complete? || task.RecordFailed? || task.Finished?
    requires AllSafe(s) && TaskOk(s, task)
    ensures var (s', task') := Advance(s, task, fails); Evolves(s, s') && TaskOk(s', task')
  {
    SameRowsEvolves(s, Advance(s, task, fails).0);
    if task.ReplicateGet? { assert IsFile(s, task.path) ==> FileSafe(s, task.path); }
  }

  lemma ReadingOk(s: State, p: FvfsPath, pc: ReadPc, fails: bool)
    requires AllSafe(s) && TaskOk(s, Reading(p, pc))
    ensures var (s', task') := Advance(s, Reading(p, pc), fails); Evolves(s, s') && TaskOk(s', task')
  {
    hide UniqueIds, References, AllSafe, ReadStep, ReadOk, Evolves;
    ReadStepOk(s, p, pc, fails);
  }

  lemma UploadReadOk(s: State, w: nat, p: FvfsPath, id: nat, bm: TierBitmask, pc: ReadPc, fails: bool)
    requires AllSafe(s) && TaskOk(s, UploadRead(w, p, id, bm, pc))
    ensures var (s', task') := Advance(s, UploadRead(w, p, id, bm, pc), fails); Evolves(s, s') && TaskOk(s', task')
  {
    hide UniqueIds, References, AllSafe, ReadStep, Evolves;
    if pc.Got? || pc.Failed? {
      SameRowsEvolves(s, s);
    } else {
      hide ReadOk;
      ReadStepOk(s, p, pc, fails);
      EvolvesKeepsRemembers(s, ReadStep(s, p, pc, fails).0, p, id, bm);
    }
  }

  lemma PromoteReadOk(s: State, p: FvfsPath, pc: ReadPc, fails: bool)
    requires AllSafe(s) && TaskOk(s, PromoteRead(p, pc))
    ensures var (s', task') := Advance(s, PromoteRead(p, pc), fails); Evolves(s, s') && TaskOk(s', task')
  {
    hide UniqueIds, References, AllSafe, ReadStep, Evolves;
    if pc.Got? || pc.Failed? {
      SameRowsEvolves(s, s);
    } else {
      hide ReadOk;
      ReadStepOk(s, p, pc, fails);
    }
  }

  lemma AdvanceOk(s: State, task: Task, fails: bool)
    requires AllSafe(s) && TaskOk(s, task)
    ensures var (s', task') := Advance(s, task, fails); Evolves(s, s') && TaskOk(s', task')
  {
    hide UniqueIds, References;
    match task
    case Reading(p, pc) => ReadingOk(s, p, pc, fails);
    case UploadRead(w, p, id, bm, pc) => UploadReadOk(s, w, p, id, bm, pc, fails);
    case PromoteRead(p, pc) => PromoteReadOk(s, p, pc, fails);
    case EvictDelete(p, t, id, bm) => EvictDeleteOk(s, p, t, id, bm, fails);
    case ReplicatePut(w, p, id, bm, d) => PutNasOk(s, w, p, id, bm, d, fails);
    case UploadPut(w, p, id, bm, d) => PutS3Ok(s, w, p, id, bm, d, fails);
    case PromotePut(p, d) => PutLocalOk(s, p, d, fails);
    case EvictMark(_, _, _, _) => MarkTaskOk(s, task, fails);
    case ReplicateMark(_, _, _, _) => MarkTaskOk(s, task, fails);
    case UploadMark(_, _, _, _) => MarkTaskOk(s, task, fails);
    case PromoteMark(_, _, _) => MarkTaskOk(s, task, fails);
    case EvictLookup(_, _) => LookupTaskOk(s, task, fails);
    case ReplicateLookup(_, _) => LookupTaskOk(s, task, fails);
    case UploadLookup(_, _) => LookupTaskOk(s, task, fails);
    case PromoteLookup(_) => LookupTaskOk(s, task, fails);
    case _ => WalTaskOk(s, task, fails);
  }

  // ---- Writes, mkdirs and deletes of quiet paths

  /** `s'` has the rows of `s` away from `p`, perhaps new directories, and the same copies away from `p`. */
  ghost predicate ChangesOnly(s: State, s': State, p: FvfsPath) {
    && (forall q | q in s.db.rows && q != p :: q in s'.db.rows && s'.db.rows[q] == s.db.rows[q])
    && (forall q | q in s'.db.rows && q != p && s'.db.rows[q].kind.File? :: q in s.db.rows)
    && SameOff(s.local, s'.local, p) && SameOff(s.nas, s'.nas, p) && SameOff(s.s3, s'.s3, p)
  }

  lemma IndexChangesOnly(s: State, s': State, p: FvfsPath, row: Row)
    requires s'.db.rows == EnsureParents(Upserted(s.db, p, row), p, s.clock).rows
    requires s'.nas == s.nas && s'.s3 == s.s3
    requires SameOff(s.local, s'.local, p)
    ensures ChangesOnly(s, s', p)
  {
  }

  lemma WriteRows(s: State, p: FvfsPath, d: Bytes)
    ensures Write(s, p, d, false).0.db.rows ==
            EnsureParents(Upserted(s.db, p, FileRow(d, s.clock)), p, s.clock).rows
  {
    var db1 := Upserted(s.db, p, FileRow(d, s.clock));
    EnqueueBothKeepsRows(EnsureParents(db1, p, s.clock), db1.lastRowid, s.clock);
  }

  lemma UserChangeLocal(s: State, e: Event)
    requires UserChange(e)
    ensures ChangesOnly(s, Step(s, e), e.path)
  {
    match e
    case WriteEv(p, d, putFails) =>
      if !putFails {
        WriteRows(s, p, d);
        IndexChangesOnly(s, Write(s, p, d, false).0, p, FileRow(d, s.clock));
      }
    case MkdirEv(p) => IndexChangesOnly(s, Mkdir(s, p), p, DirRow(s.clock));
    case DeleteEv(p, f) => DeleteChangesOnly(s, p, f);
  }

  lemma DiscardSameOff(b: Backend, p: FvfsPath, fails: bool)
    ensures SameOff(b, Discard(b, p, fails), p) && SameOff(b, b, p)
  {
  }

  lemma DeleteChangesOnly(s: State, p: FvfsPath, f: Faults)
    ensures ChangesOnly(s, Delete(s, p, f).0, p)
  {
    hide UniqueIds, References, SameOff, Discard;
    DiscardSameOff(s.local, p, f.local);
    DiscardSameOff(s.nas, p, f.nas);
    DiscardSameOff(s.s3, p, f.s3);
  }

  lemma ChangesOnlyKeepsTask(s: State, s': State, p: FvfsPath, task: Task)
    requires ChangesOnly(s, s', p) && TaskOk(s, task) && Under(task) != Some(p)
    ensures TaskOk(s', task)
  {
    if Under(task).Some? {
      var q := Under(task).value;
      TaskHasRow(s, task);
      assert SameAt(s, s', q);
      hide ChangesOnly, UniqueIds, References;
      SameAtKeepsTask(s, s', task, q);
    }
  }

  /** The row at `q` and every copy of it are the same. */
  predicate SameAt(s: State, s': State, q: FvfsPath) {
    && q in s.db.rows && q in s'.db.rows && s'.db.rows[q] == s.db.rows[q]
    && (q in s.local <==> q in s'.local) && (q in s.local ==> s'.local[q] == s.local[q])
    && (q in s.nas <==> q in s'.nas) && (q in s.nas ==> s'.nas[q] == s.nas[q])
    && (q in s.s3 <==> q in s'.s3) && (q in s.s3 ==> s'.s3[q] == s.s3[q])
  }

  lemma TaskHasRow(s: State, task: Task)
    requires TaskOk(s, task) && Under(task).Some?
    ensures Under(task).value in s.db.rows
  {
    hide UniqueIds, References;
  }

  lemma SameAtRemembers(s: State, s': State, q: FvfsPath, id: nat, bm: TierBitmask)
    requires SameAt(s, s', q)
    ensures Remembers(s', q, id, bm) == Remembers(s, q, id, bm)
  {
    hide UniqueIds, References;
  }

  lemma SameAtReadOk(s: State, s': State, q: FvfsPath, pc: ReadPc)
    requires SameAt(s, s', q) && ReadOk(s, q, pc)
    ensures ReadOk(s', q, pc)
  {
    hide UniqueIds, References;
  }

  lemma SameAtKeepsTask(s: State, s': State, task: Task, q: FvfsPath)
    requires SameAt(s, s', q) && TaskOk(s, task) && Under(task) == Some(q)
    ensures TaskOk(s', task)
  {
    hide UniqueIds, References, Remembers, ReadOk;
    match task
    case Reading(p, pc) => SameAtReadOk(s, s', p, pc);
    case EvictDelete(p, _, id, bm) => SameAtRemembers(s, s', p, id, bm);
    case EvictMark(p, _, id, bm) => SameAtRemembers(s, s', p, id, bm);
    case ReplicateGet(_, p, id, bm) => SameAtRemembers(s, s', p, id, bm);
    case ReplicatePut(_, p, id, bm, _) => SameAtRemembers(s, s', p, id, bm);
    case ReplicateMark(_, p, id, bm) => SameAtRemembers(s, s', p, id, bm + {Nas});
    case UploadRead(_, p, id, bm, pc) =>
      SameAtRemembers(s, s', p, id, bm);
      SameAtReadOk(s, s', p, pc);
    case UploadPut(_, p, id, bm, _) => SameAtRemembers(s, s', p, id, bm);
    case UploadMark(_, p, id, bm) => SameAtRemembers(s, s', p, id, bm + {S3});
    case PromoteRead(p, pc) => SameAtReadOk(s, s', p, pc);
    case PromoteMark(p, id, bm) => SameAtRemembers(s, s', p, id, bm);
    case _ =>
  }

  lemma ChangesOnlySafe(s: State, s': State, p: FvfsPath, q: FvfsPath)
    requires ChangesOnly(s, s', p) && AllSafe(s) && IsFile(s', q) && q != p
    ensures FileSafe(s', q)
  {
    hide UniqueIds, References;
    assert FileSafe(s, q);
  }

  /** A write makes a file whose only copy is on the local disk. */
  lemma WrittenSafe(s: State, p: FvfsPath, d: Bytes)
    ensures p in Write(s, p, d, false).0.db.rows && FileSafe(Write(s, p, d, false).0, p)
  {
    hide UniqueIds, References;
    WriteRows(s, p, d);
  }

  /** After a change to `p`, `p` itself is safe if it is a file: only a write makes one, on the local disk. */
  lemma UserChangeSafe(s: State, e: Event)
    requires UserChange(e) && AllSafe(s)
    ensures AllSafe(Step(s, e))
  {
    hide Step, FileSafe, ChangesOnly;
    var s', p := Step(s, e), e.path;
    UserChangeLocal(s, e);
    forall q | IsFile(s', q) ensures FileSafe(s', q) {
      if q != p {
        ChangesOnlySafe(s, s', p, q);
      } else {
        ChangedSafe(s, e);
      }
    }
  }

  lemma ChangedSafe(s: State, e: Event)
    requires UserChange(e) && AllSafe(s) && IsFile(Step(s, e), e.path)
    ensures FileSafe(Step(s, e), e.path)
  {
    hide FileSafe, UniqueIds, References;
    if e.WriteEv? && !e.putFails {
      WrittenSafe(s, e.path, e.data);
    } else if e.MkdirEv? {
      IndexRefines(s.db, e.path, DirRow(s.clock), s.clock);
    }
  }

  /** The tables change on the plain map as specified, whatever the backends hold. */
  lemma UserChangeAbs(s: State, e: Event)
    requires UserChange(e)
    ensures Abs(Step(s, e).db.rows) == SpecStep(Abs(s.db.rows), e)
  {
    hide UniqueIds, References, Abs, WithParents, Write, EnsureParents, Delete;
    match e
    case WriteEv(p, d, putFails) =>
      if putFails {
        FailedWrite(s, p, d);
      } else {
        WriteRows(s, p, d);
        IndexRefines(s.db, p, FileRow(d, s.clock), s.clock);
      }
    case MkdirEv(p) => IndexRefines(s.db, p, DirRow(s.clock), s.clock);
    case DeleteEv(p, f) => DeleteAbs(s, p, f);
  }

  lemma FailedWrite(s: State, p: FvfsPath, d: Bytes)
    ensures Write(s, p, d, true).0 == s
  {
    hide UniqueIds, References;
  }

  lemma DeleteAbs(s: State, p: FvfsPath, f: Faults)
    ensures Abs(Delete(s, p, f).0.db.rows) == Abs(s.db.rows) - {p}
  {
    hide UniqueIds, References;
    if p !in s.db.rows {
      assert Abs(s.db.rows) - {p} == Abs(s.db.rows);
    }
  }

  lemma OperateOk(sys: System, e: Event)
    requires SystemInv(sys) && Enabled(sys, Operate(e))
    ensures SystemInv(Next(sys, Operate(e)))
  {
    var s, s' := sys.st, Step(sys.st, e);
    SpecRunSnoc(sys.log, e);
    if UserChange(e) {
      UserChangeSafe(s, e);
      UserChangeAbs(s, e);
      UserChangeLocal(s, e);
      forall i | i in sys.tasks ensures TaskOk(s', sys.tasks[i]) {
        ChangesOnlyKeepsTask(s, s', e.path, sys.tasks[i]);
      }
    } else {
      SameRowsEvolves(s, s');
      EvolvesKeepsSafe(s, s');
      forall i | i in sys.tasks ensures TaskOk(s', sys.tasks[i]) {
        EvolvesKeepsTask(s, s', sys.tasks[i]);
      }
    }
  }

  lemma ProceedOk(sys: System, i: nat, fails: bool)
    requires SystemInv(sys) && i in sys.tasks
    ensures SystemInv(Next(sys, Proceed(i, fails)))
  {
    var s := sys.st;
    AdvanceOk(s, sys.tasks[i], fails);
    var s' := Advance(s, sys.tasks[i], fails).0;
    EvolvesKeepsSafe(s, s');
    EvolvesKeepsAbs(s, s');
    forall j | j in sys.tasks ensures TaskOk(s', sys.tasks[j]) {
      EvolvesKeepsTask(s, s', sys.tasks[j]);
    }
  }

  lemma NextOk(sys: System, m: Move)
    requires SystemInv(sys)
    ensures SystemInv(Next(sys, m))
  {
    if Enabled(sys, m) {
      match m
      case Operate(e) => OperateOk(sys, e);
      case Spawn(i, task) =>
      case Proceed(i, fails) => ProceedOk(sys, i, fails);
      case Stop(i) =>
    }
  }

  lemma {:induction false} ExecInvariant(ms: seq<Move>)
    ensures SystemInv(Exec(ms))
  {
    if ms == [] {
    } else {
      ExecInvariant(ms[..|ms| - 1]);
      NextOk(Exec(ms[..|ms| - 1]), ms[|ms| - 1]);
    }
  }

  /**
   In every interleaving, crashes included: the tables stand for the plain map the users' changes
   built, and the current version of every file is physically on the local disk or on S3.
   */
  lemma CurrentVersionSurvives(ms: seq<Move>, p: FvfsPath)
    ensures
      var sys := Exec(ms);
      && Abs(sys.st.db.rows) == SpecRun(sys.log)
      && (p in SpecRun(sys.log) && SpecRun(sys.log)[p].FileNode? ==>
            var d := SpecRun(sys.log)[p].bytes;
            && (Holds(sys.st.local, p, d) || Holds(sys.st.s3, p, d))
            && NotStale(sys.st.local, p, d))
  {
    ExecInvariant(ms);
    var s := Exec(ms).st;
    if p in Abs(s.db.rows) && Abs(s.db.rows)[p].FileNode? { assert IsFile(s, p) && FileSafe(s, p); }
  }

  /** In every interleaving a read that finishes has the current version of the file. */
  lemma ReadsReturnCurrent(ms: seq<Move>, i: nat)
    requires i in Exec(ms).tasks && Exec(ms).tasks[i].Reading? && Exec(ms).tasks[i].pc.Got?
    ensures
      var sys := Exec(ms);
      var task := sys.tasks[i];
      task.path in SpecRun(sys.log) && SpecRun(sys.log)[task.path] == FileNode(task.pc.data)
  {
    ExecInvariant(ms);
    var sys := Exec(ms);
    assert TaskOk(sys.st, sys.tasks[i]);
    assert sys.tasks[i].path in Abs(sys.st.db.rows);
  }

  // ---- Availability is another matter

  /**
   With healthy backends a read of a file succeeds exactly when the first tier its bitmask leads to
   has the object: a NAS bit without a NAS object blocks the read even though S3 has the bytes.
   */
  lemma HealthyReadSucceedsIff(ms: seq<Move>, p: FvfsPath)
    requires IsFile(Exec(ms).st, p)
    ensures
      var s := Exec(ms).st;
      var bm := s.db.rows[p].bitmask;
      Read(s, p, HEALTHY).1.Ok? <==>
      || (Local in bm && p in s.local)
      || (if Nas in bm then p in s.nas else S3 in bm)
  {
    ExecInvariant(ms);
    assert FileSafe(Exec(ms).st, p);
  }

  lemma ExecSnoc(ms: seq<Move>, m: Move)
    ensures Exec(ms + [m]) == Next(Exec(ms), m)
  {
    assert (ms + [m])[..|ms|] == ms;
  }
}
