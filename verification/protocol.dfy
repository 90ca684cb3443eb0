/**
 The state of the tiered store and its operations as functions: what the router, the replay, the
 uploader and the promotion task do to the three backends, the tables and the promotion queue.
 */
module Protocol {
  import opened Results
  import opened Paths
  import opened Tiers
  import opened Store

  type Backend = map<FvfsPath, Bytes>

  datatype State = State(local: Backend, nas: Backend, s3: Backend, db: Db,
                         queue: seq<FvfsPath>, clock: int)

  const INITIAL_STATE := State(map[], map[], map[], EMPTY_TABLES, [], 0)

  /** Which backends fail the next call made to them. */
  datatype Faults = Faults(local: bool, nas: bool, s3: bool)

  const HEALTHY := Faults(false, false, false)

  const MAX_ATTEMPTS: nat := 10

  // ---- Backend calls

  function Fetch(b: Backend, p: FvfsPath, fails: bool): (r: Result<Bytes>)
    ensures r.Ok? <==> !fails && p in b
    ensures r.Ok? ==> r.value == b[p]
  {
    if fails then Err(FvfsError.Backend) else if p in b then Ok(b[p]) else Err(NotFound)
  }

  /** A best-effort delete: a failed one leaves the object where it is. */
  function Discard(b: Backend, p: FvfsPath, fails: bool): Backend {
    if fails then b else b - {p}
  }

  function BackendOf(s: State, t: Tier): Backend {
    match t case Local => s.local case Nas => s.nas case S3 => s.s3
  }

  // ---- write, mkdir

  function EnqueueBoth(db: Db, fileId: nat, now: int): (r: (Db, Result<()>)) {
    match Enqueue(db, fileId, ReplicateNas, now)
    case Err(e) => (db, Err(e))
    case Ok(db1) =>
      match Enqueue(db1, fileId, UploadS3, now)
      case Err(e) => (db1, Err(e))
      case Ok(db2) => (db2, Ok(()))
  }

  function Write(s: State, p: FvfsPath, data: Bytes, putFails: bool): (r: (State, Result<()>)) {
    if putFails then (s, Err(FvfsError.Backend))
    else
      var db1 := Upserted(s.db, p, FileRow(data, s.clock));
      var fileId := db1.lastRowid;
      var db2 := EnsureParents(db1, p, s.clock);
      var (db3, result) := EnqueueBoth(db2, fileId, s.clock);
      (s.(local := s.local[p := data], db := db3), result)
  }

  function Mkdir(s: State, p: FvfsPath): State {
    s.(db := EnsureParents(Upserted(s.db, p, DirRow(s.clock)), p, s.clock))
  }

  // ---- read

  /** The NAS and then S3, taking the first the bitmask names; success asks for a promotion. */
  function ReadColder(s: State, p: FvfsPath, bm: TierBitmask, f: Faults): (r: (State, Result<Bytes>))
    ensures r.0 == if r.1.Ok? then s.(queue := s.queue + [p]) else s
  {
    if Nas in bm then
      match Fetch(s.nas, p, f.nas)
      case Ok(d) => (s.(queue := s.queue + [p]), Ok(d))
      case Err(e) => (s, Err(e))
    else if S3 in bm then
      match Fetch(s.s3, p, f.s3)
      case Ok(d) => (s.(queue := s.queue + [p]), Ok(d))
      case Err(e) => (s, Err(e))
    else (s, Err(NotFound))
  }

  function ReadTiers(s: State, p: FvfsPath, bm: TierBitmask, f: Faults): (r: (State, Result<Bytes>))
    ensures r.0 == s.(queue := r.0.queue)
  {
    if Local in bm && Fetch(s.local, p, f.local).Ok? then (s, Fetch(s.local, p, f.local))
    else ReadColder(s, p, bm, f)
  }

  function Read(s: State, p: FvfsPath, f: Faults): (r: (State, Result<Bytes>))
    ensures r.0 == s.(queue := r.0.queue, db := r.0.db)
    ensures r.0.db == if r.1.Ok? && p in s.db.rows then Accessed(s.db, s.db.rows[p].id, s.clock) else s.db
  {
    if p !in s.db.rows then (s, Err(NotFound))
    else if s.db.rows[p].kind.Directory? then (s, Err(IsADirectory))
    else
      var (s1, r) := ReadTiers(s, p, s.db.rows[p].bitmask, f);
      if r.Ok? then (s1.(db := Accessed(s1.db, s.db.rows[p].id, s.clock)), r) else (s1, r)
  }

  // ---- delete, evict

  function Delete(s: State, p: FvfsPath, f: Faults): (State, Result<()>) {
    if p !in s.db.rows then (s, Err(NotFound))
    else
      var bm := s.db.rows[p].bitmask;
      (s.(local := if Local in bm then Discard(s.local, p, f.local) else s.local,
          nas := if Nas in bm then Discard(s.nas, p, f.nas) else s.nas,
          s3 := if S3 in bm then Discard(s.s3, p, f.s3) else s.s3,
          db := DeleteRow(s.db, p)), Ok(()))
  }

  function Evict(s: State, p: FvfsPath, t: Tier, fails: bool): (State, Result<()>) {
    if p !in s.db.rows then (s, Err(NotFound))
    else if !SafeToEvictFrom(s.db.rows[p].bitmask, t) then (s, Err(NotSafeToEvict))
    else if fails then (s, Err(FvfsError.Backend))
    else if p !in BackendOf(s, t) then (s, Err(NotFound))
    else
      var s1 := if t.Local? then s.(local := s.local - {p}) else s.(nas := s.nas - {p});
      (s1.(db := SetBitmask(s.db, s.db.rows[p].id, s.db.rows[p].bitmask - {t})), Ok(()))
  }

  // ---- the promotion task

  /** The bytes read are put on the local disk and the row, looked up again, is marked. */
  function PutLocal(s: State, p: FvfsPath, d: Bytes): State {
    var s1 := s.(local := s.local[p := d]);
    if p in s1.db.rows
    then s1.(db := SetBitmask(s1.db, s1.db.rows[p].id, s1.db.rows[p].bitmask + {Local}))
    else s1
  }

  /** One signal taken from the queue; nothing to do when it is empty. */
  function Promote(s: State, f: Faults, putFails: bool): State {
    if s.queue == [] then s
    else
      var p := s.queue[0];
      var (s1, r) := Read(s.(queue := s.queue[1..]), p, f);
      if r.Err? || putFails then s1 else PutLocal(s1, p, r.value)
  }

  // ---- one attempt at a WAL entry, by replay or by the uploader

  function Replicate(s: State, p: FvfsPath, f: Faults, putFails: bool): (State, Result<()>)
    requires p in s.db.rows
  {
    match Fetch(s.local, p, f.local)
    case Err(e) => (s, Err(e))
    case Ok(d) =>
      if putFails then (s, Err(FvfsError.Backend))
      else (s.(nas := s.nas[p := d],
               db := SetBitmask(s.db, s.db.rows[p].id, s.db.rows[p].bitmask + {Nas})), Ok(()))
  }

  function Upload(s: State, p: FvfsPath, f: Faults, putFails: bool): (State, Result<()>)
    requires p in s.db.rows
  {
    var (s1, r) := Read(s, p, f);
    match r
    case Err(e) => (s1, Err(e))
    case Ok(d) =>
      if putFails then (s1, Err(FvfsError.Backend))
      else (s1.(s3 := s1.s3[p := d],
                db := SetBitmask(s1.db, s.db.rows[p].id, s.db.rows[p].bitmask + {S3})), Ok(()))
  }

  function RunEntry(s: State, p: FvfsPath, op: WalOp, f: Faults, putFails: bool): (State, Result<()>)
    requires p in s.db.rows
  {
    match op
    case ReplicateNas => Replicate(s, p, f, putFails)
    case UploadS3 => Upload(s, p, f, putFails)
  }

  /** An entry is tried while it has attempts left; success removes it, failure counts against it. */
  predicate Live(s: State, w: nat) {
    w in s.db.wal && s.db.wal[w].attempts < MAX_ATTEMPTS
  }

  function Attempt(s: State, w: nat, f: Faults, putFails: bool): State {
    if !Live(s, w) then s
    else match PathOfId(s.db, s.db.wal[w].fileId)
      case None => s.(db := CompleteEntry(s.db, w))
      case Some(p) =>
        var (s1, r) := RunEntry(s, p, s.db.wal[w].op, f, putFails);
        s1.(db := if r.Ok? then CompleteEntry(s1.db, w) else RecordFailure(s1.db, w))
  }

  /** A restart opens a new connection and a new, empty promotion channel. */
  function Restart(s: State): State {
    s.(queue := [], db := Tables(s.db.rows, s.db.wal, 0))
  }

  // ---- Runs

  /** One operation of a serialised run, with the backend failures it meets. */
  datatype Event =
    | WriteEv(path: FvfsPath, data: Bytes, putFails: bool)
    | MkdirEv(path: FvfsPath)
    | ReadEv(path: FvfsPath, faults: Faults)
    | DeleteEv(path: FvfsPath, faults: Faults)
    | EvictEv(path: FvfsPath, tier: Tier, deleteFails: bool)
    | PromoteEv(faults: Faults, putFails: bool)
    | AttemptEv(entry: nat, faults: Faults, putFails: bool)
    | RestartEv
    | ClockEv(now: int)

  function Step(s: State, e: Event): State {
    match e
    case WriteEv(p, d, x) => Write(s, p, d, x).0
    case MkdirEv(p) => Mkdir(s, p)
    case ReadEv(p, f) => Read(s, p, f).0
    case DeleteEv(p, f) => Delete(s, p, f).0
    case EvictEv(p, t, x) => Evict(s, p, t, x).0
    case PromoteEv(f, x) => Promote(s, f, x)
    case AttemptEv(w, f, x) => Attempt(s, w, f, x)
    case RestartEv => Restart(s)
    case ClockEv(now) => s.(clock := now)
  }

  function RunFrom(s: State, es: seq<Event>): State {
    if es == [] then s else Step(RunFrom(s, es[..|es| - 1]), es[|es| - 1])
  }

  function Run(es: seq<Event>): State {
    RunFrom(INITIAL_STATE, es)
  }

  lemma RunFromSnoc(s: State, es: seq<Event>, e: Event)
    ensures RunFrom(s, es + [e]) == Step(RunFrom(s, es), e)
  {
    assert (es + [e])[..|es|] == es;
  }

  lemma {:induction false} RunFromAppend(s: State, a: seq<Event>, b: seq<Event>)
    ensures RunFrom(s, a + b) == RunFrom(RunFrom(s, a), b)
  {
    hide Step, UniqueIds, References;
    if b == [] {
      assert a + b == a;
    } else {
      var n := |b| - 1;
      RunFromAppend(s, a, b[..n]);
      assert a + b == (a + b[..n]) + [b[n]];
      RunFromSnoc(s, a + b[..n], b[n]);
    }
  }
}
