/**
 The two grains agree: a task of `Interleaving` left alone until it ends does what the operation of
 `Protocol` with the same failures does in one step.
 */
module SoloTasks {
  import opened Results
  import opened Paths
  import opened Tiers
  import opened Store
  import opened Protocol
  import opened SerialRuns
  import opened Interleaving

  // ---- Running a task to its end

  predicate Ended(task: Task) {
    task.Finished? || (task.Reading? && (task.pc.Got? || task.pc.Failed?))
  }

  function ReadRank(pc: ReadPc): nat {
    match pc
    case Lookup => 4
    case TryLocal(_, _) => 3
    case TryNas(_) => 2
    case TryS3(_) => 2
    case Count(_, _) => 1
    case Got(_) => 0
    case Failed => 0
  }

  /** How many steps a task has left at most. */
  function Rank(task: Task): nat {
    match task
    case Reading(_, pc) => ReadRank(pc)
    case EvictLookup(_, _) => 3
    case EvictDelete(_, _, _, _) => 2
    case EvictMark(_, _, _, _) => 1
    case ReplicateLookup(_, _) => 5
    case ReplicateGet(_, _, _, _) => 4
    case ReplicatePut(_, _, _, _, _) => 3
    case ReplicateMark(_, _, _, _) => 2
    case UploadLookup(_, _) => 9
    case UploadRead(_, _, _, _, pc) => 4 + ReadRank(pc)
    case UploadPut(_, _, _, _, _) => 3
    case UploadMark(_, _, _, _) => 2
    case PromoteRead(_, pc) => 4 + ReadRank(pc)
    case PromotePut(_, _) => 3
    case PromoteLookup(_) => 2
    case PromoteMark(_, _, _) => 1
    case Complete(_) => 1
    case RecordFailed(_) => 1
    case Finished => 0
  }

  lemma ReadStepEnds(s: State, p: FvfsPath, pc: ReadPc, fails: bool)
    requires !pc.Got? && !pc.Failed?
    ensures ReadRank(ReadStep(s, p, pc, fails).1) < ReadRank(pc)
  {
    hide UniqueIds, References, Accessed;
  }

  lemma AdvanceEnds(s: State, task: Task, fails: bool)
    requires !Ended(task)
    ensures Rank(Advance(s, task, fails).1) < Rank(task)
  {
    hide UniqueIds, References, SetBitmask, ReadStep, ReadRank, CompleteEntry, RecordFailure, PathOfId;
    if (task.Reading? || task.UploadRead? || task.PromoteRead?) && !task.pc.Got? && !task.pc.Failed? {
      ReadStepEnds(s, task.path, task.pc, fails);
    } else if task.UploadLookup? {
      assert ReadRank(Lookup) == 4 by { LookupRank(); }
    }
  }

  lemma LookupRank()
    ensures ReadRank(Lookup) == 4
  {
  }

  function ReadFault(pc: ReadPc, f: Faults): bool {
    match pc
    case TryLocal(_, _) => f.local
    case TryNas(_) => f.nas
    case TryS3(_) => f.s3
    case _ => false
  }

  /** Whether the call a task makes next fails: a fetch by its tier, a put or a delete by `x`. */
  function Fault(task: Task, f: Faults, x: bool): bool {
    match task
    case Reading(_, pc) => ReadFault(pc, f)
    case UploadRead(_, _, _, _, pc) => ReadFault(pc, f)
    case PromoteRead(_, pc) => ReadFault(pc, f)
    case ReplicateGet(_, _, _, _) => f.local
    case _ => x
  }

  function Finish(s: State, task: Task, f: Faults, x: bool): (r: (State, Task))
    ensures Ended(r.1)
    decreases Rank(task)
  {
    if Ended(task) then (s, task)
    else
      AdvanceEnds(s, task, Fault(task, f, x));
      var (s1, task1) := Advance(s, task, Fault(task, f, x));
      Finish(s1, task1, f, x)
  }

  // ---- Reads

  function ReadEnd(s: State, p: FvfsPath, pc: ReadPc, f: Faults): (State, ReadPc)
    decreases ReadRank(pc)
  {
    if pc.Got? || pc.Failed? then (s, pc)
    else
      var (s1, pc1) := ReadStep(s, p, pc, ReadFault(pc, f));
      ReadEnd(s1, p, pc1, f)
  }

  function PcOf(r: Result<Bytes>): ReadPc {
    match r case Ok(d) => Got(d) case Err(_) => Failed
  }

  lemma ReadEndFetched(s: State, p: FvfsPath, id: nat, d: Bytes, f: Faults)
    ensures ReadEnd(s, p, Count(id, d), f) == (s.(db := Accessed(s.db, id, s.clock)), Got(d))
  {
  }

  lemma ReadEndColder(s: State, p: FvfsPath, id: nat, bm: TierBitmask, f: Faults)
    ensures
      var (s', r) := ReadColder(s, p, bm, f);
      ReadEnd(s, p, Colder(id, bm), f) ==
      (if r.Ok? then s'.(db := Accessed(s'.db, id, s.clock)) else s', PcOf(r))
  {
    hide UniqueIds, References, Accessed;
    var (s', r) := ReadColder(s, p, bm, f);
    if r.Ok? {
      ReadEndFetched(s', p, id, r.value, f);
    }
  }

  lemma ReadEndIsRead(s: State, p: FvfsPath, f: Faults)
    ensures ReadEnd(s, p, Lookup, f) == (Read(s, p, f).0, PcOf(Read(s, p, f).1))
  {
    hide UniqueIds, References, Accessed;
    if IsFile(s, p) {
      var id, bm := s.db.rows[p].id, s.db.rows[p].bitmask;
      ReadEndColder(s, p, id, bm, f);
      if Local in bm {
        var got := Fetch(s.local, p, f.local);
        assert ReadEnd(s, p, Lookup, f) == ReadEnd(s, p, TryLocal(id, bm), f);
        if got.Ok? {
          ReadEndFetched(s, p, id, got.value, f);
        }
      }
    }
  }

  lemma {:induction false} ReadingEnds(s: State, p: FvfsPath, pc: ReadPc, f: Faults, x: bool)
    ensures
      var (s1, pc1) := ReadEnd(s, p, pc, f);
      Finish(s, Reading(p, pc), f, x) == (s1, Reading(p, pc1))
    decreases ReadRank(pc)
  {
    hide UniqueIds, References, ReadStep;
    if pc.Got? || pc.Failed? {
    } else {
      var (s1, pc1) := ReadStep(s, p, pc, ReadFault(pc, f));
      AdvanceEnds(s, Reading(p, pc), ReadFault(pc, f));
      ReadingEnds(s1, p, pc1, f, x);
    }
  }

  lemma {:induction false} UploadReadEnds(s: State, w: nat, p: FvfsPath, id: nat, bm: TierBitmask, pc: ReadPc,
                                          f: Faults, x: bool)
    ensures
      var (s1, pc1) := ReadEnd(s, p, pc, f);
      Finish(s, UploadRead(w, p, id, bm, pc), f, x) == Finish(s1, UploadRead(w, p, id, bm, pc1), f, x)
    decreases ReadRank(pc)
  {
    hide UniqueIds, References, ReadStep;
    if pc.Got? || pc.Failed? {
    } else {
      var (s1, pc1) := ReadStep(s, p, pc, ReadFault(pc, f));
      AdvanceEnds(s, UploadRead(w, p, id, bm, pc), ReadFault(pc, f));
      UploadReadEnds(s1, w, p, id, bm, pc1, f, x);
    }
  }

  lemma {:induction false} PromoteReadEnds(s: State, p: FvfsPath, pc: ReadPc, f: Faults, x: bool)
    ensures
      var (s1, pc1) := ReadEnd(s, p, pc, f);
      Finish(s, PromoteRead(p, pc), f, x) == Finish(s1, PromoteRead(p, pc1), f, x)
    decreases ReadRank(pc)
  {
    hide UniqueIds, References, ReadStep;
    if pc.Got? || pc.Failed? {
    } else {
      var (s1, pc1) := ReadStep(s, p, pc, ReadFault(pc, f));
      AdvanceEnds(s, PromoteRead(p, pc), ReadFault(pc, f));
      PromoteReadEnds(s1, p, pc1, f, x);
    }
  }

  /** A read left alone is the serialised read: same state, same bytes or failure. */
  lemma SoloRead(s: State, p: FvfsPath, f: Faults, x: bool)
    ensures Finish(s, Reading(p, Lookup), f, x) == (Read(s, p, f).0, Reading(p, PcOf(Read(s, p, f).1)))
  {
    ReadingEnds(s, p, Lookup, f, x);
    ReadEndIsRead(s, p, f);
  }

  // ---- Evictions, replications, uploads, promotions

  lemma FinishStep(s: State, task: Task, f: Faults, x: bool)
    requires !Ended(task)
    ensures
      var (s1, task1) := Advance(s, task, Fault(task, f, x));
      Finish(s, task, f, x) == Finish(s1, task1, f, x)
  {
    hide Advance, Fault, Ended, Rank;
  }

  lemma FinishEnded(s: State, f: Faults, x: bool)
    ensures Finish(s, Finished, f, x) == (s, Finished)
  {
  }

  lemma FinishSettled(s: State, w: nat, f: Faults, x: bool)
    ensures Finish(s, Complete(w), f, x) == (s.(db := CompleteEntry(s.db, w)), Finished)
    ensures Finish(s, RecordFailed(w), f, x) == (s.(db := RecordFailure(s.db, w)), Finished)
  {
    hide Finish, UniqueIds, References;
    FinishStep(s, Complete(w), f, x);
    FinishEnded(s.(db := CompleteEntry(s.db, w)), f, x);
    FinishStep(s, RecordFailed(w), f, x);
    FinishEnded(s.(db := RecordFailure(s.db, w)), f, x);
  }

  lemma SoloEvict(s: State, p: FvfsPath, t: Tier, f: Faults, x: bool)
    ensures Finish(s, EvictLookup(p, t), f, x) == (Evict(s, p, t, x).0, Finished)
  {
    hide Finish, UniqueIds, References;
    FinishStep(s, EvictLookup(p, t), f, x);
    FinishEnded(s, f, x);
    if p in s.db.rows && SafeToEvictFrom(s.db.rows[p].bitmask, t) {
      var id, bm := s.db.rows[p].id, s.db.rows[p].bitmask;
      FinishStep(s, EvictDelete(p, t, id, bm), f, x);
      if !x && p in BackendOf(s, t) {
        var s1 := if t.Local? then s.(local := s.local - {p}) else s.(nas := s.nas - {p});
        FinishStep(s1, EvictMark(p, t, id, bm), f, x);
        FinishEnded(s1.(db := SetBitmask(s1.db, id, bm - {t})), f, x);
      }
    }
  }

  lemma FinishReplicate(s: State, w: nat, p: FvfsPath, f: Faults, x: bool)
    requires p in s.db.rows
    ensures
      var (s1, r) := Replicate(s, p, f, x);
      Finish(s, ReplicateGet(w, p, s.db.rows[p].id, s.db.rows[p].bitmask), f, x) ==
      Finish(s1, if r.Ok? then Complete(w) else RecordFailed(w), f, x)
  {
    hide Finish, UniqueIds, References;
    var id, bm := s.db.rows[p].id, s.db.rows[p].bitmask;
    FinishStep(s, ReplicateGet(w, p, id, bm), f, x);
    var got := Fetch(s.local, p, f.local);
    if got.Ok? {
      FinishStep(s, ReplicatePut(w, p, id, bm, got.value), f, x);
      if !x {
        FinishStep(s.(nas := s.nas[p := got.value]), ReplicateMark(w, p, id, bm), f, x);
      }
    }
  }

  lemma FinishUpload(s: State, w: nat, p: FvfsPath, f: Faults, x: bool)
    requires p in s.db.rows
    ensures
      var (s1, r) := Upload(s, p, f, x);
      Finish(s, UploadRead(w, p, s.db.rows[p].id, s.db.rows[p].bitmask, Lookup), f, x) ==
      Finish(s1, if r.Ok? then Complete(w) else RecordFailed(w), f, x)
  {
    hide Finish, UniqueIds, References, Read, ReadStep, ReadEnd, SetBitmask, Fetch;
    var id, bm := s.db.rows[p].id, s.db.rows[p].bitmask;
    UploadReadEnds(s, w, p, id, bm, Lookup, f, x);
    ReadEndIsRead(s, p, f);
    var (s1, r) := Read(s, p, f);
    FinishStep(s1, UploadRead(w, p, id, bm, PcOf(r)), f, x);
    if r.Ok? {
      FinishUploadPut(s1, w, p, id, bm, r.value, f, x);
    }
  }

  lemma FinishUploadPut(s: State, w: nat, p: FvfsPath, id: nat, bm: TierBitmask, d: Bytes, f: Faults, x: bool)
    ensures Finish(s, UploadPut(w, p, id, bm, d), f, x) ==
            if x then Finish(s, RecordFailed(w), f, x)
            else Finish(s.(s3 := s.s3[p := d], db := SetBitmask(s.db, id, bm + {S3})), Complete(w), f, x)
  {
    hide Finish, UniqueIds, References, SetBitmask;
    FinishStep(s, UploadPut(w, p, id, bm, d), f, x);
    if !x {
      FinishStep(s.(s3 := s.s3[p := d]), UploadMark(w, p, id, bm), f, x);
    }
  }

  /** The task that works off an entry. */
  function EntryTask(w: nat, entry: WalEntry): (task: Task)
    ensures Starting(task)
  {
    if entry.op.ReplicateNas? then ReplicateLookup(w, entry.fileId) else UploadLookup(w, entry.fileId)
  }

  lemma SoloReplicate(s: State, w: nat, f: Faults, x: bool)
    requires Live(s, w) && s.db.wal[w].op.ReplicateNas?
    ensures Finish(s, ReplicateLookup(w, s.db.wal[w].fileId), f, x) == (Attempt(s, w, f, x), Finished)
  {
    var id := s.db.wal[w].fileId;
    assert HasId(s.db.rows, id);
    hide Finish, UniqueIds, References, Replicate, HasId, CompleteEntry, RecordFailure;
    var p := PathOfId(s.db, id).value;
    FinishStep(s, ReplicateLookup(w, id), f, x);
    FinishReplicate(s, w, p, f, x);
    FinishSettled(Replicate(s, p, f, x).0, w, f, x);
  }

  lemma SoloUpload(s: State, w: nat, f: Faults, x: bool)
    requires Live(s, w) && s.db.wal[w].op.UploadS3?
    ensures Finish(s, UploadLookup(w, s.db.wal[w].fileId), f, x) == (Attempt(s, w, f, x), Finished)
  {
    var id := s.db.wal[w].fileId;
    assert HasId(s.db.rows, id);
    hide Finish, UniqueIds, References, Upload, HasId, CompleteEntry, RecordFailure;
    var p := PathOfId(s.db, id).value;
    FinishStep(s, UploadLookup(w, id), f, x);
    FinishUpload(s, w, p, f, x);
    FinishSettled(Upload(s, p, f, x).0, w, f, x);
  }

  /** A replication or an upload left alone is one attempt at its entry. */
  lemma SoloEntry(s: State, w: nat, f: Faults, x: bool)
    requires Live(s, w)
    ensures Finish(s, EntryTask(w, s.db.wal[w]), f, x) == (Attempt(s, w, f, x), Finished)
  {
    hide Finish, Attempt, UniqueIds, References;
    if s.db.wal[w].op.ReplicateNas? {
      SoloReplicate(s, w, f, x);
    } else {
      SoloUpload(s, w, f, x);
    }
  }

  /** A promotion left alone is one turn of the promotion task. */
  lemma SoloPromote(s: State, f: Faults, x: bool)
    requires s.queue != []
    ensures Finish(s.(queue := s.queue[1..]), PromoteRead(s.queue[0], Lookup), f, x) == (Promote(s, f, x), Finished)
  {
    hide Finish, UniqueIds, References, Read, ReadStep, ReadEnd;
    var p, s0 := s.queue[0], s.(queue := s.queue[1..]);
    PromoteReadEnds(s0, p, Lookup, f, x);
    ReadEndIsRead(s0, p, f);
    var (s1, r) := Read(s0, p, f);
    FinishStep(s1, PromoteRead(p, PcOf(r)), f, x);
    FinishEnded(s1, f, x);
    if r.Ok? {
      FinishStep(s1, PromotePut(p, r.value), f, x);
      if !x {
        FinishPutLocal(s1, p, r.value, f, x);
      }
    }
  }

  lemma FinishPutLocal(s: State, p: FvfsPath, d: Bytes, f: Faults, x: bool)
    ensures Finish(s.(local := s.local[p := d]), PromoteLookup(p), f, x) == (PutLocal(s, p, d), Finished)
  {
    hide Finish, UniqueIds, References;
    var s1 := s.(local := s.local[p := d]);
    FinishStep(s1, PromoteLookup(p), f, x);
    FinishEnded(PutLocal(s, p, d), f, x);
    if p in s1.db.rows {
      FinishStep(s1, PromoteMark(p, s1.db.rows[p].id, s1.db.rows[p].bitmask), f, x);
    }
  }

  // ---- The same as moves of the system

  /** The moves that take a task under way to its end and then drop it. */
  function FinishMoves(s: State, i: nat, task: Task, f: Faults, x: bool): seq<Move>
    decreases Rank(task)
  {
    if Ended(task) then [Stop(i)]
    else
      AdvanceEnds(s, task, Fault(task, f, x));
      var (s1, task1) := Advance(s, task, Fault(task, f, x));
      [Proceed(i, Fault(task, f, x))] + FinishMoves(s1, i, task1, f, x)
  }

  lemma FinishAtEnd(s: State, task: Task, f: Faults, x: bool)
    requires Ended(task)
    ensures Finish(s, task, f, x) == (s, task)
  {
  }

  lemma {:induction false} ExecFinish(ms: seq<Move>, i: nat, f: Faults, x: bool)
    requires i in Exec(ms).tasks
    ensures
      var sys := Exec(ms);
      Exec(ms + FinishMoves(sys.st, i, sys.tasks[i], f, x)) ==
      sys.(st := Finish(sys.st, sys.tasks[i], f, x).0, tasks := sys.tasks - {i})
    decreases Rank(Exec(ms).tasks[i])
  {
    hide Advance, Finish, Exec, UniqueIds, References;
    var sys := Exec(ms);
    var task := sys.tasks[i];
    if Ended(task) {
      ExecSnoc(ms, Stop(i));
      FinishAtEnd(sys.st, task, f, x);
    } else {
      var m := Proceed(i, Fault(task, f, x));
      AdvanceEnds(sys.st, task, Fault(task, f, x));
      var (s1, task1) := Advance(sys.st, task, Fault(task, f, x));
      ExecSnoc(ms, m);
      FinishStep(sys.st, task, f, x);
      ExecFinish(ms + [m], i, f, x);
      assert ms + [m] + FinishMoves(s1, i, task1, f, x) == ms + ([m] + FinishMoves(s1, i, task1, f, x));
      assert sys.tasks[i := task1] - {i} == sys.tasks - {i};
    }
  }

  /** A task started, run to its end and dropped, with nothing in between. */
  function Solo(s: State, i: nat, task: Task, f: Faults, x: bool): seq<Move> {
    [Spawn(i, task)] + FinishMoves(s, i, task, f, x)
  }

  lemma ExecSolo(ms: seq<Move>, i: nat, task: Task, f: Faults, x: bool)
    requires i !in Exec(ms).tasks && Starting(task)
    ensures Exec(ms + Solo(Exec(ms).st, i, task, f, x)) == Exec(ms).(st := Finish(Exec(ms).st, task, f, x).0)
  {
    hide Advance, Finish, FinishMoves, Exec, UniqueIds, References;
    var sys := Exec(ms);
    ExecSnoc(ms, Spawn(i, task));
    ExecFinish(ms + [Spawn(i, task)], i, f, x);
    assert ms + [Spawn(i, task)] + FinishMoves(sys.st, i, task, f, x) == ms + Solo(sys.st, i, task, f, x);
    assert sys.tasks[i := task] - {i} == sys.tasks;
  }

  // ---- Tasks that stop halfway

  /** A task after a number of its steps. */
  function Advanced(s: State, task: Task, f: Faults, x: bool, n: nat): (State, Task)
    decreases n
  {
    if n == 0 then (s, task)
    else
      var (s1, task1) := Advance(s, task, Fault(task, f, x));
      Advanced(s1, task1, f, x, n - 1)
  }

  lemma AdvancedStep(s: State, task: Task, f: Faults, x: bool, n: nat)
    requires n > 0
    ensures
      var (s1, task1) := Advance(s, task, Fault(task, f, x));
      Advanced(s, task, f, x, n) == Advanced(s1, task1, f, x, n - 1)
  {
    hide Advance, Fault;
  }

  lemma AdvancedNone(s: State, task: Task, f: Faults, x: bool)
    ensures Advanced(s, task, f, x, 0) == (s, task)
  {
  }

  /** The moves that take a task so many steps further. */
  function Proceeds(s: State, i: nat, task: Task, f: Faults, x: bool, n: nat): seq<Move>
    decreases n
  {
    if n == 0 then []
    else
      var (s1, task1) := Advance(s, task, Fault(task, f, x));
      [Proceed(i, Fault(task, f, x))] + Proceeds(s1, i, task1, f, x, n - 1)
  }

  lemma {:induction false} ExecProceeds(ms: seq<Move>, i: nat, f: Faults, x: bool, n: nat)
    requires i in Exec(ms).tasks
    ensures
      var sys := Exec(ms);
      var (s', task') := Advanced(sys.st, sys.tasks[i], f, x, n);
      Exec(ms + Proceeds(sys.st, i, sys.tasks[i], f, x, n)) == sys.(st := s', tasks := sys.tasks[i := task'])
    decreases n
  {
    hide Advance, Advanced, Exec, UniqueIds, References;
    var sys := Exec(ms);
    var task := sys.tasks[i];
    if n == 0 {
      AdvancedNone(sys.st, task, f, x);
      assert ms + [] == ms && sys.tasks[i := task] == sys.tasks;
    } else {
      var m := Proceed(i, Fault(task, f, x));
      var (s1, task1) := Advance(sys.st, task, Fault(task, f, x));
      ExecSnoc(ms, m);
      AdvancedStep(sys.st, task, f, x, n);
      ExecProceeds(ms + [m], i, f, x, n - 1);
      assert ms + [m] + Proceeds(s1, i, task1, f, x, n - 1) == ms + ([m] + Proceeds(s1, i, task1, f, x, n - 1));
    }
  }

  /** A task started and taken so many steps, with nothing in between. */
  function Begun(s: State, i: nat, task: Task, f: Faults, x: bool, n: nat): seq<Move> {
    [Spawn(i, task)] + Proceeds(s, i, task, f, x, n)
  }

  lemma ExecBegun(ms: seq<Move>, i: nat, task: Task, f: Faults, x: bool, n: nat)
    requires i !in Exec(ms).tasks && Starting(task)
    ensures
      var (s', task') := Advanced(Exec(ms).st, task, f, x, n);
      Exec(ms + Begun(Exec(ms).st, i, task, f, x, n)) ==
      Exec(ms).(st := s', tasks := Exec(ms).tasks[i := task'])
  {
    hide Advance, Advanced, Proceeds, Exec, UniqueIds, References;
    var sys := Exec(ms);
    ExecSnoc(ms, Spawn(i, task));
    ExecProceeds(ms + [Spawn(i, task)], i, f, x, n);
    assert ms + [Spawn(i, task)] + Proceeds(sys.st, i, task, f, x, n) == ms + Begun(sys.st, i, task, f, x, n);
  }

  /** And then stopped there. */
  function Cut(s: State, i: nat, task: Task, f: Faults, x: bool, n: nat): seq<Move> {
    Begun(s, i, task, f, x, n) + [Stop(i)]
  }

  lemma ExecCut(ms: seq<Move>, i: nat, task: Task, f: Faults, x: bool, n: nat)
    requires i !in Exec(ms).tasks && Starting(task)
    ensures Exec(ms + Cut(Exec(ms).st, i, task, f, x, n)) ==
            Exec(ms).(st := Advanced(Exec(ms).st, task, f, x, n).0)
  {
    hide Advance, Advanced, Begun, Exec, UniqueIds, References;
    var sys, begun := Exec(ms), Begun(Exec(ms).st, i, task, f, x, n);
    ExecBegun(ms, i, task, f, x, n);
    ExecSnoc(ms + begun, Stop(i));
    assert ms + begun + [Stop(i)] == ms + (begun + [Stop(i)]);
    assert sys.tasks[i := Advanced(sys.st, task, f, x, n).1] - {i} == sys.tasks;
  }
}
