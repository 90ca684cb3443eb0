/**
 Availability: a NAS eviction that stops between deleting the copy and clearing the bit makes a file
 unreadable for good, although S3 holds its bytes. It happens to every path, and nothing but a write,
 mkdir or delete of the path itself ends it.
 */
module BlockedReads {
  import opened Results
  import opened Paths
  import opened Tiers
  import opened Store
  import opened Protocol
  import opened SerialRuns
  import opened Interleaving

  /** The NAS bit is set, and neither the NAS nor the local disk has the object. */
  predicate Blocked(s: State, p: FvfsPath) {
    IsFile(s, p) && Nas in s.db.rows[p].bitmask && p !in s.local && p !in s.nas
  }

  lemma BlockedReadFails(s: State, p: FvfsPath, f: Faults)
    requires Blocked(s, p)
    ensures Read(s, p, f).1.Err?
  {
    hide UniqueIds, References;
  }

  // ---- Nothing the daemon does ends it

  /** A read of a blocked file that has not failed is on its way to the NAS. */
  predicate NasBound(pc: ReadPc) {
    pc.Lookup? || pc.TryNas? || pc.Failed? || (pc.TryLocal? && Nas in pc.bm)
  }

  /** A task on `p` that cannot put a copy of it anywhere or change its bitmask. */
  predicate Harmless(task: Task, p: FvfsPath) {
    Under(task) == Some(p) ==>
      match task
      case Reading(_, pc) => NasBound(pc)
      case UploadRead(_, _, _, _, pc) => NasBound(pc)
      case PromoteRead(_, pc) => NasBound(pc)
      case _ => task.EvictDelete? || task.ReplicateGet?
  }

  ghost predicate BlockedSystem(sys: System, p: FvfsPath) {
    Blocked(sys.st, p) && forall i | i in sys.tasks :: Harmless(sys.tasks[i], p)
  }

  lemma ReadStepBlocked(s: State, q: FvfsPath, pc: ReadPc, fails: bool, p: FvfsPath)
    requires Blocked(s, p)
    ensures Blocked(ReadStep(s, q, pc, fails).0, p)
    ensures q == p && NasBound(pc) ==> NasBound(ReadStep(s, q, pc, fails).1)
  {
    hide UniqueIds, References;
  }

  /** Marking another path's row leaves this one's bitmask alone. */
  lemma MarkOther(s: State, q: FvfsPath, id: nat, bm: TierBitmask, p: FvfsPath)
    requires Blocked(s, p) && RowIs(s, q, id) && q != p
    ensures Blocked(s.(db := SetBitmask(s.db, id, bm)), p)
  {
  }

  lemma ReaderBlocked(s: State, task: Task, fails: bool, p: FvfsPath)
    requires task.Reading? || task.UploadRead? || task.PromoteRead?
    requires Blocked(s, p) && Harmless(task, p)
    ensures var (s', task') := Advance(s, task, fails); Blocked(s', p) && Harmless(task', p)
  {
    hide UniqueIds, References, ReadStep;
    ReadStepBlocked(s, task.path, task.pc, fails, p);
  }

  predicate Marks(task: Task) {
    task.EvictMark? || task.ReplicateMark? || task.UploadMark? || task.PromoteMark?
  }

  lemma MarkerRow(s: State, task: Task)
    requires Marks(task) && TaskOk(s, task)
    ensures RowIs(s, task.path, task.id) && Under(task) == Some(task.path)
  {
    hide UniqueIds, References;
  }

  /** The bitmask a task is about to write. */
  function MarkOf(task: Task): TierBitmask
    requires Marks(task)
  {
    match task
    case EvictMark(_, t, _, bm) => bm - {t}
    case ReplicateMark(_, _, _, bm) => bm + {Nas}
    case UploadMark(_, _, _, bm) => bm + {S3}
    case PromoteMark(_, _, bm) => bm + {Local}
  }

  lemma MarkerAdvances(s: State, task: Task, fails: bool)
    requires Marks(task)
    ensures
      var (s', task') := Advance(s, task, fails);
      s' == s.(db := SetBitmask(s.db, task.id, MarkOf(task))) && Under(task') == None
  {
    hide UniqueIds, References;
  }

  lemma MarkerBlocked(s: State, task: Task, fails: bool, p: FvfsPath)
    requires Marks(task) && TaskOk(s, task) && Blocked(s, p) && Harmless(task, p)
    ensures var (s', task') := Advance(s, task, fails); Blocked(s', p) && Harmless(task', p)
  {
    hide UniqueIds, References, SetBitmask, Blocked, TaskOk, Advance, MarkOf, Under;
    MarkerRow(s, task);
    MarkerAdvances(s, task, fails);
    MarkOther(s, task.path, task.id, MarkOf(task), p);
  }

  /** Deletes and puts touch their own path, or find nothing of a blocked one. */
  lemma CopierBlocked(s: State, task: Task, fails: bool, p: FvfsPath)
    requires task.EvictDelete? || task.ReplicateGet? || task.ReplicatePut? || task.UploadPut? || task.PromotePut?
    requires Blocked(s, p) && Harmless(task, p)
    ensures var (s', task') := Advance(s, task, fails); Blocked(s', p) && Harmless(task', p)
  {
    hide UniqueIds, References;
  }

  lemma OtherBlocked(s: State, task: Task, fails: bool, p: FvfsPath)
    requires
      || task.EvictLookup? || task.ReplicateLookup? || task.UploadLookup? || task.PromoteLookup?
      || task.Complete? || task.RecordFailed? || task.Finished?
    requires Blocked(s, p) && Harmless(task, p)
    ensures var (s', task') := Advance(s, task, fails); Blocked(s', p) && Harmless(task', p)
  {
    hide UniqueIds, References;
  }

  lemma AdvanceBlocked(s: State, task: Task, fails: bool, p: FvfsPath)
    requires TaskOk(s, task) && Blocked(s, p) && Harmless(task, p)
    ensures var (s', task') := Advance(s, task, fails); Blocked(s', p) && Harmless(task', p)
  {
    hide UniqueIds, References, Advance, TaskOk, Blocked, Harmless;
    if task.Reading? || task.UploadRead? || task.PromoteRead? {
      ReaderBlocked(s, task, fails, p);
    } else if Marks(task) {
      MarkerBlocked(s, task, fails, p);
    } else if task.EvictDelete? || task.ReplicateGet? || task.ReplicatePut? || task.UploadPut? || task.PromotePut? {
      CopierBlocked(s, task, fails, p);
    } else {
      OtherBlocked(s, task, fails, p);
    }
  }

  /** Every move but a user's change to the path itself. */
  predicate LeavesPath(m: Move, p: FvfsPath) {
    m.Operate? && UserChange(m.event) ==> m.event.path != p
  }

  lemma OperateBlocked(sys: System, e: Event, p: FvfsPath)
    requires BlockedSystem(sys, p) && Enabled(sys, Operate(e)) && LeavesPath(Operate(e), p)
    ensures BlockedSystem(Next(sys, Operate(e)), p)
  {
    hide UniqueIds, References;
    if UserChange(e) {
      UserChangeLocal(sys.st, e);
      hide Step;
    }
  }

  lemma NextBlocked(sys: System, m: Move, p: FvfsPath)
    requires SystemInv(sys) && BlockedSystem(sys, p) && LeavesPath(m, p)
    ensures BlockedSystem(Next(sys, m), p)
  {
    if Enabled(sys, m) {
      match m
      case Operate(e) => OperateBlocked(sys, e, p);
      case Spawn(i, task) =>
      case Proceed(i, fails) => AdvanceBlocked(sys.st, sys.tasks[i], fails, p);
      case Stop(i) =>
    }
  }

  lemma {:induction false} StaysBlocked(ms: seq<Move>, more: seq<Move>, p: FvfsPath)
    requires BlockedSystem(Exec(ms), p)
    requires forall m | m in more :: LeavesPath(m, p)
    ensures BlockedSystem(Exec(ms + more), p)
  {
    hide BlockedSystem, SystemInv, Next, Exec, LeavesPath, UniqueIds, References;
    if more == [] {
      assert ms + more == ms;
    } else {
      var n := |more| - 1;
      StaysBlocked(ms, more[..n], p);
      ExecInvariant(ms + more[..n]);
      NextBlocked(Exec(ms + more[..n]), more[n], p);
      ExecSnoc(ms + more[..n], more[n]);
      assert ms + more == ms + more[..n] + [more[n]];
    }
  }

  // ---- The eviction that stops

  /** The moves of a NAS eviction that stops between deleting the copy and clearing the bit. */
  function StalledEviction(i: nat, p: FvfsPath): seq<Move> {
    [Spawn(i, EvictLookup(p, Nas)), Proceed(i, false), Proceed(i, false), Stop(i)]
  }

  lemma ExecFour(ms: seq<Move>, a: Move, b: Move, c: Move, d: Move)
    ensures Exec(ms + [a, b, c, d]) == Next(Next(Next(Next(Exec(ms), a), b), c), d)
  {
    hide Next, Exec;
    ExecSnoc(ms, a);
    ExecSnoc(ms + [a], b);
    ExecSnoc(ms + [a] + [b], c);
    ExecSnoc(ms + [a] + [b] + [c], d);
    assert ms + [a] + [b] + [c] + [d] == ms + [a, b, c, d];
  }

  lemma StalledEvictionLeaves(ms: seq<Move>, i: nat, p: FvfsPath)
    requires i !in Exec(ms).tasks && IsFile(Exec(ms).st, p)
    requires {Nas, S3} <= Exec(ms).st.db.rows[p].bitmask && p in Exec(ms).st.nas
    ensures
      var sys := Exec(ms);
      Exec(ms + StalledEviction(i, p)) == sys.(st := sys.st.(nas := sys.st.nas - {p}))
  {
    hide UniqueIds, References, Exec;
    ExecFour(ms, Spawn(i, EvictLookup(p, Nas)), Proceed(i, false), Proceed(i, false), Stop(i));
    var sys := Exec(ms);
    var bm, id := sys.st.db.rows[p].bitmask, sys.st.db.rows[p].id;
    assert S3 in bm;
    var sys1 := Next(sys, Spawn(i, EvictLookup(p, Nas)));
    var sys2 := Next(sys1, Proceed(i, false));
    assert sys2.tasks[i] == EvictDelete(p, Nas, id, bm) && sys2.st == sys.st;
    var sys3 := Next(sys2, Proceed(i, false));
    assert sys3.st == sys.st.(nas := sys.st.nas - {p});
    assert sys3.tasks - {i} == sys.tasks;
  }

  /**
   From any reachable state in which the file is on the NAS and S3 and not on the local disk, with no task
   under way on it: once the eviction has stopped there, no read succeeds again, whatever other moves
   follow, restarts included, until a user changes the path itself. S3 holds the bytes all along.
   */
  lemma StalledEvictionBlocksReads(ms: seq<Move>, i: nat, p: FvfsPath, more: seq<Move>, f: Faults)
    requires i !in Exec(ms).tasks && IsFile(Exec(ms).st, p) && Quiet(Exec(ms), p)
    requires {Nas, S3} <= Exec(ms).st.db.rows[p].bitmask && p in Exec(ms).st.nas && p !in Exec(ms).st.local
    requires forall m | m in more :: LeavesPath(m, p)
    ensures
      var sys := Exec(ms + StalledEviction(i, p) + more);
      && Read(sys.st, p, f).1.Err?
      && (forall j | j in sys.tasks && sys.tasks[j].Reading? && sys.tasks[j].path == p :: !sys.tasks[j].pc.Got?)
      && IsFile(sys.st, p) && Holds(sys.st.s3, p, Current(sys.st, p))
  {
    hide UniqueIds, References, Read, Exec, Next, LeavesPath;
    var stalled := ms + StalledEviction(i, p);
    StalledEvictionLeaves(ms, i, p);
    assert BlockedSystem(Exec(stalled), p);
    StaysBlocked(stalled, more, p);
    var sys := Exec(stalled + more);
    BlockedReadFails(sys.st, p, f);
    ExecInvariant(stalled + more);
    assert FileSafe(sys.st, p);
    forall j | j in sys.tasks && sys.tasks[j].Reading? && sys.tasks[j].path == p ensures !sys.tasks[j].pc.Got? {
      assert Harmless(sys.tasks[j], p);
    }
  }
}
