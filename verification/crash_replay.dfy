/**
 Replay after a crash: from every state an interleaving with stopped tasks can leave, replays agree
 exactly when no file is torn, and a run for every path that tears its file.
 */
module CrashReplay {
  import opened Results
  import opened Paths
  import opened Tiers
  import opened Store
  import opened Protocol
  import opened SerialRuns
  import opened ReplayConfluence
  import opened Background
  import opened Interleaving
  import opened SoloTasks
  import opened BlockedReads
  import opened Scenarios

  /** All replays of the state that come to an end agree on what they leave. */
  ghost predicate Confluent(s: State) {
    forall a, b | Settled(ReplayMany(s, a)) && Settled(ReplayMany(s, b)) ::
      Present(ReplayMany(s, a)) == Present(ReplayMany(s, b))
  }

  // ---- A torn file splits the outcomes

  lemma ReplayOneSnoc(s: State, steps: seq<ReplayStep>, step: ReplayStep)
    ensures ReplayMany(s, steps + [step]) == ReplayOne(ReplayMany(s, steps), step)
  {
    hide ReplayOne;
    assert (steps + [step])[..|steps|] == steps;
  }

  /** What is gone stays gone, and what has no attempts left stays. */
  lemma WholeKeeps(s: State, v: nat, w: nat)
    ensures
      var s' := ReplayOne(s, Whole(v));
      && (w !in s.db.wal ==> w !in s'.db.wal)
      && (w in s.db.wal && !Live(s, w) ==> w in s'.db.wal && !Live(s', w))
  {
    hide UniqueIds, References, RunEntry;
    if Live(s, v) {
      hide Attempt;
      AttemptCounts(s, v, HEALTHY, false);
    }
  }

  lemma {:induction false} WholesKeep(s: State, steps: seq<ReplayStep>, w: nat)
    requires forall step | step in steps :: step.Whole?
    ensures
      var s' := ReplayMany(s, steps);
      && (w !in s.db.wal ==> w !in s'.db.wal)
      && (w in s.db.wal && !Live(s, w) ==> w in s'.db.wal && !Live(s', w))
  {
    hide ReplayOne, UniqueIds, References;
    if steps == [] {
    } else {
      var n := |steps| - 1;
      assert steps[n] in steps;
      WholesKeep(s, steps[..n], w);
      WholeKeeps(ReplayMany(s, steps[..n]), steps[n].entry, w);
    }
  }

  /** Whole attempts at one entry that end with the file's upload left undone, because the file cannot be read. */
  lemma UploadExhausts(s: State, w: nat) returns (steps: seq<ReplayStep>)
    requires Live(s, w) && s.db.wal[w].op.UploadS3? && !CanRun(s, w)
    ensures forall step | step in steps :: step.Whole?
    ensures w in ReplayMany(s, steps).db.wal && !Live(ReplayMany(s, steps), w)
    decreases MAX_ATTEMPTS - s.db.wal[w].attempts
  {
    hide ReplayOne, CanRun, UniqueIds, References;
    UnreadableAttempt(s, w);
    var s1 := ReplayOne(s, Whole(w));
    ReplayOneSnoc(s, [], Whole(w));
    assert [] + [Whole(w)] == [Whole(w)];
    if Live(s1, w) {
      var rest := UploadExhausts(s1, w);
      steps := [Whole(w)] + rest;
      ReplayManyAppend(s, [Whole(w)], rest);
    } else {
      steps := [Whole(w)];
    }
  }

  lemma UnreadableAttempt(s: State, w: nat)
    requires Live(s, w) && s.db.wal[w].op.UploadS3? && !CanRun(s, w)
    ensures
      var s' := ReplayOne(s, Whole(w));
      && w in s'.db.wal && s'.db.wal[w] == s.db.wal[w].(attempts := s.db.wal[w].attempts + 1) && !CanRun(s', w)
  {
    assert HasId(s.db.rows, s.db.wal[w].fileId);
    var p := Target(s, w);
    HealthyReadIff(s, p);
    var s' := s.(db := RecordFailure(s.db, w));
    assert Attempt(s, w, HEALTHY, false) == s' by { hide UniqueIds, References, Readable; }
    assert SameTargets(s, s') && (Readable(s', p) <==> Readable(s, p));
    CanRunStable(s, s', w);
  }

  /** A torn file: replicating first lets its upload succeed, uploading first leaves it undone. */
  lemma TornNotConfluent(s: State, p: FvfsPath)
    requires Truthful(s) && Torn(s, p)
    ensures !Confluent(s)
  {
    var r :| r in s.db.wal && s.db.wal[r].attempts < MAX_ATTEMPTS && s.db.wal[r].op == ReplicateNas
             && s.db.wal[r].fileId == s.db.rows[p].id;
    var u :| u in s.db.wal && s.db.wal[u].attempts < MAX_ATTEMPTS && s.db.wal[u].op == UploadS3
             && s.db.wal[u].fileId == s.db.rows[p].id;
    assert Target(s, r) == p && Target(s, u) == p;
    var a := ReplicateThenUpload(s, p, r, u);
    var b := UploadExhausts(s, u);
    hide ReplayMany, Truthful, Torn, UniqueIds, References;
    var a1 := ReplaySettles(s, a);
    var b1 := ReplaySettles(s, b);
    ReplayManyAppend(s, a, a1);
    ReplayManyAppend(s, b, b1);
    WholesKeep(ReplayMany(s, a), a1, u);
    WholesKeep(ReplayMany(s, b), b1, u);
    assert Present(ReplayMany(s, a + a1)) != Present(ReplayMany(s, b + b1));
  }

  /** Once replicated, a torn file can be read and its upload can run. */
  lemma ReplicatedCanRun(s: State, p: FvfsPath, r: nat, u: nat)
    requires Truthful(s) && Torn(s, p) && Live(s, r) && Live(s, u)
    requires s.db.wal[r].op.ReplicateNas? && s.db.wal[u].op.UploadS3?
    requires s.db.wal[r].fileId == s.db.wal[u].fileId == s.db.rows[p].id
    ensures
      var s1 := Attempt(s, r, HEALTHY, false);
      && Truthful(s1) && Live(s1, u) && s1.db.wal[u] == s.db.wal[u] && CanRun(s1, u)
      && p in s1.db.rows && s1.db.rows[p].id == s.db.rows[p].id
  {
    assert Target(s, r) == p;
    hide Attempt, References, Reached;
    HealthyAttempt(s, r, p);
    var s1 := Attempt(s, r, HEALTHY, false);
    AttemptKeepsTruth(s, r);
    assert Target(s1, u) == p;
  }

  lemma AttemptKeepsTruth(s: State, w: nat)
    requires Truthful(s) && Live(s, w)
    ensures Truthful(Attempt(s, w, HEALTHY, false))
  {
    hide Attempt, UniqueIds, References, Truthful, CanRun, Effect, Settles;
    WholeStep(s, w);
    EffectKeepsTruth(s, Attempt(s, w, HEALTHY, false), w, CanRun(s, w), CanRun(s, w));
  }

  lemma ReplicateThenUpload(s: State, p: FvfsPath, r: nat, u: nat) returns (a: seq<ReplayStep>)
    requires Truthful(s) && Torn(s, p) && Live(s, r) && Live(s, u)
    requires s.db.wal[r].op.ReplicateNas? && s.db.wal[u].op.UploadS3?
    requires s.db.wal[r].fileId == s.db.wal[u].fileId == s.db.rows[p].id
    ensures u !in ReplayMany(s, a).db.wal
  {
    hide Attempt, UniqueIds, References, Truthful, Torn, CanRun;
    a := [Whole(r), Whole(u)];
    ReplicatedCanRun(s, p, r, u);
    var s1 := Attempt(s, r, HEALTHY, false);
    HealthyAttempt(s1, u, p);
    ReplayOneSnoc(s, [], Whole(r));
    ReplayOneSnoc(s, [Whole(r)], Whole(u));
    assert [] + [Whole(r)] == [Whole(r)] && [Whole(r)] + [Whole(u)] == a;
  }

  /** From a state whose bitmasks tell no lies, replays agree exactly when no file is torn. */
  lemma ConfluentIffUntorn(s: State)
    requires Truthful(s)
    ensures Confluent(s) <==> Untorn(s)
  {
    if Untorn(s) {
      forall a, b | Settled(ReplayMany(s, a)) && Settled(ReplayMany(s, b))
        ensures Present(ReplayMany(s, a)) == Present(ReplayMany(s, b))
      {
        ReplayConfluent(s, a, b);
      }
    } else {
      hide Confluent;
      var p :| Torn(s, p);
      TornNotConfluent(s, p);
    }
  }

  lemma SafeTruthful(s: State)
    requires AllSafe(s)
    ensures Truthful(s)
  {
    hide UniqueIds, References;
    forall p | IsFile(s, p) ensures TruthfulAt(s, p) { assert FileSafe(s, p); }
  }

  /**
   After every interleaving, tasks stopped anywhere: the replays that follow agree exactly when no file is
   torn, that is, unreadable with its bytes on the local disk and both its entries live.
   */
  lemma CrashReplayConfluentIff(ms: seq<Move>)
    ensures Confluent(Exec(ms).st) <==> Untorn(Exec(ms).st)
  {
    hide Confluent, Untorn, Exec;
    ExecInvariant(ms);
    SafeTruthful(Exec(ms).st);
    ConfluentIffUntorn(Exec(ms).st);
  }

  /** And then every live upload of a readable file is done. */
  lemma CrashReplayUploads(ms: seq<Move>, a: seq<ReplayStep>, w: nat)
    requires Untorn(Exec(ms).st) && Settled(ReplayMany(Exec(ms).st, a))
    requires Live(Exec(ms).st, w) && Exec(ms).st.db.wal[w].op.UploadS3?
    requires IsFile(Exec(ms).st, Target(Exec(ms).st, w)) && Readable(Exec(ms).st, Target(Exec(ms).st, w))
    ensures
      var s, s' := Exec(ms).st, ReplayMany(Exec(ms).st, a);
      var p := Target(s, w);
      && w !in s'.db.wal && p in s'.db.rows && S3 in s'.db.rows[p].bitmask
      && Holds(s'.s3, p, Content(s.db.rows[p]))
  {
    hide Untorn, Exec, Settled, ReplayMany, Readable;
    ExecInvariant(ms);
    SafeTruthful(Exec(ms).st);
    ReplayUploadsEverything(Exec(ms).st, a, w);
  }

  // ---- Every file can be torn

  const BOTH_ENTRIES := map[1 := REPLICATE_FIRST, 2 := UPLOAD_FIRST]

  /** A replication stopped once its bitmask is written: all done but the entry. */
  lemma CutReplicate(s: State, w: nat, p: FvfsPath)
    requires p in s.db.rows && p in s.local && PathOfId(s.db, s.db.rows[p].id) == Some(p)
    ensures Advanced(s, ReplicateLookup(w, s.db.rows[p].id), HEALTHY, false, 4).0 == Replicate(s, p, HEALTHY, false).0
  {
    hide Advanced, UniqueIds, References, SetBitmask;
    var id, bm, d := s.db.rows[p].id, s.db.rows[p].bitmask, s.local[p];
    AdvancedStep(s, ReplicateLookup(w, id), HEALTHY, false, 4);
    AdvancedStep(s, ReplicateGet(w, p, id, bm), HEALTHY, false, 3);
    CutReplicatePut(s, w, p, id, bm, d);
  }

  lemma CutReplicatePut(s: State, w: nat, p: FvfsPath, id: nat, bm: TierBitmask, d: Bytes)
    ensures Advanced(s, ReplicatePut(w, p, id, bm, d), HEALTHY, false, 2).0 ==
            s.(nas := s.nas[p := d], db := SetBitmask(s.db, id, bm + {Nas}))
  {
    hide Advanced, UniqueIds, References, SetBitmask;
    AdvancedStep(s, ReplicatePut(w, p, id, bm, d), HEALTHY, false, 2);
    var s1 := s.(nas := s.nas[p := d]);
    AdvancedStep(s1, ReplicateMark(w, p, id, bm), HEALTHY, false, 1);
    AdvancedNone(s1.(db := SetBitmask(s1.db, id, bm + {Nas})), Complete(w), HEALTHY, false);
  }

  /** An upload of a file on the local disk stopped once its bitmask is written. */
  lemma CutUpload(s: State, w: nat, p: FvfsPath)
    requires IsFile(s, p) && Local in s.db.rows[p].bitmask && p in s.local
    requires PathOfId(s.db, s.db.rows[p].id) == Some(p)
    ensures Advanced(s, UploadLookup(w, s.db.rows[p].id), HEALTHY, false, 7) ==
            (Upload(s, p, HEALTHY, false).0, Complete(w))
  {
    hide Advanced, UniqueIds, References, SetBitmask, Accessed;
    var id, bm, d := s.db.rows[p].id, s.db.rows[p].bitmask, s.local[p];
    UploadLookupStep(s, w, p);
    hide Advance;
    CutUploadRead(s, w, p);
    CutUploadCount(s, w, p, id, bm, d);
    CutUploadPut(s.(db := Accessed(s.db, id, s.clock)), w, p, id, bm, d);
  }

  lemma UploadLookupStep(s: State, w: nat, p: FvfsPath)
    requires p in s.db.rows && PathOfId(s.db, s.db.rows[p].id) == Some(p)
    ensures
      var id, bm := s.db.rows[p].id, s.db.rows[p].bitmask;
      Advanced(s, UploadLookup(w, id), HEALTHY, false, 7) ==
      Advanced(s, UploadRead(w, p, id, bm, Lookup), HEALTHY, false, 6)
  {
    hide Advanced, ReadStep, PathOfId, UniqueIds, References;
    AdvancedStep(s, UploadLookup(w, s.db.rows[p].id), HEALTHY, false, 7);
  }

  lemma CutUploadRead(s: State, w: nat, p: FvfsPath)
    requires IsFile(s, p) && Local in s.db.rows[p].bitmask && p in s.local
    ensures
      var id, bm, d := s.db.rows[p].id, s.db.rows[p].bitmask, s.local[p];
      Advanced(s, UploadRead(w, p, id, bm, Lookup), HEALTHY, false, 6) ==
      Advanced(s, UploadRead(w, p, id, bm, Count(id, d)), HEALTHY, false, 4)
  {
    hide Advanced, ReadStep, UniqueIds, References, Accessed;
    var id, bm, d := s.db.rows[p].id, s.db.rows[p].bitmask, s.local[p];
    LookupStep(s, p);
    FetchStep(s, p, id, bm);
    UploadReadStep(s, w, p, id, bm, Lookup, 6, s, TryLocal(id, bm));
    UploadReadStep(s, w, p, id, bm, TryLocal(id, bm), 5, s, Count(id, d));
  }

  lemma CutUploadCount(s: State, w: nat, p: FvfsPath, id: nat, bm: TierBitmask, d: Bytes)
    ensures Advanced(s, UploadRead(w, p, id, bm, Count(id, d)), HEALTHY, false, 4) ==
            Advanced(s.(db := Accessed(s.db, id, s.clock)), UploadRead(w, p, id, bm, Got(d)), HEALTHY, false, 3)
  {
    hide Advanced, ReadStep, UniqueIds, References, Accessed;
    CountStep(s, p, id, d);
    UploadReadStep(s, w, p, id, bm, Count(id, d), 4, s.(db := Accessed(s.db, id, s.clock)), Got(d));
  }

  // the steps of a healthy read that finds what it looks for

  lemma LookupStep(s: State, p: FvfsPath)
    requires IsFile(s, p)
    ensures
      var id, bm := s.db.rows[p].id, s.db.rows[p].bitmask;
      ReadStep(s, p, Lookup, false) == (s, if Local in bm then TryLocal(id, bm) else Colder(id, bm))
  {
    hide Colder, Accessed, UniqueIds, References;
  }

  lemma FetchStep(s: State, p: FvfsPath, id: nat, bm: TierBitmask)
    ensures p in s.local ==> ReadStep(s, p, TryLocal(id, bm), false) == (s, Count(id, s.local[p]))
    ensures p in s.nas ==> ReadStep(s, p, TryNas(id), false) == (s.(queue := s.queue + [p]), Count(id, s.nas[p]))
  {
    hide Colder, Accessed, UniqueIds, References;
  }

  lemma CountStep(s: State, p: FvfsPath, id: nat, d: Bytes)
    ensures ReadStep(s, p, Count(id, d), false) == (s.(db := Accessed(s.db, id, s.clock)), Got(d))
  {
    hide Colder, Accessed, UniqueIds, References;
  }

  lemma UploadReadStep(s: State, w: nat, p: FvfsPath, id: nat, bm: TierBitmask, pc: ReadPc, n: nat,
                       s1: State, pc1: ReadPc)
    requires n > 0 && !pc.Got? && !pc.Failed? && ReadStep(s, p, pc, false) == (s1, pc1)
    ensures Advanced(s, UploadRead(w, p, id, bm, pc), HEALTHY, false, n) ==
            Advanced(s1, UploadRead(w, p, id, bm, pc1), HEALTHY, false, n - 1)
  {
    hide Advanced, ReadStep, UniqueIds, References;
    AdvancedStep(s, UploadRead(w, p, id, bm, pc), HEALTHY, false, n);
  }

  lemma PromoteReadStep(s: State, p: FvfsPath, pc: ReadPc, n: nat, s1: State, pc1: ReadPc)
    requires n > 0 && !pc.Got? && !pc.Failed? && ReadStep(s, p, pc, false) == (s1, pc1)
    ensures Advanced(s, PromoteRead(p, pc), HEALTHY, false, n) ==
            Advanced(s1, PromoteRead(p, pc1), HEALTHY, false, n - 1)
  {
    hide Advanced, ReadStep, UniqueIds, References;
    AdvancedStep(s, PromoteRead(p, pc), HEALTHY, false, n);
  }

  lemma CutUploadPut(s: State, w: nat, p: FvfsPath, id: nat, bm: TierBitmask, d: Bytes)
    ensures Advanced(s, UploadRead(w, p, id, bm, Got(d)), HEALTHY, false, 3) ==
            (s.(s3 := s.s3[p := d], db := SetBitmask(s.db, id, bm + {S3})), Complete(w))
  {
    UploadGotSteps(s, w, p, id, bm, d);
    hide Advanced, Advance, UniqueIds, References, SetBitmask;
    CutUploadMark(s.(s3 := s.s3[p := d]), w, p, id, bm);
  }

  lemma UploadGotSteps(s: State, w: nat, p: FvfsPath, id: nat, bm: TierBitmask, d: Bytes)
    ensures Advanced(s, UploadRead(w, p, id, bm, Got(d)), HEALTHY, false, 3) ==
            Advanced(s.(s3 := s.s3[p := d]), UploadMark(w, p, id, bm), HEALTHY, false, 1)
  {
    hide Advanced, UniqueIds, References, SetBitmask, ReadStep;
    AdvancedStep(s, UploadRead(w, p, id, bm, Got(d)), HEALTHY, false, 3);
    AdvancedStep(s, UploadPut(w, p, id, bm, d), HEALTHY, false, 2);
  }

  lemma CutUploadMark(s: State, w: nat, p: FvfsPath, id: nat, bm: TierBitmask)
    ensures Advanced(s, UploadMark(w, p, id, bm), HEALTHY, false, 1) ==
            (s.(db := SetBitmask(s.db, id, bm + {S3})), Complete(w))
  {
    hide Advanced, UniqueIds, References, SetBitmask, ReadStep;
    AdvancedStep(s, UploadMark(w, p, id, bm), HEALTHY, false, 1);
    AdvancedNone(s.(db := SetBitmask(s.db, id, bm + {S3})), Complete(w), HEALTHY, false);
  }

  /** A promotion of a file on the NAS stopped once the local copy is there. */
  lemma CutPromote(s: State, p: FvfsPath)
    requires IsFile(s, p) && Local !in s.db.rows[p].bitmask && Nas in s.db.rows[p].bitmask && p in s.nas
    ensures Advanced(s, PromoteRead(p, Lookup), HEALTHY, false, 5).0 ==
            s.(local := s.local[p := s.nas[p]], queue := s.queue + [p],
               db := Accessed(s.db, s.db.rows[p].id, s.clock))
  {
    hide Advanced, UniqueIds, References, Accessed;
    CutPromoteFetch(s, p);
    CutPromoteCount(s.(queue := s.queue + [p]), p, s.db.rows[p].id, s.nas[p]);
  }

  lemma CutPromoteFetch(s: State, p: FvfsPath)
    requires IsFile(s, p) && Local !in s.db.rows[p].bitmask && Nas in s.db.rows[p].bitmask && p in s.nas
    ensures Advanced(s, PromoteRead(p, Lookup), HEALTHY, false, 5) ==
            Advanced(s.(queue := s.queue + [p]), PromoteRead(p, Count(s.db.rows[p].id, s.nas[p])), HEALTHY, false, 3)
  {
    hide Advanced, ReadStep, UniqueIds, References;
    var id, d := s.db.rows[p].id, s.nas[p];
    LookupStep(s, p);
    FetchStep(s, p, id, s.db.rows[p].bitmask);
    PromoteReadStep(s, p, Lookup, 5, s, TryNas(id));
    PromoteReadStep(s, p, TryNas(id), 4, s.(queue := s.queue + [p]), Count(id, d));
  }

  lemma CutPromoteCount(s: State, p: FvfsPath, id: nat, d: Bytes)
    ensures Advanced(s, PromoteRead(p, Count(id, d)), HEALTHY, false, 3).0 ==
            s.(local := s.local[p := d], db := Accessed(s.db, id, s.clock))
  {
    hide Advanced, ReadStep, UniqueIds, References, Accessed;
    var s1 := s.(db := Accessed(s.db, id, s.clock));
    CountStep(s, p, id, d);
    PromoteReadStep(s, p, Count(id, d), 3, s1, Got(d));
    CutPromotePut(s1, p, d);
  }

  lemma CutPromotePut(s: State, p: FvfsPath, d: Bytes)
    ensures Advanced(s, PromoteRead(p, Got(d)), HEALTHY, false, 2).0 == s.(local := s.local[p := d])
  {
    hide Advanced, ReadStep, UniqueIds, References;
    AdvancedStep(s, PromoteRead(p, Got(d)), HEALTHY, false, 2);
    AdvancedStep(s, PromotePut(p, d), HEALTHY, false, 1);
    AdvancedNone(s.(local := s.local[p := d]), PromoteLookup(p), HEALTHY, false);
  }

  /** Running an entry's operation without settling it: one more copy, the same entries. */
  lemma RanShape(s: State, p: FvfsPath, d: Bytes, on: TierBitmask, wal: Wal, w: nat)
    requires Truthful(s) && Shape(s, p, d, on, wal) && Local in on && w in wal && wal[w].fileId == 1
    requires TierOf(wal[w].op) !in on
    ensures Shape(RunEntry(s, p, wal[w].op, HEALTHY, false).0, p, d, on + {TierOf(wal[w].op)}, wal)
  {
    assert Target(s, w) == p;
    hide RunEntry, UniqueIds, References, Target, Truthful;
    RunEntryEffect(s, w);
  }

  lemma ShapeId(s: State, p: FvfsPath, d: Bytes, on: TierBitmask, wal: Wal)
    requires Shape(s, p, d, on, wal)
    ensures PathOfId(s.db, 1) == Some(p)
  {
    assert HasId(s.db.rows, 1);
  }

  /** No task is under way, and the store has this shape. */
  ghost predicate Standing(ms: seq<Move>, p: FvfsPath, d: Bytes, on: TierBitmask) {
    Exec(ms).tasks == map[] && Shape(Exec(ms).st, p, d, on, BOTH_ENTRIES)
  }

  /** Write, and stop the replication and the upload right before they would remove their entries. */
  lemma CopiedWithEntries(p: FvfsPath, d: Bytes) returns (ms: seq<Move>)
    ensures Standing(ms, p, d, {Local, Nas, S3})
  {
    hide Exec, Advanced, Cut, RunEntry, Shape, UniqueIds, References;
    var m0 := [Operate(WriteEv(p, d, false))];
    WriteMove(p, d);
    Written(p, d);
    var m1 := StandingCut(m0, p, d, {Local}, 1, 4);
    assert {Local} + {Nas} == {Local, Nas};
    ms := StandingCut(m1, p, d, {Local, Nas}, 2, 7);
    assert {Local, Nas} + {S3} == {Local, Nas, S3};
  }

  /** The task of one of the two entries, stopped that way, adds its copy. */
  lemma StandingCut(ms: seq<Move>, p: FvfsPath, d: Bytes, on: TierBitmask, w: nat, n: nat) returns (ms': seq<Move>)
    requires Standing(ms, p, d, on) && Local in on
    requires (w == 1 && n == 4 && Nas !in on) || (w == 2 && n == 7 && S3 !in on)
    ensures Standing(ms', p, d, on + {TierOf(BOTH_ENTRIES[w].op)})
  {
    var s, task := Exec(ms).st, EntryTask(w, BOTH_ENTRIES[w]);
    ShapeId(s, p, d, on, BOTH_ENTRIES);
    if w == 1 {
      CutReplicate(s, w, p);
    } else {
      CutUpload(s, w, p);
    }
    ExecInvariant(ms);
    SafeTruthful(s);
    RanShape(s, p, d, on, BOTH_ENTRIES, w);
    hide Exec, Advanced, Cut, Shape, AllSafe, UniqueIds, References;
    ms' := ms + Cut(s, 0, task, HEALTHY, false, n);
    ExecCut(ms, 0, task, HEALTHY, false, n);
  }

  /** Evict the file from the local disk, stop its promotion once the local copy is back, then a NAS eviction. */
  lemma TornHappens(p: FvfsPath, d: Bytes) returns (ms: seq<Move>)
    ensures Exec(ms).tasks == map[] && Torn(Exec(ms).st, p) && !Confluent(Exec(ms).st)
  {
    hide Exec, Advanced, Cut, Solo, Finish, Evict, Confluent, UniqueIds, References, Standing, Torn;
    var m1 := CopiedWithEntries(p, d);
    var m2 := LocalGone(m1, p, d);
    ms := PromotedThenStalled(m2, p, d);
    ExecInvariant(ms);
    SafeTruthful(Exec(ms).st);
    TornNotConfluent(Exec(ms).st, p);
  }

  lemma LocalGone(ms: seq<Move>, p: FvfsPath, d: Bytes) returns (ms': seq<Move>)
    requires Standing(ms, p, d, {Local, Nas, S3})
    ensures Standing(ms', p, d, {Nas, S3})
  {
    hide Exec, Finish, Solo, Evict, Shape, UniqueIds, References;
    var s := Exec(ms).st;
    ms' := ms + Solo(s, 0, EvictLookup(p, Local), HEALTHY, false);
    ExecSolo(ms, 0, EvictLookup(p, Local), HEALTHY, false);
    SoloEvict(s, p, Local, HEALTHY, false);
    LocalEvicted(s, p, d, {Local, Nas, S3}, BOTH_ENTRIES);
    assert {Local, Nas, S3} - {Local} == {Nas, S3};
  }

  lemma PromotedThenStalled(ms: seq<Move>, p: FvfsPath, d: Bytes) returns (ms': seq<Move>)
    requires Standing(ms, p, d, {Nas, S3})
    ensures Exec(ms').tasks == map[] && Torn(Exec(ms').st, p)
  {
    var s := Exec(ms).st;
    CutPromote(s, p);
    hide Exec, Advanced, Cut, UniqueIds, References, Reached, Readable;
    var m1 := ms + Cut(s, 0, PromoteRead(p, Lookup), HEALTHY, false, 5);
    ExecCut(ms, 0, PromoteRead(p, Lookup), HEALTHY, false, 5);
    ms' := m1 + StalledEviction(0, p);
    StalledEvictionLeaves(m1, 0, p);
    LeftTorn(s, Exec(ms').st, p, d);
  }

  /** With its bytes on the local disk unmarked and its NAS object gone, the file is torn. */
  lemma LeftTorn(s: State, s': State, p: FvfsPath, d: Bytes)
    requires Shape(s, p, d, {Nas, S3}, BOTH_ENTRIES) && s'.db == Accessed(s.db, s.db.rows[p].id, s.clock)
    requires s'.local == s.local[p := d] && p !in s'.nas
    ensures Torn(s', p)
  {
    hide UniqueIds, References;
    assert 1 in s'.db.wal && s'.db.wal[1] == REPLICATE_FIRST;
    assert 2 in s'.db.wal && s'.db.wal[2] == UPLOAD_FIRST;
  }
}
