/**
 The background work on the router: WAL replay at startup with its backoff
 (fvfsd/src/wal_replay.rs), the uploader's flush (fvfsd/src/s3_uploader.rs) and the promotion
 task (fvfsd/src/main.rs). Each is shown to be a serialised run, so what holds of runs holds of it.
 */
module Background {
  import opened Collections
  import opened Results
  import opened Paths
  import opened Tiers
  import opened Store
  import opened Protocol
  import opened SerialRuns
  import opened WalProperties
  import opened PromotionDrain
  import ReplayConfluence
  import opened Router

  // ---- Backoff

  const BASE_DELAY_MS: nat := 500
  const MAX_DELAY_MS: nat := 30_000

  function Pow2(k: nat): nat {
    if k == 0 then 1 else 2 * Pow2(k - 1)
  }

  /** The k-th sleep of an entry: doubling from 500 ms, capped at 30 s. */
  function Backoff(k: nat): nat {
    Min(BASE_DELAY_MS * Pow2(k), MAX_DELAY_MS)
  }

  function TotalSleep(xs: seq<nat>): nat {
    if xs == [] then 0 else TotalSleep(xs[..|xs| - 1]) + xs[|xs| - 1]
  }

  function BackoffTotal(n: nat): nat {
    if n == 0 then 0 else BackoffTotal(n - 1) + Backoff(n - 1)
  }

  lemma PowersOfTwo()
    ensures Pow2(1) == 2 && Pow2(2) == 4 && Pow2(3) == 8 && Pow2(4) == 16 && Pow2(5) == 32
    ensures Pow2(6) == 64 && Pow2(7) == 128 && Pow2(8) == 256 && Pow2(9) == 512
  {
    assert Pow2(3) == 2 * Pow2(2);
    assert Pow2(6) == 2 * Pow2(5);
  }

  /** Ten failures sleep 151.5 seconds altogether. */
  lemma TenBackoffs()
    ensures BackoffTotal(10) == 151_500
  {
    PowersOfTwo();
    assert BackoffTotal(3) == 3_500;
    assert BackoffTotal(6) == 31_500;
    assert BackoffTotal(8) == 91_500;
  }

  lemma {:induction false} BackoffTotalGrows(m: nat, n: nat)
    requires m <= n
    ensures BackoffTotal(m) <= BackoffTotal(n)
  {
    if m < n { BackoffTotalGrows(m, n - 1); }
  }

  lemma {:induction false} SumOfBackoffs(xs: seq<nat>)
    requires forall k | 0 <= k < |xs| :: xs[k] == Backoff(k)
    ensures TotalSleep(xs) == BackoffTotal(|xs|)
  {
    if xs != [] { SumOfBackoffs(xs[..|xs| - 1]); }
  }

  /** What the `delay = (delay * 2).min(30_000)` update computes. */
  lemma DoublingCapped(k: nat)
    ensures Min(Backoff(k) * 2, MAX_DELAY_MS) == Backoff(k + 1)
  {
    assert Pow2(k + 1) == 2 * Pow2(k);
  }

  // ---- One attempt

  /** Which failures an attempt meets, by number: faults of the reads, and of the write to the tier. */
  type Schedule = nat -> (Faults, bool)

  function Scheduled(w: nat, failures: (Faults, bool)): Event {
    AttemptEv(w, failures.0, failures.1)
  }

  const NO_FAILURES := (HEALTHY, false)

  /** The operation of an entry: copy to the tier, then mark the row with the bitmask read before. */
  method RunOperation(router: TierRouter, p: FvfsPath, op: WalOp, f: Faults, putFails: bool, now: int)
    returns (result: Result<()>)
    requires router.Valid() && p in router.meta.rows
    modifies router, router.meta
    ensures router.Valid()
    ensures (router.View(now), result) == RunEntry(old(router.View(now)), p, op, f, putFails)
  {
    hide UniqueIds, References, Protocol.Read;
    var row := router.meta.rows[p];
    match op {
      case ReplicateNas =>
        var data := Fetch(router.local, p, f.local);
        if data.Err? {
          return Err(data.error);
        }
        if putFails {
          return Err(FvfsError.Backend);
        }
        router.nas := router.nas[p := data.value];
        router.meta.SetTierBitmask(row.id, row.bitmask + {Nas});
      case UploadS3 =>
        var data := router.Read(p, f, now);
        if data.Err? {
          return Err(data.error);
        }
        if putFails {
          return Err(FvfsError.Backend);
        }
        router.s3 := router.s3[p := data.value];
        router.meta.SetTierBitmask(row.id, row.bitmask + {S3});
    }
    result := Ok(());
  }

  /** The body both loops share: look the file up, run the operation, settle the entry. */
  method TryEntry(router: TierRouter, w: nat, f: Faults, putFails: bool, now: int) returns (ok: bool)
    requires router.Valid() && Live(router.View(now), w)
    modifies router, router.meta
    ensures router.Valid()
    ensures router.View(now) == Step(old(router.View(now)), AttemptEv(w, f, putFails))
    ensures ok == (w !in router.meta.wal)
  {
    hide UniqueIds, RunEntry;
    var meta := router.meta;
    var entry := meta.wal[w];
    ghost var before := router.View(now);
    assert HasId(before.db.rows, entry.fileId);
    var found := meta.GetById(entry.fileId);
    var result := RunOperation(router, found.value, entry.op, f, putFails, now);
    assert w in router.meta.wal by { RunEntryTables(before, found.value, entry.op, f, putFails); }
    if result.Ok? {
      meta.WalComplete(w);
    } else {
      meta.WalRecordFailure(w);
    }
    ok := result.Ok?;
  }

  // ---- Replay

  /**
   The retry loop for one entry. Its stored attempts follow the loop's counter, the k-th sleep is the
   k-th backoff, and the entry ends removed or out of attempts.
   */
  method ReplayEntry(router: TierRouter, w: nat, sched: Schedule, now: int)
    returns (sleeps: seq<nat>, ghost trace: seq<Event>)
    requires router.Valid() && w in router.meta.wal
    modifies router, router.meta
    ensures router.Valid() && router.View(now) == RunFrom(old(router.View(now)), trace)
    ensures forall k | 0 <= k < |trace| :: trace[k] == Scheduled(w, sched(k))
    ensures !Live(router.View(now), w)
    ensures forall k | 0 <= k < |sleeps| :: sleeps[k] == Backoff(k)
    ensures |trace| == |sleeps| + if w in router.meta.wal then 0 else 1
    ensures (forall e | e in trace :: e.AttemptEv?) && TotalSleep(sleeps) == SleepOf(old(router.View(now)), trace)
    ensures old(router.meta.wal[w].attempts) < MAX_ATTEMPTS ==>
              old(router.meta.wal[w].attempts) + |sleeps| <= MAX_ATTEMPTS
    ensures old(router.meta.wal[w].attempts) >= MAX_ATTEMPTS ==> sleeps == [] && trace == []
    ensures w in router.meta.wal ==>
              router.meta.wal[w].attempts == old(router.meta.wal[w].attempts) + |sleeps|
    ensures TotalSleep(sleeps) <= 151_500
  {
    hide UniqueIds, References, Step, RunFrom, SleepOf, TotalSleep;
    RunFromNone(router.View(now));
    SleepNone(router.View(now));
    NoSleep();
    sleeps, trace := [], [];
    ghost var start := router.View(now);
    var delay := BASE_DELAY_MS;
    var attempt := router.meta.wal[w].attempts;
    ghost var first := attempt;
    var done := false;
    while !done && attempt < MAX_ATTEMPTS
      invariant router.Valid() && router.View(now) == RunFrom(start, trace)
      invariant forall k | 0 <= k < |trace| :: trace[k] == Scheduled(w, sched(k))
      invariant |trace| == if done then |sleeps| + 1 else |sleeps|
      invariant (forall e | e in trace :: e.AttemptEv?) && (forall e | e in trace :: e.entry == w)
      invariant TotalSleep(sleeps) == SleepOf(start, trace)
      invariant attempt == first + |sleeps|
      invariant first < MAX_ATTEMPTS ==> attempt <= MAX_ATTEMPTS
      invariant first >= MAX_ATTEMPTS ==> sleeps == [] && trace == []
      invariant done <==> w !in router.meta.wal
      invariant !done ==> router.meta.wal[w].attempts == attempt
      invariant delay == Backoff(|sleeps|)
      invariant forall k | 0 <= k < |sleeps| :: sleeps[k] == Backoff(k)
      decreases MAX_ATTEMPTS - attempt, !done
    {
      var (f, putFails) := sched(|sleeps|);
      ghost var e := Scheduled(w, sched(|sleeps|));
      RunFromSnoc(start, trace, e);
      SleepSnoc(start, trace, w, sched(|sleeps|));
      ghost var mid := router.View(now);
      done := TryEntry(router, w, f, putFails, now);
      AttemptCounts(mid, w, f, putFails);
      trace := trace + [e];
      if !done {
        attempt := attempt + 1;
        DoublingCapped(|sleeps|);
        TotalSleepSnoc(sleeps, delay);
        sleeps := sleeps + [delay];
        delay := Min(delay * 2, MAX_DELAY_MS);
      }
    }
    SumOfBackoffs(sleeps);
    BackoffTotalGrows(|sleeps|, 10);
    TenBackoffs();
  }

  /** An attempt that does not remove its entry adds one to its count; other entries stay as they are. */
  lemma AttemptCounts(s: State, w: nat, f: Faults, putFails: bool)
    requires Live(s, w)
    ensures
      var s' := Step(s, AttemptEv(w, f, putFails));
      && (w in s'.db.wal ==> s'.db.wal[w].attempts == s.db.wal[w].attempts + 1)
      && (forall v | v != w :: v in s'.db.wal <==> v in s.db.wal)
      && (forall v | v != w && v in s.db.wal :: s'.db.wal[v] == s.db.wal[v])
  {
    hide UniqueIds, RunEntry;
    assert HasId(s.db.rows, s.db.wal[w].fileId);
    RunEntryTables(s, PathOfId(s.db, s.db.wal[w].fileId).value, s.db.wal[w].op, f, putFails);
  }

  /** Attempts add no entries and revive none. */
  lemma {:induction false} AttemptsOnlySettle(s: State, trace: seq<Event>, v: nat)
    requires forall e | e in trace :: e.AttemptEv?
    ensures v in RunFrom(s, trace).db.wal ==> v in s.db.wal
    ensures Live(RunFrom(s, trace), v) ==> Live(s, v)
  {
    if trace == [] {
    } else {
      var n := |trace| - 1;
      AttemptsOnlySettle(s, trace[..n], v);
      var s1, e := RunFrom(s, trace[..n]), trace[n];
      if Live(s1, e.entry) { AttemptCounts(s1, e.entry, e.faults, e.putFails); }
    }
  }

  /**
   Replay of all pending entries, in whatever order the query lists them: a run of attempts that
   leaves no entry with attempts left and sleeps after each failed attempt as long as its number says, at most
   151.5 seconds per entry.
   */
  method ReplayWal(router: TierRouter, scheds: nat -> Schedule, now: int)
    returns (slept: nat, ghost trace: seq<Event>)
    requires router.Valid()
    modifies router, router.meta
    ensures router.Valid() && router.View(now) == RunFrom(old(router.View(now)), trace)
    ensures (forall e | e in trace :: e.AttemptEv?) && FollowsSchedule(trace, scheds)
    ensures forall w | w in router.meta.wal :: !Live(router.View(now), w)
    ensures slept == SleepOf(old(router.View(now)), trace) && slept <= 151_500 * |old(router.meta.wal)|
    ensures ReplayConfluence.Truthful(old(router.View(now))) && ReplayConfluence.Untorn(old(router.View(now))) &&
            (forall w, k :: scheds(w)(k) == NO_FAILURES) ==>
              ReplayConfluence.Present(router.View(now)) == ReplayConfluence.OutcomeOf(old(router.View(now)))
  {
    hide UniqueIds, References, RunFrom, ReplayConfluence.Truthful, ReplayConfluence.Untorn,
         ReplayConfluence.Present, ReplayConfluence.OutcomeOf, FollowsSchedule, SleepOf, TotalSleep;
    ghost var start := router.View(now);
    SleepNone(start);
    var entries := router.meta.WalPending();
    DistinctCount(entries, router.meta.wal.Keys);
    slept, trace := 0, [];
    RunFromNone(start);
    NothingFollows(scheds);
    var i := 0;
    while i < |entries|
      invariant 0 <= i <= |entries|
      invariant router.Valid() && router.View(now) == RunFrom(start, trace)
      invariant forall e | e in trace :: e.AttemptEv?
      invariant forall e | e in trace :: e.entry in entries[..i]
      invariant FollowsSchedule(trace, scheds)
      invariant forall j | 0 <= j < i :: !Live(router.View(now), entries[j])
      invariant slept == SleepOf(start, trace) && slept <= 151_500 * i
    {
      var w := entries[i];
      if w in router.meta.wal {
        ghost var mid := router.View(now);
        var sleeps: seq<nat>;
        ghost var more: seq<Event>;
        sleeps, more := ReplayEntry(router, w, scheds(w), now);
        EntryFollows(trace, more, w, scheds);
        SleepAppend(start, trace, more, w);
        forall j | 0 <= j < i ensures !Live(router.View(now), entries[j]) {
          AttemptsOnlySettle(mid, more, entries[j]);
        }
        RunFromAppend(start, trace, more);
        trace := trace + more;
        slept := slept + TotalSleep(sleeps);
      }
      i := i + 1;
    }
    forall w | w in router.meta.wal ensures !Live(router.View(now), w) {
      AttemptsOnlySettle(start, trace, w);
    }
    if ReplayConfluence.Truthful(start) && ReplayConfluence.Untorn(start)
       && forall w, k :: scheds(w)(k) == NO_FAILURES {
      HealthyReplayDone(start, trace, scheds);
    }
  }

  predicate Healthy(e: Event) {
    e.AttemptEv? && e.faults == HEALTHY && !e.putFails
  }

  /** The attempts of a run as steps of a replay. */
  function Wholes(trace: seq<Event>): seq<ReplayConfluence.ReplayStep>
    requires forall e | e in trace :: e.AttemptEv?
  {
    seq(|trace|, k requires 0 <= k < |trace| => assert trace[k] in trace; ReplayConfluence.Whole(trace[k].entry))
  }

  /** A run of healthy attempts is a replay of whole steps. */
  lemma {:induction false} HealthyRunIsReplay(s: State, trace: seq<Event>)
    requires (forall e | e in trace :: e.AttemptEv?) && (forall e | e in trace :: Healthy(e))
    ensures RunFrom(s, trace) == ReplayConfluence.ReplayMany(s, Wholes(trace))
  {
    hide Attempt, UniqueIds, References;
    if trace == [] {
    } else {
      var n := |trace| - 1;
      assert trace[n] in trace;
      HealthyRunIsReplay(s, trace[..n]);
      assert Wholes(trace)[..n] == Wholes(trace[..n]);
    }
  }

  /** A healthy replay that has come to its end leaves the outcome computed from where it started. */
  lemma HealthyReplayDone(s: State, trace: seq<Event>, scheds: nat -> Schedule)
    requires ReplayConfluence.Truthful(s) && ReplayConfluence.Untorn(s)
    requires forall w, k :: scheds(w)(k) == NO_FAILURES
    requires (forall e | e in trace :: e.AttemptEv?) && FollowsSchedule(trace, scheds)
    requires forall w | w in RunFrom(s, trace).db.wal :: !Live(RunFrom(s, trace), w)
    ensures ReplayConfluence.Present(RunFrom(s, trace)) == ReplayConfluence.OutcomeOf(s)
  {
    forall e | e in trace ensures Healthy(e) { EventScheduled(trace, e, scheds); }
    HealthyRunIsReplay(s, trace);
    hide UniqueIds, References, RunFrom, Wholes, ReplayConfluence.Truthful, ReplayConfluence.Untorn,
         ReplayConfluence.ReplayMany, ReplayConfluence.OutcomeOf;
    ReplayConfluence.ReplayManyStable(s, Wholes(trace));
    ReplayConfluence.SettledIsOutcome(RunFrom(s, trace));
  }

  /** Whole attempts at one entry until it is done or out of attempts. */
  lemma EntrySettles(s: State, w: nat) returns (trace: seq<Event>)
    ensures forall e | e in trace :: e.AttemptEv?
    ensures forall e | e in trace :: Healthy(e)
    ensures !Live(RunFrom(s, trace), w)
    decreases if w in s.db.wal then MAX_ATTEMPTS - s.db.wal[w].attempts else 0
  {
    hide Step, UniqueIds, References;
    trace := [];
    if Live(s, w) {
      var e := AttemptEv(w, HEALTHY, false);
      AttemptCounts(s, w, HEALTHY, false);
      RunFromSnoc(s, [], e);
      assert [] + [e] == [e];
      var rest := EntrySettles(Step(s, e), w);
      trace := [e] + rest;
      RunFromAppend(s, [e], rest);
    }
  }

  lemma {:induction false} EntriesSettle(s: State, ws: set<nat>) returns (trace: seq<Event>)
    requires forall w | Live(s, w) :: w in ws
    ensures forall e | e in trace :: e.AttemptEv?
    ensures forall e | e in trace :: Healthy(e)
    ensures forall w :: !Live(RunFrom(s, trace), w)
    decreases ws
  {
    trace := [];
    if ws == {} {
    } else {
      var w :| w in ws;
      var first := EntrySettles(s, w);
      var s1 := RunFrom(s, first);
      forall v | Live(s1, v) ensures v in ws - {w} {
        AttemptsOnlySettle(s, first, v);
      }
      var rest := EntriesSettle(s1, ws - {w});
      trace := first + rest;
      RunFromAppend(s, first, rest);
    }
  }

  /**
   However a replay has been interrupted, going on with healthy backends can bring it to its end, and that end
   is the outcome computed from where it started.
   */
  lemma InterruptedReplayFinishes(s: State, a: seq<ReplayConfluence.ReplayStep>)
    returns (b: seq<ReplayConfluence.ReplayStep>)
    requires ReplayConfluence.Truthful(s) && ReplayConfluence.Untorn(s)
    ensures
      var s' := ReplayConfluence.ReplayMany(s, a + b);
      ReplayConfluence.Settled(s') && ReplayConfluence.Present(s') == ReplayConfluence.OutcomeOf(s)
  {
    hide RunFrom, ReplayConfluence.OutcomeOf, ReplayConfluence.Present, ReplayConfluence.Truthful,
         ReplayConfluence.Untorn, UniqueIds, References;
    b := ReplaySettles(s, a);
    ReplayConfluence.ReplayConfluent(s, a + b, a + b);
  }

  /** From any state and any interruption, whole attempts bring a replay to its end. */
  lemma ReplaySettles(s: State, a: seq<ReplayConfluence.ReplayStep>)
    returns (b: seq<ReplayConfluence.ReplayStep>)
    ensures ReplayConfluence.Settled(ReplayConfluence.ReplayMany(s, a + b))
    ensures forall step | step in b :: step.Whole?
  {
    hide RunFrom, UniqueIds, References;
    var mid := ReplayConfluence.ReplayMany(s, a);
    var trace := EntriesSettle(mid, mid.db.wal.Keys);
    HealthyRunIsReplay(mid, trace);
    b := Wholes(trace);
    ReplayConfluence.ReplayManyAppend(s, a, b);
  }

  /** The attempts of a run at one entry, in order. */
  function AttemptsAt(trace: seq<Event>, w: nat): seq<Event>
    requires forall e | e in trace :: e.AttemptEv?
  {
    if trace == [] then []
    else
      var e := trace[|trace| - 1];
      assert e in trace;
      AttemptsAt(trace[..|trace| - 1], w) + if e.entry == w then [e] else []
  }

  /** The k-th attempt at an entry meets the failures scheduled for the entry's k-th attempt. */
  ghost predicate FollowsSchedule(trace: seq<Event>, scheds: nat -> Schedule)
    requires forall e | e in trace :: e.AttemptEv?
  {
    forall w, k | 0 <= k < |AttemptsAt(trace, w)| :: AttemptsAt(trace, w)[k] == Scheduled(w, scheds(w)(k))
  }

  lemma NothingFollows(scheds: nat -> Schedule)
    ensures FollowsSchedule([], scheds)
  {
  }

  lemma {:induction false} AttemptsAtAppend(a: seq<Event>, b: seq<Event>, w: nat)
    requires (forall e | e in a :: e.AttemptEv?) && (forall e | e in b :: e.AttemptEv?)
    ensures (forall e | e in a + b :: e.AttemptEv?) && AttemptsAt(a + b, w) == AttemptsAt(a, w) + AttemptsAt(b, w)
  {
    if b == [] {
      assert a + b == a;
    } else {
      var n := |b| - 1;
      assert b[n] in b;
      AttemptsAtAppend(a, b[..n], w);
      assert (a + b)[..|a + b| - 1] == a + b[..n];
    }
  }

  /** All of a run, or none of it, is at the entry. */
  lemma {:induction false} AttemptsAtOne(trace: seq<Event>, v: nat, w: nat)
    requires forall e | e in trace :: e.AttemptEv?
    ensures (forall e | e in trace :: e.entry == w) ==> AttemptsAt(trace, w) == trace
    ensures (forall e | e in trace :: e.entry != v) ==> AttemptsAt(trace, v) == []
  {
    if trace == [] {
    } else {
      var n := |trace| - 1;
      assert trace[n] in trace && trace == trace[..n] + [trace[n]];
      AttemptsAtOne(trace[..n], v, w);
    }
  }

  lemma {:induction false} EventListed(trace: seq<Event>, e: Event)
    requires (forall x | x in trace :: x.AttemptEv?) && e in trace
    ensures e in AttemptsAt(trace, e.entry)
  {
    var n := |trace| - 1;
    assert trace[n] in trace && trace == trace[..n] + [trace[n]];
    if e in trace[..n] {
      EventListed(trace[..n], e);
    }
  }

  /** Each event of such a run is one the schedule has. */
  lemma EventScheduled(trace: seq<Event>, e: Event, scheds: nat -> Schedule)
    requires (forall x | x in trace :: x.AttemptEv?) && FollowsSchedule(trace, scheds) && e in trace
    ensures exists k :: e == Scheduled(e.entry, scheds(e.entry)(k))
  {
    EventListed(trace, e);
    var k :| 0 <= k < |AttemptsAt(trace, e.entry)| && AttemptsAt(trace, e.entry)[k] == e;
    assert e == Scheduled(e.entry, scheds(e.entry)(k));
  }

  /** A run goes on with the attempts at an entry it has not tried. */
  lemma EntryFollows(trace: seq<Event>, more: seq<Event>, w: nat, scheds: nat -> Schedule)
    requires (forall e | e in trace :: e.AttemptEv?) && FollowsSchedule(trace, scheds)
    requires forall e | e in trace :: e.entry != w
    requires forall k | 0 <= k < |more| :: more[k] == Scheduled(w, scheds(w)(k))
    ensures (forall e | e in more :: e.AttemptEv?) && (forall e | e in more :: e.entry == w)
    ensures (forall e | e in trace + more :: e.AttemptEv?) && FollowsSchedule(trace + more, scheds)
  {
    forall e | e in more ensures e.AttemptEv? && e.entry == w {
      var k :| 0 <= k < |more| && more[k] == e;
    }
    forall v, k | 0 <= k < |AttemptsAt(trace + more, v)|
      ensures AttemptsAt(trace + more, v)[k] == Scheduled(v, scheds(v)(k))
    {
      AttemptsAtAppend(trace, more, v);
      AttemptsAtOne(trace, w, w);
      AttemptsAtOne(more, v, w);
    }
  }

  /** What a run of attempts sleeps: each that leaves its entry is followed by the backoff of its number. */
  ghost function SleepOf(s: State, trace: seq<Event>): nat
    requires forall e | e in trace :: e.AttemptEv?
  {
    if trace == [] then 0
    else
      var n := |trace| - 1;
      var e := trace[n];
      assert e in trace;
      SleepOf(s, trace[..n]) +
      if e.entry in RunFrom(s, trace).db.wal then Backoff(|AttemptsAt(trace[..n], e.entry)|) else 0
  }

  lemma SleepNone(s: State)
    ensures SleepOf(s, []) == 0
  {
  }

  lemma NoSleep()
    ensures TotalSleep([]) == 0
  {
  }

  lemma SleepSnoc(s: State, trace: seq<Event>, w: nat, failures: (Faults, bool))
    requires (forall e | e in trace :: e.AttemptEv?) && (forall e | e in trace :: e.entry == w)
    ensures
      var e := Scheduled(w, failures);
      SleepOf(s, trace + [e]) == SleepOf(s, trace) + if w in RunFrom(s, trace + [e]).db.wal then Backoff(|trace|) else 0
  {
    hide RunFrom, Backoff, UniqueIds, References;
    var e := Scheduled(w, failures);
    assert (trace + [e])[..|trace|] == trace && (trace + [e])[|trace|] == e;
    AttemptsAtOne(trace, w, w);
  }

  /** Sleeps add up over a run that goes on with entries not tried before. */
  lemma {:induction false} SleepAppend(s: State, a: seq<Event>, b: seq<Event>, w: nat)
    requires (forall e | e in a :: e.AttemptEv?) && (forall e | e in b :: e.AttemptEv?)
    requires (forall e | e in a :: e.entry != w) && (forall e | e in b :: e.entry == w)
    ensures (forall e | e in a + b :: e.AttemptEv?) && SleepOf(s, a + b) == SleepOf(s, a) + SleepOf(RunFrom(s, a), b)
  {
    hide RunFrom, Backoff, UniqueIds, References;
    if b == [] {
      assert a + b == a;
    } else {
      var n := |b| - 1;
      assert b[n] in b;
      SleepAppend(s, a, b[..n], w);
      assert (a + b)[..|a + b| - 1] == a + b[..n];
      AttemptsAtAppend(a, b[..n], w);
      AttemptsAtOne(a, w, w);
      RunFromAppend(s, a, b);
    }
  }

  lemma TotalSleepSnoc(xs: seq<nat>, x: nat)
    ensures TotalSleep(xs + [x]) == TotalSleep(xs) + x
  {
    assert (xs + [x])[..|xs|] == xs;
  }

  lemma RunFromNone(s: State)
    ensures RunFrom(s, []) == s
  {
  }

  lemma {:induction false} DistinctCount(xs: seq<nat>, all: set<nat>)
    requires Distinct(xs) && forall x | x in xs :: x in all
    ensures |xs| <= |all|
  {
    if xs == [] {
    } else {
      var n := |xs| - 1;
      forall x | x in xs[..n] ensures x in all - {xs[n]} {}
      DistinctCount(xs[..n], all - {xs[n]});
    }
  }

  // ---- The uploader's flush

  /** One attempt at each entry, with the failures its number is scheduled for. */
  function Attempts(tried: seq<nat>, sched: Schedule): (trace: seq<Event>)
    ensures forall e | e in trace :: e.AttemptEv?
  {
    if tried == [] then []
    else
      var w := tried[|tried| - 1];
      Attempts(tried[..|tried| - 1], sched) + [Scheduled(w, sched(w))]
  }

  lemma AttemptsSnoc(tried: seq<nat>, w: nat, sched: Schedule)
    ensures Attempts(tried + [w], sched) == Attempts(tried, sched) + [Scheduled(w, sched(w))]
  {
    assert (tried + [w])[..|tried|] == tried;
  }

  /** Entries tried once each are gone or have one more failure; the others are as they were. */
  ghost predicate TriedOnce(s: State, s': State, tried: seq<nat>) {
    && (forall w | w in tried ::
          && w in s.db.wal
          && (w in s'.db.wal ==> s'.db.wal[w].attempts == s.db.wal[w].attempts + 1))
    && (forall w | w !in tried :: w in s'.db.wal <==> w in s.db.wal)
    && (forall w | w !in tried && w in s.db.wal :: s'.db.wal[w] == s.db.wal[w])
  }

  lemma TriedOnceMore(s: State, s': State, tried: seq<nat>, w: nat, failures: (Faults, bool))
    requires TriedOnce(s, s', tried) && Live(s, w) && w !in tried
    ensures TriedOnce(s, Step(s', Scheduled(w, failures)), tried + [w])
  {
    assert Live(s', w);
    AttemptCounts(s', w, failures.0, failures.1);
    hide Step, UniqueIds, References;
  }

  /**
   With healthy backends: the entries that could run are gone, and their tier is marked. What each entry is
   about, and whether it can run, stays.
   */
  ghost predicate RanAll(s: State, s': State, tried: seq<nat>) {
    && Inv(s) && Inv(s') && ReplayConfluence.SameTargets(s, s')
    && (forall q | q in s.db.rows :: s.db.rows[q].bitmask <= s'.db.rows[q].bitmask)
    && (forall w | w in tried ::
          w in s.db.wal && (ReplayConfluence.CanRun(s, w) ==> w !in s'.db.wal && MarkedFor(s, s', w)))
  }

  /** The row the entry was about is marked on the entry's tier. */
  predicate MarkedFor(s: State, s': State, w: nat)
    requires w in s.db.wal
  {
    var p := ReplayConfluence.Target(s, w);
    p in s'.db.rows && ReplayConfluence.TierOf(s.db.wal[w].op) in s'.db.rows[p].bitmask
  }

  lemma RanAllStep(s: State, s': State, s2: State, tried: seq<nat>, w: nat)
    requires RanAll(s, s', tried) && Inv(s2) && ReplayConfluence.SameTargets(s', s2) && w in s.db.wal
    requires forall q | q in s'.db.rows :: s'.db.rows[q].bitmask <= s2.db.rows[q].bitmask
    requires forall v | v in tried && v !in s'.db.wal :: v !in s2.db.wal
    requires ReplayConfluence.CanRun(s, w) ==> w !in s2.db.wal && MarkedFor(s, s2, w)
    ensures RanAll(s, s2, tried + [w])
  {
    hide Inv, UniqueIds, References, ReplayConfluence.CanRun, ReplayConfluence.Target;
    forall v | v in tried + [w]
      ensures v in s.db.wal && (ReplayConfluence.CanRun(s, v) ==> v !in s2.db.wal && MarkedFor(s, s2, v))
    {
      assert v == w || v in tried;
    }
  }

  lemma RanOneMore(s: State, s': State, tried: seq<nat>, w: nat)
    requires RanAll(s, s', tried) && TriedOnce(s, s', tried) && Live(s, w) && w !in tried
    ensures RanAll(s, Step(s', Scheduled(w, NO_FAILURES)), tried + [w])
  {
    hide Attempt, UniqueIds, References, Inv, ReplayConfluence.CanRun, ReplayConfluence.Target;
    assert Live(s', w) && s'.db.wal[w] == s.db.wal[w];
    ReplayConfluence.InvStarts(s);
    ReplayConfluence.InvStarts(s');
    ReplayConfluence.SameTarget(s, s', w);
    ReplayConfluence.CanRunStable(s, s', w);
    ReplayConfluence.AttemptMarks(s', w);
    AttemptRefines(s', w, HEALTHY, false);
    AttemptCounts(s', w, HEALTHY, false);
    RanAllStep(s, s', Attempt(s', w, HEALTHY, false), tried, w);
  }

  /** The entries a flush takes up: uploads that have attempts left. */
  predicate Flushable(wal: Wal, w: nat) {
    w in wal && wal[w].op == UploadS3 && wal[w].attempts < MAX_ATTEMPTS
  }

  lemma {:induction false} AttemptsOnce(s: State, tried: seq<nat>, sched: Schedule)
    requires Distinct(tried) && forall w | w in tried :: Live(s, w)
    ensures TriedOnce(s, RunFrom(s, Attempts(tried, sched)), tried)
    ensures Inv(s) && (forall w :: sched(w) == NO_FAILURES) ==> RanAll(s, RunFrom(s, Attempts(tried, sched)), tried)
  {
    hide TriedOnce, RanAll, Step, Inv, UniqueIds, References;
    if tried == [] {
      NoneTried(s);
    } else {
      var n := |tried| - 1;
      var w, before := tried[n], tried[..n];
      assert tried == before + [w];
      AttemptsOnce(s, before, sched);
      AttemptsSnoc(before, w, sched);
      RunFromSnoc(s, Attempts(before, sched), Scheduled(w, sched(w)));
      var s' := RunFrom(s, Attempts(before, sched));
      TriedOnceMore(s, s', before, w, sched(w));
      if Inv(s) && forall v :: sched(v) == NO_FAILURES {
        RanOneMore(s, s', before, w);
      }
    }
  }

  lemma NoneTried(s: State)
    ensures TriedOnce(s, s, []) && (Inv(s) ==> RanAll(s, s, []))
  {
  }

  /**
   One pass over the uploads that had attempts left: each is tried exactly once and is then gone or has
   exactly one more attempt, and nothing else in the WAL changes. With healthy backends and bitmasks that
   tell the truth, every upload of a file is done: no entry, the bit set, S3 current.
   */
  method FlushPending(router: TierRouter, sched: Schedule, now: int) returns (ghost tried: seq<nat>)
    requires router.Valid()
    modifies router, router.meta
    ensures router.Valid() && Distinct(tried)
    ensures forall w :: w in tried <==> Flushable(old(router.meta.wal), w)
    ensures router.View(now) == RunFrom(old(router.View(now)), Attempts(tried, sched))
    ensures forall w | w in old(router.meta.wal) ::
              if Flushable(old(router.meta.wal), w) then
                w !in router.meta.wal || router.meta.wal[w].attempts == old(router.meta.wal[w].attempts) + 1
              else w in router.meta.wal && router.meta.wal[w] == old(router.meta.wal[w])
    ensures forall w | w in router.meta.wal :: w in old(router.meta.wal)
    ensures Inv(old(router.View(now))) && (forall w :: sched(w) == NO_FAILURES) ==>
              forall w, p | Flushable(old(router.meta.wal), w) && Uploads(old(router.View(now)), w, p) ::
                w !in router.meta.wal && CurrentOnS3(old(router.View(now)), router.View(now), p)
  {
    hide Step, RunFrom, Inv, TriedOnce, RanAll, UniqueIds, References, CurrentOnS3, Uploads;
    ghost var start := router.View(now);
    RunFromNone(start);
    var entries := router.meta.WalPending();
    tried := [];
    NoneTried(start);
    var i := 0;
    while i < |entries|
      invariant 0 <= i <= |entries|
      invariant router.Valid() && router.View(now) == RunFrom(start, Attempts(tried, sched))
      invariant Distinct(tried) && forall w :: w in tried <==> w in entries[..i] && Flushable(start.db.wal, w)
      invariant TriedOnce(start, router.View(now), tried)
    {
      var w := entries[i];
      assert entries[..i + 1] == entries[..i] + [w];
      assert w !in tried;
      Untried(start, router.View(now), tried, w);
      if router.meta.wal[w].op == UploadS3 && router.meta.wal[w].attempts < MAX_ATTEMPTS {
        var (f, putFails) := sched(w);
        AttemptsSnoc(tried, w, sched);
        RunFromSnoc(start, Attempts(tried, sched), Scheduled(w, sched(w)));
        TriedOnceMore(start, router.View(now), tried, w, sched(w));
        var _ := TryEntry(router, w, f, putFails, now);
        tried := tried + [w];
      }
      i := i + 1;
    }
    assert entries[..|entries|] == entries;
    FlushedOnce(start, router.View(now), tried);
    if Inv(start) && forall w :: sched(w) == NO_FAILURES {
      FlushedUploads(start, tried, sched);
    }
  }

  /** With no failures, every upload of a file that was tried is done. */
  lemma FlushedUploads(s: State, tried: seq<nat>, sched: Schedule)
    requires Inv(s) && (forall w :: sched(w) == NO_FAILURES)
    requires Distinct(tried) && forall w :: w in tried <==> Flushable(s.db.wal, w)
    ensures
      var s' := RunFrom(s, Attempts(tried, sched));
      forall w, p | Flushable(s.db.wal, w) && Uploads(s, w, p) :: w !in s'.db.wal && CurrentOnS3(s, s', p)
  {
    hide RunFrom, Attempts, Inv, RanAll, UniqueIds, References, CurrentOnS3, Uploads;
    AttemptsOnce(s, tried, sched);
    var s' := RunFrom(s, Attempts(tried, sched));
    forall w, p | Flushable(s.db.wal, w) && Uploads(s, w, p) ensures w !in s'.db.wal && CurrentOnS3(s, s', p) {
      FlushedUpload(s, s', tried, w, p);
    }
  }

  /** The entry is about the file at `p`. */
  predicate Uploads(s: State, w: nat, p: FvfsPath) {
    w in s.db.wal && IsFile(s, p) && s.db.rows[p].id == s.db.wal[w].fileId
  }

  /** The file as it was is on S3, and its row says so. */
  predicate CurrentOnS3(s: State, s': State, p: FvfsPath) {
    && p in s.db.rows && p in s'.db.rows && S3 in s'.db.rows[p].bitmask
    && Holds(s'.s3, p, Content(s'.db.rows[p])) && Content(s'.db.rows[p]) == Content(s.db.rows[p])
  }

  lemma Untried(s: State, s': State, tried: seq<nat>, w: nat)
    requires TriedOnce(s, s', tried) && w in s.db.wal && w !in tried
    ensures w in s'.db.wal && s'.db.wal[w] == s.db.wal[w]
  {
  }

  lemma FlushedOnce(s: State, s': State, tried: seq<nat>)
    requires TriedOnce(s, s', tried) && forall w :: w in tried <==> Flushable(s.db.wal, w)
    ensures forall w | w in s.db.wal ::
              if Flushable(s.db.wal, w) then w !in s'.db.wal || s'.db.wal[w].attempts == s.db.wal[w].attempts + 1
              else w in s'.db.wal && s'.db.wal[w] == s.db.wal[w]
    ensures forall w | w in s'.db.wal :: w in s.db.wal
  {
  }

  lemma FlushedUpload(s: State, s': State, tried: seq<nat>, w: nat, p: FvfsPath)
    requires RanAll(s, s', tried) && w in tried && Flushable(s.db.wal, w) && Uploads(s, w, p)
    ensures w !in s'.db.wal && CurrentOnS3(s, s', p)
  {
    assert ReplayConfluence.Target(s, w) == p;
    ReplayConfluence.InvStarts(s);
    assert FileOk(s', p);
    hide UniqueIds, References, ReplayConfluence.Readable;
  }

  // ---- The promotion task

  method ServeSignal(router: TierRouter, f: Faults, putFails: bool, now: int)
    requires router.Valid() && router.queue != []
    modifies router, router.meta
    ensures router.Valid() && router.View(now) == Promote(old(router.View(now)), f, putFails)
  {
    var p := router.queue[0];
    router.queue := router.queue[1..];
    var data := router.Read(p, f, now);
    if data.Err? || putFails {
      return;
    }
    router.local := router.local[p := data.value];
    var row := router.meta.Get(p);
    if row.Some? {
      router.meta.SetTierBitmask(row.value.id, row.value.bitmask + {Local});
    }
  }

  /** Serving signals until none is left: it ends, and the plain map is untouched. */
  method DrainQueue(router: TierRouter, now: int) returns (steps: nat)
    requires router.Valid() && Inv(router.View(now))
    modifies router, router.meta
    ensures router.Valid() && Inv(router.View(now)) && router.queue == []
    ensures router.View(now) == Promoted(old(router.View(now)), steps)
    ensures steps <= 2 * |old(router.queue)|
    ensures Abs(router.meta.rows) == old(Abs(router.meta.rows))
  {
    steps := 0;
    ghost var start := router.View(now);
    MeasureAtMostTwice(start);
    while router.queue != []
      invariant router.Valid() && Inv(router.View(now))
      invariant router.View(now) == Promoted(start, steps)
      invariant steps + Measure(router.View(now)) <= Measure(start)
      invariant Abs(router.meta.rows) == Abs(start.db.rows)
      decreases Measure(router.View(now))
    {
      ghost var mid := router.View(now);
      PromoteDecreases(mid);
      PromoteRefines(mid, HEALTHY, false);
      PromotedSnoc(start, steps);
      ServeSignal(router, HEALTHY, false, now);
      steps := steps + 1;
    }
  }

  lemma {:induction false} PromotedSnoc(s: State, n: nat)
    ensures Promoted(s, n + 1) == Promote(Promoted(s, n), HEALTHY, false)
    decreases n
  {
    if n > 0 { PromotedSnoc(Promote(s, HEALTHY, false), n - 1); }
  }
}
