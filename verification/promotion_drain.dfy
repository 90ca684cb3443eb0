/**
 The promotion queue drains although a promotion's own read may queue the same file again: with
 healthy backends it is empty after at most twice its length in steps.
 */
module PromotionDrain {
  import opened Paths
  import opened Tiers
  import opened Store
  import opened Protocol
  import opened SerialRuns

  /** A read of the file would be served from the local disk. */
  predicate LocalReadable(s: State, p: FvfsPath) {
    p in s.db.rows && s.db.rows[p].kind.File? && Local in s.db.rows[p].bitmask && p in s.local
  }

  /** Queued paths whose next read goes to a colder tier. */
  function Unready(s: State): set<FvfsPath> {
    set p | p in s.queue && !LocalReadable(s, p)
  }

  function Measure(s: State): nat {
    |s.queue| + |Unready(s)|
  }

  function Promoted(s: State, n: nat): State
    decreases n
  {
    if n == 0 then s else Promoted(Promote(s, HEALTHY, false), n - 1)
  }

  lemma SubsetSize<T>(a: set<T>, b: set<T>)
    requires a <= b
    ensures |a| <= |b|
  {
    if a != b {
      assert b == a + (b - a);
    }
  }

  lemma {:induction false} ElementsSize<T>(xs: seq<T>)
    ensures |set x | x in xs| <= |xs|
  {
    if xs == [] {
    } else {
      var n := |xs| - 1;
      ElementsSize(xs[..n]);
      assert (set x | x in xs) == (set x | x in xs[..n]) + {xs[n]};
    }
  }

  lemma MeasureAtMostTwice(s: State)
    ensures Measure(s) <= 2 * |s.queue|
  {
    ElementsSize(s.queue);
    SubsetSize(Unready(s), set p | p in s.queue);
  }

  /** Rows keep their kind, and what local could serve it still can. */
  ghost predicate ServesMore(s: State, s': State) {
    && (forall q | IsFile(s, q) :: IsFile(s', q))
    && (forall q | LocalReadable(s, q) :: LocalReadable(s', q))
  }

  lemma PutLocalServes(s: State, p: FvfsPath, d: Bytes)
    requires IsFile(s, p)
    ensures
      var s' := PutLocal(s, p, d);
      ServesMore(s, s') && LocalReadable(s', p) && s'.queue == s.queue
  {
    SetBitmaskOne(s.db, p, s.db.rows[p].bitmask + {Local});
  }

  lemma HealthyReadQueues(s: State, p: FvfsPath)
    requires Inv(s)
    ensures
      var (s', r) := Read(s, p, HEALTHY);
      && r.Ok? == IsFile(s, p) && ServesMore(s, s')
      && s'.queue == s.queue + if IsFile(s, p) && !LocalReadable(s, p) then [p] else []
  {
    ReadKeeps(s, p, HEALTHY);
    ReadCurrent(s, p, HEALTHY);
    assert s.queue + [] == s.queue;
    if IsFile(s, p) { assert FileOk(s, p); }
  }

  /** What serving one signal does to the queue and to local readability. */
  lemma PromoteEffect(s: State)
    requires Inv(s) && s.queue != []
    ensures
      var s', p := Promote(s, HEALTHY, false), s.queue[0];
      && ServesMore(s, s')
      && (IsFile(s, p) ==> LocalReadable(s', p))
      && s'.queue == s.queue[1..] + if IsFile(s, p) && !LocalReadable(s, p) then [p] else []
  {
    hide Inv, Read, PutLocal, UniqueIds, References;
    var p, s0 := s.queue[0], s.(queue := s.queue[1..]);
    InvSameRows(s, s0);
    HealthyReadQueues(s0, p);
    var (s1, r) := Read(s0, p, HEALTHY);
    if r.Ok? { PutLocalServes(s1, p, r.value); }
  }

  lemma PromoteDecreases(s: State)
    requires Inv(s) && s.queue != []
    ensures Measure(Promote(s, HEALTHY, false)) < Measure(s)
  {
    var s', p := Promote(s, HEALTHY, false), s.queue[0];
    PromoteEffect(s);
    ServedMoreUnready(s, s');
    if IsFile(s, p) && !LocalReadable(s, p) {
      SubsetSize(Unready(s'), Unready(s) - {p});
    } else {
      SubsetSize(Unready(s'), Unready(s));
    }
  }

  lemma ServedMoreUnready(s: State, s': State)
    requires s.queue != [] && ServesMore(s, s')
    requires s'.queue == s.queue[1..] || s'.queue == s.queue[1..] + [s.queue[0]]
    ensures Unready(s') <= Unready(s)
  {
    assert s.queue == [s.queue[0]] + s.queue[1..];
  }

  lemma {:induction false} DrainsWithin(s: State, n: nat, p: FvfsPath)
    requires Inv(s) && Measure(s) <= n
    ensures Promoted(s, n).queue == []
    ensures LocalReadable(s, p) ==> LocalReadable(Promoted(s, n), p)
    ensures p in s.queue && IsFile(s, p) ==> LocalReadable(Promoted(s, n), p)
    decreases n
  {
    hide Inv, Read, PutLocal, UniqueIds, References;
    if n > 0 {
      var s' := Promote(s, HEALTHY, false);
      if s.queue == [] {
        assert Unready(s) == {};
        DrainsWithin(s, n - 1, p);
      } else {
        PromoteDecreases(s);
        PromoteRefines(s, HEALTHY, false);
        PromoteEffect(s);
        DrainsWithin(s', n - 1, p);
      }
    }
  }

  /** After any serialised run: twice the queue's length in steps empties it, with every queued file on local disk. */
  lemma QueueDrains(es: seq<Event>, p: FvfsPath)
    ensures
      var s := Run(es);
      var s' := Promoted(s, 2 * |s.queue|);
      && s'.queue == []
      && (p in s.queue && IsFile(s, p) ==> LocalReadable(s', p))
  {
    RunInvariant(es);
    MeasureAtMostTwice(Run(es));
    DrainsWithin(Run(es), 2 * |Run(es).queue|, p);
  }
}
