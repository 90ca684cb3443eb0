/**
 Watermark eviction (fvfsd/src/eviction_task.rs) with the score of fvfs-core/src/eviction.rs: which
 files a cycle evicts, and exact accounting of the bytes it frees.
 */
module Eviction {
  import opened Collections
  import opened Paths
  import opened Tiers
  import opened Store
  import opened Protocol
  import opened SerialRuns
  import opened Router

  // ---- Bytes on a tier: a sum over the table

  function OnTier(rows: Rows, t: Tier): set<FvfsPath> {
    set p | p in rows && rows[p].kind.File? && t in rows[p].bitmask
  }

  ghost function SizeIn(rows: Rows): FvfsPath -> nat {
    (p: FvfsPath) => if p in rows then rows[p].size else 0
  }

  /** The size of all files on the tier, as the table records them. */
  ghost function BytesOn(rows: Rows, t: Tier): nat {
    Sum(OnTier(rows, t), SizeIn(rows))
  }

  /** Clearing one file's bit takes exactly its size off the tier. */
  lemma ClearLowersBytes(rows: Rows, p: FvfsPath, t: Tier)
    requires p in OnTier(rows, t)
    ensures
      var rows' := rows[p := rows[p].(bitmask := rows[p].bitmask - {t})];
      && OnTier(rows', t) == OnTier(rows, t) - {p}
      && BytesOn(rows', t) + rows[p].size == BytesOn(rows, t)
  {
    var rows' := rows[p := rows[p].(bitmask := rows[p].bitmask - {t})];
    assert OnTier(rows', t) == OnTier(rows, t) - {p};
    SumRemove(OnTier(rows, t), SizeIn(rows), p);
    SumSame(OnTier(rows', t), SizeIn(rows), SizeIn(rows'));
  }

  method BytesOnTier(meta: MetadataStore, t: Tier) returns (bytes: nat)
    ensures bytes == BytesOn(meta.rows, t)
  {
    bytes := 0;
    var todo := OnTier(meta.rows, t);
    while todo != {}
      invariant todo <= OnTier(meta.rows, t)
      invariant bytes + Sum(todo, SizeIn(meta.rows)) == BytesOn(meta.rows, t)
      decreases |todo|
    {
      var p :| p in todo;
      SumRemove(todo, SizeIn(meta.rows), p);
      bytes, todo := bytes + meta.rows[p].size, todo - {p};
    }
  }

  // ---- Ranking

  /** A row with its path, as `files_on_tier` returns it. */
  datatype FileMeta = FileMeta(path: FvfsPath, row: Row)

  datatype Policy = Policy(recencyWeight: real, frequencyWeight: real)

  function Score(policy: Policy, r: Row, now: int): real {
    policy.recencyWeight / Since(r, now) as real + policy.frequencyWeight * r.accessCount as real
  }

  /** Seconds since the last access, at least one. */
  function Since(r: Row, now: int): (since: int)
    ensures since >= 1
  {
    if now - r.accessedAt > 1 then now - r.accessedAt else 1
  }

  type Key = FileMeta -> real

  function Age(x: FileMeta): real {
    x.row.accessedAt as real
  }

  /** `xs` lists the files of the tier, each once, with their rows. */
  ghost predicate Lists(xs: seq<FileMeta>, rows: Rows, ps: set<FvfsPath>) {
    && (forall x | x in xs :: x.path in ps && x.path in rows && x.row == rows[x.path])
    && (forall p | p in ps :: p in rows && FileMeta(p, rows[p]) in xs)
    && Distinct(xs)
  }

  lemma ListsNone(rows: Rows)
    ensures Lists([], rows, {})
  {
  }

  lemma ListsOneMore(xs: seq<FileMeta>, rows: Rows, ps: set<FvfsPath>, p: FvfsPath)
    requires Lists(xs, rows, ps) && p in rows && p !in ps
    ensures Lists(xs + [FileMeta(p, rows[p])], rows, ps + {p})
  {
    assert FileMeta(p, rows[p]) !in xs;
  }

  lemma ListsPermuted(xs: seq<FileMeta>, ys: seq<FileMeta>, rows: Rows, ps: set<FvfsPath>)
    requires Lists(xs, rows, ps) && multiset(ys) == multiset(xs)
    ensures Lists(ys, rows, ps)
  {
    PermutedDistinct(xs, ys);
  }

  lemma SortedByAge(xs: seq<FileMeta>)
    ensures var ys := SortBy(xs, Age); forall i, j | 0 <= i < j < |ys| :: Age(ys[i]) <= Age(ys[j])
  {
    hide SortBy;
    SortOrders(xs, Age);
    var ys := SortBy(xs, Age);
    forall i, j | 0 <= i < j < |ys| ensures Age(ys[i]) <= Age(ys[j]) {
      assert Before(ys[i], ys[j], Age, Age);
    }
  }

  /** `files_on_tier`: the files of the tier, least recently accessed first. */
  method FilesOnTier(meta: MetadataStore, t: Tier) returns (files: seq<FileMeta>)
    ensures Lists(files, meta.rows, OnTier(meta.rows, t))
    ensures forall p :: p in OnTier(meta.rows, t) <==>
                        p in meta.rows && meta.rows[p].kind.File? && t in meta.rows[p].bitmask
    ensures forall i, j | 0 <= i < j < |files| :: Age(files[i]) <= Age(files[j])
  {
    hide UniqueIds, References;
    var rows := meta.rows;
    var all: seq<FileMeta> := [];
    var todo := OnTier(rows, t);
    hide Lists, Distinct, SortBy;
    assert OnTier(rows, t) - todo == {};
    ListsNone(rows);
    while todo != {}
      invariant todo <= OnTier(rows, t)
      invariant Lists(all, rows, OnTier(rows, t) - todo)
      decreases |todo|
    {
      var p :| p in todo;
      ListsOneMore(all, rows, OnTier(rows, t) - todo, p);
      assert OnTier(rows, t) - (todo - {p}) == OnTier(rows, t) - todo + {p};
      all, todo := all + [FileMeta(p, rows[p])], todo - {p};
    }
    assert OnTier(rows, t) - todo == OnTier(rows, t);
    files := Sort(all, Age);
    ListsPermuted(all, files, rows, OnTier(rows, t));
    SortedByAge(all);
  }

  // ---- Access order and score order

  /** The access counts of the files never fall along the list. */
  ghost predicate CountsRise(files: seq<FileMeta>) {
    forall i, j | 0 <= i < j < |files| :: files[i].row.accessCount <= files[j].row.accessCount
  }

  ghost predicate ScoresRise(files: seq<FileMeta>, policy: Policy, now: int) {
    forall i, j | 0 <= i < j < |files| :: Score(policy, files[i].row, now) <= Score(policy, files[j].row, now)
  }

  lemma OlderScoresLess(a: Row, b: Row, policy: Policy, now: int)
    requires a.accessedAt <= b.accessedAt && a.accessCount <= b.accessCount
    requires policy.recencyWeight >= 0.0 && policy.frequencyWeight >= 0.0
    ensures Score(policy, a, now) <= Score(policy, b, now)
  {
    var w, f, sa, sb := policy.recencyWeight, policy.frequencyWeight, Since(a, now) as real, Since(b, now) as real;
    var ca, cb := a.accessCount as real, b.accessCount as real;
    assert Score(policy, a, now) == w / sa + f * ca;
    assert Score(policy, b, now) == w / sb + f * cb;
    QuotientFalls(w, sa, sb);
    ProductRises(f, ca, cb);
  }

  lemma QuotientFalls(w: real, a: real, b: real)
    requires w >= 0.0 && a >= b >= 1.0
    ensures w / a <= w / b
  {
    ProductRises(w / a, b, a);
    assert (w / a) * b <= w;
    assert w / b - w / a >= 0.0 by {
      assert (w / b - w / a) * b == w - (w / a) * b;
      if w / b - w / a < 0.0 { ProductRises(b, w / b - w / a, 0.0); }
    }
  }

  lemma ProductRises(w: real, a: real, b: real)
    requires w >= 0.0 && a <= b
    ensures w * a <= w * b
  {
  }

  /**
   `files_on_tier` is documented as ordered by score; it is ordered by access time. The two agree under every
   policy with weights that are not negative exactly when access counts never fall along the list.
   */
  lemma AccessOrderIsScoreOrder(files: seq<FileMeta>, now: int)
    requires forall i, j | 0 <= i < j < |files| :: Age(files[i]) <= Age(files[j])
    ensures (forall policy: Policy | policy.recencyWeight >= 0.0 && policy.frequencyWeight >= 0.0 ::
               ScoresRise(files, policy, now)) <==> CountsRise(files)
  {
    if CountsRise(files) {
      forall policy: Policy, i, j | policy.recencyWeight >= 0.0 && policy.frequencyWeight >= 0.0 && 0 <= i < j < |files|
        ensures Score(policy, files[i].row, now) <= Score(policy, files[j].row, now)
      {
        assert Age(files[i]) <= Age(files[j]);
        OlderScoresLess(files[i].row, files[j].row, policy, now);
      }
    }
    var counting := Policy(0.0, 1.0);
    if ScoresRise(files, counting, now) {
      forall i, j | 0 <= i < j < |files| ensures files[i].row.accessCount <= files[j].row.accessCount {
        CountingScore(files[i].row, now);
        CountingScore(files[j].row, now);
      }
    }
  }

  lemma CountingScore(r: Row, now: int)
    ensures Score(Policy(0.0, 1.0), r, now) == r.accessCount as real
  {
  }

  /** On recency alone a file scores one over the seconds since its last access, counted as at least one. */
  lemma RecencyScore(r: Row, now: int)
    ensures Score(Policy(1.0, 0.0), r, now) ==
            if now - r.accessedAt > 1 then 1.0 / (now - r.accessedAt) as real else 1.0
  {
  }

  /** A score is the weighted sum of the two, so these lemmas give every score. */
  lemma ScoreIsWeightedSum(policy: Policy, r: Row, now: int)
    ensures Score(policy, r, now) ==
            policy.recencyWeight * Score(Policy(1.0, 0.0), r, now) +
            policy.frequencyWeight * Score(Policy(0.0, 1.0), r, now)
  {
    CountingScore(r, now);
    var w, since := policy.recencyWeight, Since(r, now) as real;
    assert w / since == w * (1.0 / since) by { assert (w * (1.0 / since)) * since == w; }
  }

  lemma QuotientStrict(w: real, a: real, b: real)
    requires w > 0.0 && a > b >= 1.0
    ensures w / a < w / b
  {
    var qa, qb := w / a, w / b;
    assert qa * a == w && qb * b == w;
    assert qa > 0.0;
    assert qa * (a - b) > 0.0;
    assert (qb - qa) * b == qa * (a - b);
  }

  /**
   Between files counted equally often the one accessed later scores strictly higher, exactly when the other's
   last access is more than a second ago.
   */
  lemma LaterAccessWins(a: Row, b: Row, policy: Policy, now: int)
    requires a.accessCount == b.accessCount && policy.recencyWeight > 0.0
    ensures Score(policy, a, now) < Score(policy, b, now) <==> a.accessedAt < b.accessedAt && now - a.accessedAt > 1
  {
    var w, sa, sb := policy.recencyWeight, Since(a, now) as real, Since(b, now) as real;
    if sa > sb {
      QuotientStrict(w, sa, sb);
    } else {
      QuotientFalls(w, sb, sa);
    }
  }

  /** Between files accessed at the same time the one counted more often scores strictly higher. */
  lemma MoreAccessesWin(a: Row, b: Row, policy: Policy, now: int)
    requires a.accessedAt == b.accessedAt && policy.frequencyWeight > 0.0
    ensures Score(policy, a, now) < Score(policy, b, now) <==> a.accessCount < b.accessCount
  {
    var f, ca, cb := policy.frequencyWeight, a.accessCount as real, b.accessCount as real;
    if a.accessCount < b.accessCount {
      assert f * (cb - ca) > 0.0;
    } else {
      ProductRises(f, cb, ca);
    }
  }

  /**
   In a ranking by score no file comes before one that was accessed no later and counted no more often, unless
   they agree in both, or only the count differs and frequency has no weight.
   */
  lemma RankedColderFirst(files: seq<FileMeta>, policy: Policy, now: int, i: nat, j: nat)
    requires Ranked(files, (x: FileMeta) => Score(policy, x.row, now), Age) && i < j < |files|
    requires policy.recencyWeight >= 0.0 && policy.frequencyWeight >= 0.0
    requires files[j].row.accessedAt <= files[i].row.accessedAt && files[j].row.accessCount <= files[i].row.accessCount
    ensures files[j].row.accessedAt == files[i].row.accessedAt
    ensures policy.frequencyWeight > 0.0 ==> files[j].row.accessCount == files[i].row.accessCount
  {
    hide Score;
    assert Before(files[i], files[j], (x: FileMeta) => Score(policy, x.row, now), Age);
    OlderScoresLess(files[j].row, files[i].row, policy, now);
    if policy.frequencyWeight > 0.0 && files[j].row.accessedAt == files[i].row.accessedAt {
      MoreAccessesWin(files[j].row, files[i].row, policy, now);
    }
  }

  const DEFAULT_POLICY := Policy(0.7, 0.3)

  /** With the default weights, a file just read once is kept before one read twice a quarter of an hour ago. */
  lemma RecencyDecides()
    ensures Score(DEFAULT_POLICY, Row(1, File, 0, Sha256([]), {Local}, 0, 2), 1000) <
            Score(DEFAULT_POLICY, Row(2, File, 0, Sha256([]), {Local}, 999, 1), 1000)
  {
  }

  /** With the default weights, a file read ten times and then left alone outscores one read once, later. */
  lemma AccessOrderDiffers(p: FvfsPath, q: FvfsPath)
    ensures
      var often := FileMeta(p, Row(1, File, 0, Sha256([]), {Local}, 0, 10));
      var lately := FileMeta(q, Row(2, File, 0, Sha256([]), {Local}, 10, 1));
      Age(often) <= Age(lately) && !ScoresRise([often, lately], DEFAULT_POLICY, 20)
  {
    var often := FileMeta(p, Row(1, File, 0, Sha256([]), {Local}, 0, 10));
    var lately := FileMeta(q, Row(2, File, 0, Sha256([]), {Local}, 10, 1));
    assert Score(DEFAULT_POLICY, often.row, 20) > Score(DEFAULT_POLICY, lately.row, 20);
    assert [often, lately][0] == often && [often, lately][1] == lately;
  }

  // ---- The cycle

  function Safe(xs: seq<FileMeta>, t: Tier): seq<FileMeta> {
    if xs == [] then []
    else Safe(xs[..|xs| - 1], t) +
         if SafeToEvictFrom(xs[|xs| - 1].row.bitmask, t) then [xs[|xs| - 1]] else []
  }

  function Total(xs: seq<FileMeta>): nat {
    if xs == [] then 0 else Total(xs[..|xs| - 1]) + xs[|xs| - 1].row.size
  }

  function TargetFree(used: nat, low: nat): nat {
    if used > low then used - low else 0
  }

  /** What a pass over ranked files leaves: the state, the files evicted and those whose eviction failed. */
  datatype Outcome = Outcome(state: State, evicted: seq<FileMeta>, failed: seq<FileMeta>)

  /** The loop of the cycle: files in order, those without a copy on S3 skipped, until enough is freed. */
  function EvictList(s: State, files: seq<FileMeta>, t: Tier, target: nat, fails: FvfsPath -> bool): (r: Outcome)
  {
    if files == [] then Outcome(s, [], [])
    else
      var x := files[|files| - 1];
      EvictNext(EvictList(s, files[..|files| - 1], t, target, fails), x, t, target, fails(x.path))
  }

  function EvictNext(r: Outcome, x: FileMeta, t: Tier, target: nat, fails: bool): Outcome {
    if Total(r.evicted) >= target || !SafeToEvictFrom(x.row.bitmask, t) then r
    else
      var (s', result) := Evict(r.state, x.path, t, fails);
      if result.Ok? then Outcome(s', r.evicted + [x], r.failed) else r.(failed := r.failed + [x])
  }

  lemma EvictListSnoc(s: State, files: seq<FileMeta>, x: FileMeta, t: Tier, target: nat, fails: FvfsPath -> bool)
    ensures EvictList(s, files + [x], t, target, fails) ==
            EvictNext(EvictList(s, files, t, target, fails), x, t, target, fails(x.path))
  {
    assert (files + [x])[..|files|] == files;
  }

  lemma EvictListNone(s: State, t: Tier, target: nat, fails: FvfsPath -> bool)
    ensures EvictList(s, [], t, target, fails) == Outcome(s, [], []) && Total([]) == 0
  {
  }

  lemma {:induction false} EvictListStops(s: State, files: seq<FileMeta>, i: nat, t: Tier, target: nat,
                                          fails: FvfsPath -> bool)
    requires i <= |files| && Total(EvictList(s, files[..i], t, target, fails).evicted) >= target
    ensures EvictList(s, files, t, target, fails) == EvictList(s, files[..i], t, target, fails)
  {
    hide EvictList, Evict, Total, SafeToEvictFrom, UniqueIds, References;
    if i == |files| {
      assert files[..i] == files;
    } else {
      var n := |files| - 1;
      assert files[..n][..i] == files[..i] && files == files[..n] + [files[n]];
      EvictListSnoc(s, files[..n], files[n], t, target, fails);
      EvictListStops(s, files[..n], i, t, target, fails);
    }
  }

  lemma EvictErrKeeps(s: State, p: FvfsPath, t: Tier, fails: bool)
    ensures Evict(s, p, t, fails).1.Err? ==> Evict(s, p, t, fails).0 == s
  {
  }

  lemma TotalSnoc(xs: seq<FileMeta>, x: FileMeta)
    ensures Total(xs + [x]) == Total(xs) + x.row.size
  {
    assert (xs + [x])[..|xs|] == xs;
  }

  /** The same loop on the router, leaving early once enough is freed. */
  method EvictUntil(router: TierRouter, t: Tier, sorted: seq<FileMeta>, target: nat,
                    fails: FvfsPath -> bool, ghost now: int)
    returns (freed: nat)
    requires router.Valid()
    modifies router, router.meta
    ensures router.Valid()
    ensures
      var r := EvictList(old(router.View(now)), sorted, t, target, fails);
      router.View(now) == r.state && freed == Total(r.evicted)
  {
    hide Evict, SafeToEvictFrom, EvictList, Total, UniqueIds, References;
    freed := 0;
    ghost var start := router.View(now);
    ghost var r := Outcome(start, [], []);
    EvictListNone(start, t, target, fails);
    var i := 0;
    while i < |sorted| && freed < target
      invariant 0 <= i <= |sorted| && router.Valid()
      invariant r == EvictList(start, sorted[..i], t, target, fails)
      invariant router.View(now) == r.state && freed == Total(r.evicted)
    {
      var file := sorted[i];
      assert sorted[..i + 1] == sorted[..i] + [file];
      EvictListSnoc(start, sorted[..i], file, t, target, fails);
      if SafeToEvictFrom(file.row.bitmask, t) {
        var result := router.EvictFromTier(file.path, t, fails(file.path), now);
        EvictErrKeeps(r.state, file.path, t, fails(file.path));
        TotalSnoc(r.evicted, file);
        if result.Ok? {
          freed := freed + file.row.size;
        }
      }
      r := EvictNext(r, file, t, target, fails(file.path));
      i := i + 1;
    }
    assert sorted[..|sorted|] == sorted;
    if freed >= target {
      EvictListStops(start, sorted, i, t, target, fails);
    }
  }

  // ---- What the loop leaves, for all failures

  /** The table once the tier's bit is cleared for each of `ps`. */
  function Cleared(rows: Rows, ps: set<FvfsPath>, t: Tier): Rows {
    map p | p in rows :: if p in ps then rows[p].(bitmask := rows[p].bitmask - {t}) else rows[p]
  }

  function PathsOf(xs: seq<FileMeta>): set<FvfsPath> {
    set x | x in xs :: x.path
  }

  /** `files` are rows of the tier, no path twice. */
  ghost predicate Listed(files: seq<FileMeta>, rows: Rows, t: Tier) {
    && (forall x | x in files :: x.path in OnTier(rows, t) && x.row == rows[x.path])
    && (forall i, j | 0 <= i < j < |files| :: files[i].path != files[j].path)
  }

  lemma ListedPrefix(files: seq<FileMeta>, x: FileMeta, rows: Rows, t: Tier)
    requires Listed(files + [x], rows, t)
    ensures Listed(files, rows, t)
  {
    forall i, j | 0 <= i < j < |files| ensures files[i].path != files[j].path {
      assert (files + [x])[i] == files[i] && (files + [x])[j] == files[j];
    }
    assert forall y | y in files :: y in files + [x];
  }

  lemma ListsListed(files: seq<FileMeta>, rows: Rows, t: Tier)
    requires Lists(files, rows, OnTier(rows, t))
    ensures Listed(files, rows, t)
  {
    forall i, j | 0 <= i < j < |files| ensures files[i].path != files[j].path {
      assert files[i] in files && files[j] in files;
    }
  }

  /** The files chosen come from the list, and the table changes exactly in their bits. */
  ghost predicate Settled(s: State, files: seq<FileMeta>, t: Tier, r: Outcome) {
    && (forall x | x in r.evicted :: x in files)
    && r.state.db.rows == Cleared(s.db.rows, PathsOf(r.evicted), t)
    && OnTier(r.state.db.rows, t) == OnTier(s.db.rows, t) - PathsOf(r.evicted)
    && BytesOn(r.state.db.rows, t) + Total(r.evicted) == BytesOn(s.db.rows, t)
  }

  lemma EvictClearsOne(r: Outcome, x: FileMeta, t: Tier, fails: bool)
    requires x.path in OnTier(r.state.db.rows, t) && r.state.db.rows[x.path] == x.row
    ensures
      var (s', result) := Evict(r.state, x.path, t, fails);
      if result.Ok? then
        && s'.db.rows == r.state.db.rows[x.path := x.row.(bitmask := x.row.bitmask - {t})]
        && OnTier(s'.db.rows, t) == OnTier(r.state.db.rows, t) - {x.path}
        && BytesOn(s'.db.rows, t) + x.row.size == BytesOn(r.state.db.rows, t)
      else s' == r.state
  {
    SetBitmaskOne(r.state.db, x.path, x.row.bitmask - {t});
    ClearLowersBytes(r.state.db.rows, x.path, t);
  }

  lemma ClearedOneMore(rows: Rows, ps: set<FvfsPath>, p: FvfsPath, t: Tier)
    requires p in rows && p !in ps
    ensures Cleared(rows, ps, t)[p := rows[p].(bitmask := rows[p].bitmask - {t})] == Cleared(rows, ps + {p}, t)
  {
  }

  /** The next file's row is still the one listed. */
  lemma NextUntouched(s: State, files: seq<FileMeta>, t: Tier, r: Outcome, x: FileMeta)
    requires Listed(files + [x], s.db.rows, t) && Settled(s, files, t, r)
    ensures x.path in s.db.rows && x.path !in PathsOf(r.evicted) && x.row == s.db.rows[x.path]
    ensures x.path in OnTier(r.state.db.rows, t) && r.state.db.rows[x.path] == x.row
  {
    assert (files + [x])[|files|] == x;
    forall y | y in r.evicted ensures y.path != x.path {
      var i :| 0 <= i < |files| && files[i] == y;
      assert (files + [x])[i] == y;
    }
  }

  lemma SettledNext(s: State, files: seq<FileMeta>, t: Tier, r: Outcome, x: FileMeta, target: nat, fails: bool)
    requires Listed(files + [x], s.db.rows, t) && Settled(s, files, t, r)
    ensures Settled(s, files + [x], t, EvictNext(r, x, t, target, fails))
  {
    hide Evict, BytesOn, OnTier, Cleared, Listed, Schema, UniqueIds, References, SafeToEvictFrom, Total;
    NextUntouched(s, files, t, r, x);
    EvictClearsOne(r, x, t, fails);
    var r' := EvictNext(r, x, t, target, fails);
    if r'.evicted != r.evicted {
      assert PathsOf(r.evicted + [x]) == PathsOf(r.evicted) + {x.path};
      ClearedOneMore(s.db.rows, PathsOf(r.evicted), x.path, t);
      TotalSnoc(r.evicted, x);
    }
  }

  lemma NothingSettled(s: State, t: Tier)
    ensures Settled(s, [], t, Outcome(s, [], []))
  {
    assert Cleared(s.db.rows, {}, t) == s.db.rows;
  }

  lemma {:induction false} EvictListSettles(s: State, files: seq<FileMeta>, t: Tier, target: nat,
                                            fails: FvfsPath -> bool)
    requires Listed(files, s.db.rows, t)
    ensures Settled(s, files, t, EvictList(s, files, t, target, fails))
  {
    hide Settled, Listed, Evict, UniqueIds, References;
    if files == [] {
      NothingSettled(s, t);
    } else {
      var n := |files| - 1;
      assert files == files[..n] + [files[n]];
      ListedPrefix(files[..n], files[n], s.db.rows, t);
      EvictListSettles(s, files[..n], t, target, fails);
      SettledNext(s, files[..n], t, EvictList(s, files[..n], t, target, fails), files[n], target, fails(files[n].path));
    }
  }

  /** Which files the loop chose: all the safe ones or enough of them, never one too many. */
  ghost predicate Chosen(files: seq<FileMeta>, t: Tier, target: nat, r: Outcome) {
    && (forall x | x in files && SafeToEvictFrom(x.row.bitmask, t) ::
          x in r.evicted || x in r.failed || Total(r.evicted) >= target)
    && (r.evicted != [] ==> Total(r.evicted[..|r.evicted| - 1]) < target)
    && (r.failed == [] ==> ShortestPrefix(r.evicted, Safe(files, t), target))
  }

  lemma ChosenNext(files: seq<FileMeta>, t: Tier, target: nat, r: Outcome, x: FileMeta, fails: bool)
    requires Chosen(files, t, target, r)
    ensures Chosen(files + [x], t, target, EvictNext(r, x, t, target, fails))
  {
    hide UniqueIds, References, Evict, SafeToEvictFrom, Safe, Total;
    var r' := EvictNext(r, x, t, target, fails);
    SafeSnoc(files, x, t);
    if r'.evicted != r.evicted {
      assert r'.evicted[..|r.evicted|] == r.evicted;
      TotalSnoc(r.evicted, x);
    }
  }

  lemma SafeSnoc(files: seq<FileMeta>, x: FileMeta, t: Tier)
    ensures Safe(files + [x], t) == Safe(files, t) + if SafeToEvictFrom(x.row.bitmask, t) then [x] else []
  {
    assert (files + [x])[..|files|] == files;
  }

  lemma {:induction false} EvictListChooses(s: State, files: seq<FileMeta>, t: Tier, target: nat,
                                            fails: FvfsPath -> bool)
    ensures Chosen(files, t, target, EvictList(s, files, t, target, fails))
  {
    if files == [] {
    } else {
      var n := |files| - 1;
      EvictListChooses(s, files[..n], t, target, fails);
      assert files == files[..n] + [files[n]];
      ChosenNext(files[..n], t, target, EvictList(s, files[..n], t, target, fails), files[n], fails(files[n].path));
    }
  }

  /** Where bitmasks tell the truth, an eviction fails only because the backend did, and the tree is untouched. */
  lemma {:induction false} EvictListKeepsTree(s: State, files: seq<FileMeta>, t: Tier, target: nat,
                                              fails: FvfsPath -> bool)
    requires Inv(s) && Listed(files, s.db.rows, t)
    ensures
      var r := EvictList(s, files, t, target, fails);
      && Inv(r.state) && Abs(r.state.db.rows) == Abs(s.db.rows)
      && forall x | x in r.failed :: fails(x.path)
  {
    hide Evict, Inv, Abs, Settled, Listed, Schema, UniqueIds, References, SafeToEvictFrom, Total, OnTier;
    if files == [] {
    } else {
      var n := |files| - 1;
      var x, r := files[n], EvictList(s, files[..n], t, target, fails);
      assert files == files[..n] + [x];
      ListedPrefix(files[..n], x, s.db.rows, t);
      EvictListKeepsTree(s, files[..n], t, target, fails);
      EvictListSettles(s, files[..n], t, target, fails);
      EvictRefines(r.state, x.path, t, fails(x.path));
      if SafeToEvictFrom(x.row.bitmask, t) && Evict(r.state, x.path, t, fails(x.path)).1.Err? {
        FailedByFault(s, files[..n], t, r, x, fails(x.path));
      }
    }
  }

  lemma FailedByFault(s: State, files: seq<FileMeta>, t: Tier, r: Outcome, x: FileMeta, fails: bool)
    requires Listed(files + [x], s.db.rows, t) && Settled(s, files, t, r) && Inv(r.state)
    requires SafeToEvictFrom(x.row.bitmask, t) && Evict(r.state, x.path, t, fails).1.Err?
    ensures fails
  {
    NextUntouched(s, files, t, r, x);
    assert FileOk(r.state, x.path);
  }

  /**
   A whole pass over the ranked files of a tier. The bytes on the tier drop by exactly what was freed,
   whatever evictions fail. Enough is freed, or every file left on the tier lacks a copy on S3 or is one
   whose eviction failed. With no failure the files evicted are the shortest sufficient prefix of the
   S3-backed files in rank order.
   */
  lemma EvictionPass(s: State, ranked: seq<FileMeta>, t: Tier, target: nat, fails: FvfsPath -> bool)
    requires Lists(ranked, s.db.rows, OnTier(s.db.rows, t))
    ensures
      var r := EvictList(s, ranked, t, target, fails);
      && r.state.db.rows == Cleared(s.db.rows, PathsOf(r.evicted), t)
      && BytesOn(r.state.db.rows, t) + Total(r.evicted) == BytesOn(s.db.rows, t)
      && (Total(r.evicted) >= target || Stuck(r.state.db.rows, t, PathsOf(r.failed)))
      && (r.failed == [] ==> ShortestPrefix(r.evicted, Safe(ranked, t), target))
  {
    ListsListed(ranked, s.db.rows, t);
    EvictListSettles(s, ranked, t, target, fails);
    EvictListChooses(s, ranked, t, target, fails);
    var r := EvictList(s, ranked, t, target, fails);
    forall p | p in OnTier(r.state.db.rows, t) && Total(r.evicted) < target
      ensures !SafeToEvictFrom(r.state.db.rows[p].bitmask, t) || p in PathsOf(r.failed)
    {
      var x := FileMeta(p, s.db.rows[p]);
      assert x in ranked && x.path !in PathsOf(r.evicted);
    }
  }

  /** Every file left on the tier lacks a copy on S3, or is one of `failed`. */
  ghost predicate Stuck(rows: Rows, t: Tier, failed: set<FvfsPath>) {
    forall p | p in OnTier(rows, t) :: !SafeToEvictFrom(rows[p].bitmask, t) || p in failed
  }

  /** Loads the files of the tier and sorts them by score. */
  method RankFiles(meta: MetadataStore, t: Tier, policy: Policy, now: int) returns (sorted: seq<FileMeta>)
    ensures Lists(sorted, meta.rows, OnTier(meta.rows, t))
    ensures Ranked(sorted, (x: FileMeta) => Score(policy, x.row, now), Age)
  {
    var files := FilesOnTier(meta, t);
    var key := (x: FileMeta) => Score(policy, x.row, now);
    sorted := Sort(files, key);
    SortRanks(files, key, Age);
    ListsPermuted(files, sorted, meta.rows, OnTier(meta.rows, t));
  }

  /**
   A cycle on one tier. At or below the high watermark nothing happens. Above it, the ranked files are
   evicted until the tier would be at the low watermark; whatever evictions fail, the bytes on the tier drop
   by exactly what was freed, and the tier ends at or below the low watermark or every file left on it
   lacks a copy on S3 or failed to evict. No eviction is needless: with the last file back the tier would be
   above the low watermark.
   */
  method RunEvictionCycle(router: TierRouter, t: Tier, high: nat, low: nat, policy: Policy,
                          fails: FvfsPath -> bool, now: int)
    returns (freed: nat, ghost ranked: seq<FileMeta>)
    requires router.Valid()
    modifies router, router.meta
    ensures router.Valid()
    ensures BytesOn(router.meta.rows, t) + freed == BytesOn(old(router.meta.rows), t)
    ensures BytesOn(old(router.meta.rows), t) <= high ==> router.View(now) == old(router.View(now)) && freed == 0
    ensures BytesOn(old(router.meta.rows), t) > high ==>
              var r := EvictList(old(router.View(now)), ranked, t,
                                 TargetFree(BytesOn(old(router.meta.rows), t), low), fails);
              && Lists(ranked, old(router.meta.rows), OnTier(old(router.meta.rows), t))
              && Ranked(ranked, (x: FileMeta) => Score(policy, x.row, now), Age)
              && router.View(now) == r.state && freed == Total(r.evicted)
              && (BytesOn(router.meta.rows, t) <= low || Stuck(router.meta.rows, t, PathsOf(r.failed)))
              && (r.evicted != [] ==> BytesOn(router.meta.rows, t) + r.evicted[|r.evicted| - 1].row.size > low)
              && ColdestGone(router.meta.rows, t, (x: FileMeta) => Score(policy, x.row, now),
                             TargetFree(BytesOn(old(router.meta.rows), t), low), r)
  {
    hide EvictList, BytesOn, Lists, Ranked, Stuck, ColdestGone, Cleared, Safe, ShortestPrefix, PathsOf;
    freed, ranked := 0, [];
    var used := BytesOnTier(router.meta, t);
    if used <= high {
      return;
    }
    var sorted := RankFiles(router.meta, t, policy, now);
    ranked := sorted;
    ghost var start := router.View(now);
    freed := EvictUntil(router, t, sorted, TargetFree(used, low), fails, now);
    EvictionPass(start, sorted, t, TargetFree(used, low), fails);
    LastEvictionNeeded(start, sorted, t, used, low, fails);
    EvictedAreColdest(start, sorted, t, (x: FileMeta) => Score(policy, x.row, now), TargetFree(used, low), fails);
  }

  /** The last eviction of a cycle was needed: before it the tier was above the low watermark. */
  lemma LastEvictionNeeded(s: State, ranked: seq<FileMeta>, t: Tier, used: nat, low: nat, fails: FvfsPath -> bool)
    ensures
      var r := EvictList(s, ranked, t, TargetFree(used, low), fails);
      r.evicted != [] ==> low + Total(r.evicted) < used + r.evicted[|r.evicted| - 1].row.size
  {
    hide EvictList, UniqueIds, References, SafeToEvictFrom;
    EvictListChooses(s, ranked, t, TargetFree(used, low), fails);
  }

  /** The shortest prefix of `safe` that frees `target` bytes, or all of it if nothing suffices. */
  ghost predicate ShortestPrefix(evicted: seq<FileMeta>, safe: seq<FileMeta>, target: nat) {
    && evicted <= safe
    && (Total(evicted) >= target || evicted == safe)
    && (evicted != [] ==> Total(evicted[..|evicted| - 1]) < target)
  }

  // ---- What that means for the files

  /** A safe file the loop neither evicted nor failed on ranks after everything it evicted. */
  ghost predicate ColdestFirst(files: seq<FileMeta>, t: Tier, key: Key, r: Outcome) {
    forall x, y | x in r.evicted && y in files && SafeToEvictFrom(y.row.bitmask, t) &&
                  y !in r.evicted && y !in r.failed ::
      Before(x, y, key, Age)
  }

  lemma ColdestFirstNext(files: seq<FileMeta>, x: FileMeta, t: Tier, key: Key, target: nat, r: Outcome, fails: bool)
    requires Ranked(files + [x], key, Age) && Chosen(files, t, target, r) && ColdestFirst(files, t, key, r)
    requires forall y | y in r.evicted :: y in files
    ensures ColdestFirst(files + [x], t, key, EvictNext(r, x, t, target, fails))
  {
    hide Evict, SafeToEvictFrom, UniqueIds, References, Before, Total, Ranked;
    RankedInit(files, x, key, Age);
  }

  lemma {:induction false} EvictListColdestFirst(s: State, files: seq<FileMeta>, t: Tier, key: Key, target: nat,
                                                 fails: FvfsPath -> bool)
    requires Ranked(files, key, Age)
    ensures
      var r := EvictList(s, files, t, target, fails);
      ColdestFirst(files, t, key, r) && forall x | x in r.evicted :: x in files
  {
    hide Ranked, Chosen, Evict, SafeToEvictFrom, UniqueIds, References;
    if files == [] {
    } else {
      var n := |files| - 1;
      var x := files[n];
      assert files == files[..n] + [x];
      RankedInit(files[..n], x, key, Age);
      EvictListColdestFirst(s, files[..n], t, key, target, fails);
      EvictListChooses(s, files[..n], t, target, fails);
      ColdestFirstNext(files[..n], x, t, key, target, EvictList(s, files[..n], t, target, fails), fails(x.path));
    }
  }

  /** What is left on the tier after a pass, and how far the pass went beyond its target. */
  ghost predicate ColdestGone(rows: Rows, t: Tier, key: Key, target: nat, r: Outcome) {
    && (forall x, p | x in r.evicted && p in OnTier(rows, t) && SafeToEvictFrom(rows[p].bitmask, t) &&
                      p !in PathsOf(r.failed) ::
          Before(x, FileMeta(p, rows[p]), key, Age))
    && (r.evicted != [] ==> Total(r.evicted) < target + r.evicted[|r.evicted| - 1].row.size)
  }

  /**
   Whatever evictions fail: no file still on the tier with a copy on S3, other than one whose eviction failed,
   ranks before a file that went; and the overshoot is less than the last file evicted.
   */
  lemma EvictedAreColdest(s: State, ranked: seq<FileMeta>, t: Tier, key: Key, target: nat, fails: FvfsPath -> bool)
    requires Lists(ranked, s.db.rows, OnTier(s.db.rows, t)) && Ranked(ranked, key, Age)
    ensures
      var r := EvictList(s, ranked, t, target, fails);
      ColdestGone(r.state.db.rows, t, key, target, r)
  {
    hide Ranked, EvictList, UniqueIds, References, BytesOn, SafeToEvictFrom, Total, ShortestPrefix;
    var r := EvictList(s, ranked, t, target, fails);
    ListsListed(ranked, s.db.rows, t);
    EvictListSettles(s, ranked, t, target, fails);
    EvictListChooses(s, ranked, t, target, fails);
    EvictListColdestFirst(s, ranked, t, key, target, fails);
    if r.evicted != [] {
      var n := |r.evicted| - 1;
      assert r.evicted == r.evicted[..n] + [r.evicted[n]];
      TotalSnoc(r.evicted[..n], r.evicted[n]);
    }
    forall x, p | x in r.evicted && p in OnTier(r.state.db.rows, t) && SafeToEvictFrom(r.state.db.rows[p].bitmask, t)
                  && p !in PathsOf(r.failed)
      ensures Before(x, FileMeta(p, r.state.db.rows[p]), key, Age)
    {
      var y := FileMeta(p, s.db.rows[p]);
      assert p !in PathsOf(r.evicted) && y in ranked;
      assert y !in r.failed && y !in r.evicted;
    }
  }

  /** The shortest sufficient prefix is one and the same: the cycle's choice is determined by the ranking. */
  lemma ShortestPrefixUnique(a: seq<FileMeta>, b: seq<FileMeta>, safe: seq<FileMeta>, target: nat)
    requires ShortestPrefix(a, safe, target) && ShortestPrefix(b, safe, target)
    ensures a == b
  {
    if |a| < |b| {
      assert a <= b[..|b| - 1];
      TotalGrows(a, b[..|b| - 1]);
    } else if |b| < |a| {
      assert b <= a[..|a| - 1];
      TotalGrows(b, a[..|a| - 1]);
    }
  }

  lemma {:induction false} TotalGrows(a: seq<FileMeta>, b: seq<FileMeta>)
    requires a <= b
    ensures Total(a) <= Total(b)
  {
    if |a| < |b| {
      TotalGrows(a, b[..|b| - 1]);
    } else {
      assert a == b;
    }
  }
}
