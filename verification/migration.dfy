/**
 The migration command (fvfsd/src/migrate.rs): one upload per distinct content, and an index that agrees
 with the bucket about every path.
 */
module Migration {
  import opened Collections
  import opened Results
  import opened Paths
  import opened Tiers
  import opened Store
  import opened Protocol
  import ObjectKeys
  import TreeIndex

  /** A crawled file: its path below the root it was found under, that root's tier, and its content. */
  datatype Source = Source(rel: string, tier: Tier, content: Bytes)

  // ---- Deduplication

  function Contents(xs: seq<Source>): set<Bytes> {
    set x | x in xs :: x.content
  }

  /** The upload list: a file joins it when no file before it has its digest. */
  function Firsts(files: seq<Source>): seq<Source> {
    if files == [] then []
    else
      var us, x := Firsts(files[..|files| - 1]), files[|files| - 1];
      if x.content in Contents(us) then us else us + [x]
  }

  function SizeOf(xs: seq<Source>): nat {
    if xs == [] then 0 else SizeOf(xs[..|xs| - 1]) + |xs[|xs| - 1].content|
  }

  /** Sizes add up, one file at a time or list by list. */
  lemma {:induction false} SizeOfConcat(a: seq<Source>, b: seq<Source>, x: Source)
    ensures SizeOf([x]) == |x.content| && SizeOf(a + b) == SizeOf(a) + SizeOf(b)
  {
    assert [x][..0] == [];
    if b == [] {
      assert a + b == a;
    } else {
      var n := |b| - 1;
      SizeOfConcat(a, b[..n], x);
      assert (a + b)[..|a + b| - 1] == a + b[..n];
    }
  }

  predicate IsFirst(files: seq<Source>, i: nat)
    requires i < |files|
  {
    forall j | 0 <= j < i :: files[j].content != files[i].content
  }

  lemma {:induction false} FirstsCover(files: seq<Source>)
    ensures Contents(Firsts(files)) == Contents(files)
  {
    if files == [] {
    } else {
      var n := |files| - 1;
      FirstsCover(files[..n]);
      assert files == files[..n] + [files[n]];
      assert Contents(files) == Contents(files[..n]) + {files[n].content};
      var us := Firsts(files[..n]);
      assert Contents(us + [files[n]]) == Contents(us) + {files[n].content};
    }
  }

  /** `us` are exactly the files that are first with their content. */
  ghost predicate AreFirsts(files: seq<Source>, us: seq<Source>) {
    && (forall i | 0 <= i < |files| && IsFirst(files, i) :: files[i] in us)
    && (forall x | x in us :: exists i :: 0 <= i < |files| && files[i] == x && IsFirst(files, i))
  }

  /** `us` follow one another as they do in `files`. */
  ghost predicate InOrder(files: seq<Source>, us: seq<Source>) {
    forall k, m | 0 <= k < m < |us| :: Precedes(files, us[k], us[m])
  }

  predicate Precedes(files: seq<Source>, x: Source, y: Source) {
    exists i, j :: 0 <= i < j < |files| && files[i] == x && files[j] == y
  }

  lemma PrecedesSnoc(files: seq<Source>, z: Source, x: Source, y: Source)
    requires Precedes(files, x, y) || (x in files && y == z)
    ensures Precedes(files + [z], x, y)
  {
    if Precedes(files, x, y) {
      var i, j :| 0 <= i < j < |files| && files[i] == x && files[j] == y;
      assert (files + [z])[i] == x && (files + [z])[j] == y;
    } else {
      var i :| 0 <= i < |files| && files[i] == x;
      assert (files + [z])[i] == x && (files + [z])[|files|] == z;
    }
  }

  lemma InOrderSnoc(files: seq<Source>, us: seq<Source>, z: Source)
    requires AreFirsts(files, us) && InOrder(files, us)
    ensures InOrder(files + [z], us) && InOrder(files + [z], us + [z])
  {
    hide Precedes, IsFirst;
    var us' := us + [z];
    forall k, m | 0 <= k < m < |us'| ensures Precedes(files + [z], us'[k], us'[m]) {
      assert us'[k] == us[k] && us[k] in us;
      PrecedesSnoc(files, z, us'[k], us'[m]);
    }
    forall k, m | 0 <= k < m < |us| ensures Precedes(files + [z], us[k], us[m]) {
      PrecedesSnoc(files, z, us[k], us[m]);
    }
  }

  lemma IsFirstSnoc(files: seq<Source>, x: Source)
    ensures forall i | 0 <= i < |files| :: IsFirst(files + [x], i) <==> IsFirst(files, i)
    ensures IsFirst(files + [x], |files|) <==> x.content !in Contents(files)
  {
    forall i | 0 <= i < |files| ensures IsFirst(files + [x], i) <==> IsFirst(files, i) {
      assert forall j | 0 <= j < |files| :: (files + [x])[j] == files[j];
    }
    if IsFirst(files + [x], |files|) {
      assert forall j | 0 <= j < |files| :: (files + [x])[j] == files[j];
    }
  }

  lemma AreFirstsSnoc(files: seq<Source>, us: seq<Source>, x: Source)
    requires AreFirsts(files, us)
    ensures AreFirsts(files + [x], if x.content in Contents(files) then us else us + [x])
  {
    hide IsFirst, Contents;
    IsFirstSnoc(files, x);
    var us' := if x.content in Contents(files) then us else us + [x];
    forall y | y in us' ensures exists i :: 0 <= i < |files + [x]| && (files + [x])[i] == y && IsFirst(files + [x], i) {
      if y in us {
        var i :| 0 <= i < |files| && files[i] == y && IsFirst(files, i);
        assert (files + [x])[i] == y && IsFirst(files + [x], i);
      } else {
        assert (files + [x])[|files|] == y;
      }
    }
  }

  /**
   The upload list has one file for each content, and that file is the first to have it: its entries are
   exactly the first files, in the order of the crawl.
   */
  lemma {:induction false} FirstsExact(files: seq<Source>)
    ensures Contents(Firsts(files)) == Contents(files)
    ensures forall k, m | 0 <= k < m < |Firsts(files)| :: Firsts(files)[k].content != Firsts(files)[m].content
    ensures AreFirsts(files, Firsts(files)) && InOrder(files, Firsts(files))
  {
    hide AreFirsts, InOrder;
    FirstsCover(files);
    if files == [] {
      NoFirsts();
    } else {
      var n := |files| - 1;
      var x, us := files[n], Firsts(files[..n]);
      FirstsExact(files[..n]);
      assert files == files[..n] + [x];
      AreFirstsSnoc(files[..n], us, x);
      InOrderSnoc(files[..n], us, x);
      if x.content !in Contents(us) {
        forall k | 0 <= k < |us| ensures us[k].content != x.content { assert us[k] in us; }
      }
    }
  }

  lemma NoFirsts()
    ensures AreFirsts([], []) && InOrder([], [])
  {
  }

  /** The dedup loop, with its map from digests to files. */
  method Deduplicate(files: seq<Source>) returns (total: nat, totalBytes: nat, duplicates: nat, toUpload: seq<Source>)
    ensures total == |files| && totalBytes == SizeOf(files)
    ensures toUpload == Firsts(files)
    ensures total == |toUpload| + duplicates
  {
    total, totalBytes, duplicates, toUpload := 0, 0, 0, [];
    var byHash: map<Hash, Source> := map[];
    for i := 0 to |files|
      invariant total == i && totalBytes == SizeOf(files[..i])
      invariant toUpload == Firsts(files[..i]) && total == |toUpload| + duplicates
      invariant byHash.Keys == set c | c in Contents(toUpload) :: Sha256(c)
    {
      var x := files[i];
      assert files[..i + 1][..i] == files[..i];
      total, totalBytes := total + 1, totalBytes + |x.content|;
      if Sha256(x.content) in byHash {
        duplicates := duplicates + 1;
      } else {
        assert Contents(toUpload + [x]) == Contents(toUpload) + {x.content};
        byHash, toUpload := byHash[Sha256(x.content) := x], toUpload + [x];
      }
    }
    assert files[..|files|] == files;
  }

  // ---- Upload and index

  function Slashes(s: string): string {
    if s == "" then "" else [if s[0] == '\\' then '/' else s[0]] + Slashes(s[1..])
  }

  function VfsPath(x: Source): (r: Result<FvfsPath>) {
    var raw := "/" + Slashes(x.rel);
    NormalizeTotal(raw);
    match Normalize(raw)
    case Ok(p) => Ok(p)
    case Err(e) => Err(e)
  }

  /** Failures met by the i-th upload: reading the source, and the put. */
  datatype Trouble = Trouble(readFails: nat -> bool, putFails: nat -> bool)

  predicate Succeeds(xs: seq<Source>, i: nat, tr: Trouble)
    requires i < |xs|
  {
    VfsPath(xs[i]).Ok? && !tr.readFails(i) && !tr.putFails(i)
  }

  function MigratedRow(x: Source, now: int): Row {
    Row(0, File, |x.content|, Sha256(x.content), {x.tier, S3}, now, 0)
  }

  datatype Progress = Progress(s3: Backend, db: Db, uploaded: nat, bytes: nat, errors: nat)

  /** The upload loop: a file that fails counts as an error and changes nothing. */
  function UploadAll(start: Progress, xs: seq<Source>, tr: Trouble, clock: nat -> int): Progress {
    if xs == [] then start
    else
      var n := |xs| - 1;
      var g := UploadAll(start, xs[..n], tr, clock);
      if !Succeeds(xs, n, tr) then g.(errors := g.errors + 1)
      else UploadOne(g, xs[n], clock(n))
  }

  function UploadOne(g: Progress, x: Source, now: int): Progress
    requires VfsPath(x).Ok?
  {
    var p := VfsPath(x).value;
    Progress(g.s3[p := x.content], Upserted(g.db, p, MigratedRow(x, now)),
             g.uploaded + 1, g.bytes + |x.content|, g.errors)
  }

  /** No upload after the i-th put the same path. */
  predicate LastAt(xs: seq<Source>, i: nat, p: FvfsPath, tr: Trouble)
    requires i < |xs|
  {
    && Succeeds(xs, i, tr) && VfsPath(xs[i]) == Ok(p)
    && forall j | i < j < |xs| && Succeeds(xs, j, tr) :: VfsPath(xs[j]) != Ok(p)
  }

  /** `x`, migrated at the time `now`, is what the bucket holds at `p` and what the index says it holds. */
  predicate HoldsBoth(s3: Backend, rows: Rows, p: FvfsPath, x: Source, now: int) {
    && p in s3 && s3[p] == x.content
    && p in rows && rows[p] == Row(rows[p].id, File, |x.content|, Sha256(x.content), {x.tier, S3}, now, 0)
  }

  lemma LastAtEarlier(xs: seq<Source>, i: nat, p: FvfsPath, tr: Trouble)
    requires i < |xs| - 1
    ensures var n := |xs| - 1;
            LastAt(xs, i, p, tr) <==> LastAt(xs[..n], i, p, tr) && !(Succeeds(xs, n, tr) && VfsPath(xs[n]) == Ok(p))
  {
    hide VfsPath;
    var n, ys := |xs| - 1, xs[..|xs| - 1];
    assert ys[i] == xs[i];
    if LastAt(xs, i, p, tr) {
      forall j | i < j < n && Succeeds(ys, j, tr) ensures VfsPath(ys[j]) != Ok(p) {
        assert ys[j] == xs[j] && Succeeds(xs, j, tr);
      }
    }
    if LastAt(ys, i, p, tr) && !(Succeeds(xs, n, tr) && VfsPath(xs[n]) == Ok(p)) {
      forall j | i < j <= n && Succeeds(xs, j, tr) ensures VfsPath(xs[j]) != Ok(p) {
        if j < n { assert ys[j] == xs[j] && Succeeds(ys, j, tr); }
      }
    }
  }

  /** The bucket and the index have the same paths, and both hold the last successful upload at each. */
  ghost predicate Agree(xs: seq<Source>, tr: Trouble, clock: nat -> int, s3: Backend, rows: Rows) {
    && s3.Keys == rows.Keys
    && (forall p | p in s3 :: exists i :: 0 <= i < |xs| && LastAt(xs, i, p, tr))
    && (forall i, p | 0 <= i < |xs| && LastAt(xs, i, p, tr) :: HoldsBoth(s3, rows, p, xs[i], clock(i)))
  }

  /** What the last file of the list does: it is put and indexed at its path, or nothing changes. */
  ghost predicate LastUploaded(xs: seq<Source>, tr: Trouble, now: int, s3: Backend, rows: Rows,
                               s3': Backend, rows': Rows)
    requires xs != []
  {
    var n := |xs| - 1;
    if Succeeds(xs, n, tr) then
      var p := VfsPath(xs[n]).value;
      && HoldsBoth(s3', rows', p, xs[n], now)
      && s3' == s3[p := xs[n].content] && rows' == rows[p := rows'[p]]
    else s3' == s3 && rows' == rows
  }

  lemma LastHeld(xs: seq<Source>, tr: Trouble, clock: nat -> int, s3: Backend, rows: Rows, s3': Backend, rows': Rows,
                 i: nat, p: FvfsPath)
    requires xs != [] && Agree(xs[..|xs| - 1], tr, clock, s3, rows)
    requires LastUploaded(xs, tr, clock(|xs| - 1), s3, rows, s3', rows') && i < |xs| && LastAt(xs, i, p, tr)
    ensures HoldsBoth(s3', rows', p, xs[i], clock(i))
  {
    hide VfsPath;
    var n := |xs| - 1;
    if i < n {
      LastAtEarlier(xs, i, p, tr);
      assert HoldsBoth(s3, rows, p, xs[..n][i], clock(i));
    }
  }

  lemma HeldHasLast(xs: seq<Source>, tr: Trouble, clock: nat -> int, s3: Backend, rows: Rows, s3': Backend, rows': Rows,
                    p: FvfsPath)
    requires xs != [] && Agree(xs[..|xs| - 1], tr, clock, s3, rows)
    requires LastUploaded(xs, tr, clock(|xs| - 1), s3, rows, s3', rows') && p in s3'
    ensures exists i :: 0 <= i < |xs| && LastAt(xs, i, p, tr)
  {
    hide VfsPath, HoldsBoth;
    var n := |xs| - 1;
    if Succeeds(xs, n, tr) && VfsPath(xs[n]) == Ok(p) {
      assert LastAt(xs, n, p, tr);
    } else {
      var i :| 0 <= i < n && LastAt(xs[..n], i, p, tr);
      LastAtEarlier(xs, i, p, tr);
    }
  }

  lemma AgreeNext(xs: seq<Source>, tr: Trouble, clock: nat -> int, s3: Backend, rows: Rows, s3': Backend, rows': Rows)
    requires xs != [] && Agree(xs[..|xs| - 1], tr, clock, s3, rows)
    requires LastUploaded(xs, tr, clock(|xs| - 1), s3, rows, s3', rows')
    ensures Agree(xs, tr, clock, s3', rows')
  {
    forall i, p | 0 <= i < |xs| && LastAt(xs, i, p, tr) ensures HoldsBoth(s3', rows', p, xs[i], clock(i)) {
      LastHeld(xs, tr, clock, s3, rows, s3', rows', i, p);
    }
    forall p | p in s3' ensures exists i :: 0 <= i < |xs| && LastAt(xs, i, p, tr) {
      HeldHasLast(xs, tr, clock, s3, rows, s3', rows', p);
    }
    hide VfsPath, LastAt;
  }

  const NOTHING := Progress(map[], EMPTY_TABLES, 0, 0, 0)

  /**
   From an empty bucket and index, with any failures: the bucket and the index have the same paths, those
   some upload succeeded for; both hold the last successful upload for the path; and each entry of the list
   was uploaded or counted as an error.
   */
  lemma {:induction false} MigrationAgrees(xs: seq<Source>, tr: Trouble, clock: nat -> int)
    ensures
      var g := UploadAll(NOTHING, xs, tr, clock);
      && |xs| == g.uploaded + g.errors
      && Agree(xs, tr, clock, g.s3, g.db.rows)
  {
    hide Agree, VfsPath, UniqueIds, References;
    if xs == [] {
      AgreeEmpty(tr, clock);
    } else {
      var n := |xs| - 1;
      MigrationAgrees(xs[..n], tr, clock);
      var g0 := UploadAll(NOTHING, xs[..n], tr, clock);
      if Succeeds(xs, n, tr) {
        UploadOneEffect(g0, xs[n], clock(n));
      }
      var g := UploadAll(NOTHING, xs, tr, clock);
      AgreeNext(xs, tr, clock, g0.s3, g0.db.rows, g.s3, g.db.rows);
    }
  }

  lemma AgreeEmpty(tr: Trouble, clock: nat -> int)
    ensures Agree([], tr, clock, map[], map[])
  {
  }

  lemma UploadOneEffect(g: Progress, x: Source, now: int)
    requires VfsPath(x).Ok?
    ensures
      var g', p := UploadOne(g, x, now), VfsPath(x).value;
      && HoldsBoth(g'.s3, g'.db.rows, p, x, now)
      && g'.db.rows == g.db.rows[p := g'.db.rows[p]]
  {
  }

  /** The positions of the uploads that succeed. */
  ghost function Successes(xs: seq<Source>, tr: Trouble): set<nat> {
    set i: nat | i < |xs| && Succeeds(xs, i, tr)
  }

  ghost function ContentSize(xs: seq<Source>): nat -> nat {
    (i: nat) => if i < |xs| then |xs[i].content| else 0
  }

  /** The report counts each upload that succeeds, with its bytes, and each that does not as an error. */
  lemma {:induction false} UploadCounts(start: Progress, xs: seq<Source>, tr: Trouble, clock: nat -> int)
    ensures
      var g := UploadAll(start, xs, tr, clock);
      && g.uploaded == start.uploaded + |Successes(xs, tr)|
      && g.bytes == start.bytes + Sum<nat>(Successes(xs, tr), ContentSize(xs))
      && g.errors + |Successes(xs, tr)| == start.errors + |xs|
  {
    hide VfsPath, Upserted, UniqueIds, References;
    if xs == [] {
      assert Successes(xs, tr) == {};
    } else {
      var n := |xs| - 1;
      UploadCounts(start, xs[..n], tr, clock);
      SuccessesNext(xs, tr);
      hide Successes, ContentSize;
    }
  }

  /** The last upload joins the successes, or not. */
  lemma SuccessesSnoc(xs: seq<Source>, tr: Trouble)
    requires xs != []
    ensures
      var n := |xs| - 1;
      n !in Successes(xs[..n], tr) &&
      Successes(xs, tr) == Successes(xs[..n], tr) + if Succeeds(xs, n, tr) then {n} else {}
  {
    hide VfsPath;
    var n := |xs| - 1;
    assert forall i: nat | i < n :: xs[..n][i] == xs[i];
    forall i: nat ensures i in Successes(xs, tr) <==> i in Successes(xs[..n], tr) || (i == n && Succeeds(xs, n, tr)) {
      if i < n { assert Succeeds(xs[..n], i, tr) == Succeeds(xs, i, tr); }
    }
  }

  lemma SuccessesNext(xs: seq<Source>, tr: Trouble)
    requires xs != []
    ensures
      var n := |xs| - 1;
      var before, now, more := Successes(xs[..n], tr), Successes(xs, tr), Succeeds(xs, n, tr);
      && |now| == |before| + (if more then 1 else 0)
      && Sum<nat>(now, ContentSize(xs)) == Sum<nat>(before, ContentSize(xs[..n])) + if more then |xs[n].content| else 0
  {
    var n := |xs| - 1;
    var before, now := Successes(xs[..n], tr), Successes(xs, tr);
    SuccessesSnoc(xs, tr);
    assert forall i | i in before :: i < n;
    hide Successes, Succeeds;
    SumSame<nat>(before, ContentSize(xs[..n]), ContentSize(xs));
    if Succeeds(xs, n, tr) {
      SumRemove<nat>(now, ContentSize(xs), n);
      assert now - {n} == before;
    }
  }

  /** A path some upload succeeded for has a last one. */
  lemma LastSuccess(xs: seq<Source>, k: nat, p: FvfsPath, tr: Trouble)
    requires k < |xs| && Succeeds(xs, k, tr) && VfsPath(xs[k]) == Ok(p)
    ensures exists i :: 0 <= i < |xs| && LastAt(xs, i, p, tr)
    decreases |xs| - k
  {
    hide VfsPath;
    if j :| k < j < |xs| && Succeeds(xs, j, tr) && VfsPath(xs[j]) == Ok(p) {
      LastSuccess(xs, j, p, tr);
    } else {
      assert LastAt(xs, k, p, tr);
    }
  }

  /** A path is in the bucket and the index exactly when some upload for it succeeded. */
  lemma UploadedExactly(xs: seq<Source>, tr: Trouble, clock: nat -> int, p: FvfsPath)
    ensures
      var g := UploadAll(NOTHING, xs, tr, clock);
      && (p in g.db.rows <==>
            exists k :: 0 <= k < |xs| && VfsPath(xs[k]) == Ok(p) && !tr.readFails(k) && !tr.putFails(k))
      && (p in g.s3 <==> p in g.db.rows)
  {
    hide VfsPath, UploadAll;
    MigrationAgrees(xs, tr, clock);
    var g := UploadAll(NOTHING, xs, tr, clock);
    if p in g.db.rows {
      assert p in g.s3;
    }
    if k :| 0 <= k < |xs| && Succeeds(xs, k, tr) && VfsPath(xs[k]) == Ok(p) {
      LastSuccess(xs, k, p, tr);
      var i :| 0 <= i < |xs| && LastAt(xs, i, p, tr);
      assert HoldsBoth(g.s3, g.db.rows, p, xs[i], clock(i));
    }
  }

  /** Some file that is first with its content belongs at `p`. */
  ghost predicate FirstAt(files: seq<Source>, p: FvfsPath) {
    exists i :: 0 <= i < |files| && IsFirst(files, i) && VfsPath(files[i]) == Ok(p)
  }

  lemma FirstAtListed(files: seq<Source>, p: FvfsPath)
    ensures FirstAt(files, p) <==> exists k :: 0 <= k < |Firsts(files)| && VfsPath(Firsts(files)[k]) == Ok(p)
  {
    hide VfsPath, IsFirst;
    FirstsExact(files);
    var us := Firsts(files);
    if i :| 0 <= i < |files| && IsFirst(files, i) && VfsPath(files[i]) == Ok(p) {
      assert files[i] in us;
    }
    if k :| 0 <= k < |us| && VfsPath(us[k]) == Ok(p) {
      assert us[k] in us;
    }
  }

  ghost predicate NoTrouble(tr: Trouble) {
    forall i :: !tr.readFails(i) && !tr.putFails(i)
  }

  /**
   Only the first file of each content gets a path. Whatever fails, an indexed path has such a file; when
   nothing fails, a path is in the bucket and the index exactly when it has one.
   */
  lemma OnlyFirstsIndexed(files: seq<Source>, tr: Trouble, clock: nat -> int, p: FvfsPath)
    ensures
      var g := UploadAll(NOTHING, Firsts(files), tr, clock);
      && (p in g.db.rows ==> FirstAt(files, p))
      && (NoTrouble(tr) ==> (p in g.db.rows <==> FirstAt(files, p)) && (p in g.s3 <==> FirstAt(files, p)))
  {
    hide VfsPath, UploadAll, FirstAt, Firsts;
    UploadedExactly(Firsts(files), tr, clock, p);
    FirstAtListed(files, p);
  }

  lemma {:induction false} SlashesKeep(s: string)
    requires '\\' !in s
    ensures Slashes(s) == s
  {
    if s == "" {
    } else {
      assert s[0] in s && forall c | c in s[1..] :: c in s;
      SlashesKeep(s[1..]);
      assert s == [s[0]] + s[1..];
    }
  }

  /** Every backslash becomes a slash and nothing else changes. */
  lemma {:induction false} SlashesCharwise(s: string)
    ensures |Slashes(s)| == |s|
    ensures forall i | 0 <= i < |s| :: Slashes(s)[i] == if s[i] == '\\' then '/' else s[i]
  {
    if s == "" {
    } else {
      SlashesCharwise(s[1..]);
    }
  }

  lemma SlashesConcat(a: string, sep: char, b: string)
    requires sep == '/' || sep == '\\'
    ensures Slashes(a + [sep] + b) == Slashes(a) + "/" + Slashes(b)
  {
    SlashesCharwise(a + [sep] + b);
    SlashesCharwise(a);
    SlashesCharwise(b);
  }

  /**
   A crawled path goes where joining its pieces to the root one by one leads, whichever separators it has: the
   last piece is joined to where the rest of the path goes.
   */
  lemma VfsPathNested(x: Source, dir: string, sep: char, name: string)
    requires x.rel == dir + [sep] + name && (sep == '/' || sep == '\\')
    ensures VfsPath(x) == match VfsPath(x.(rel := dir)) case Ok(q) => Join(q, Slashes(name)) case Err(e) => Err(e)
  {
    SlashesConcat(dir, sep, name);
    JoinJoin(ROOT, Slashes(dir), Slashes(name));
  }

  /** Pieces with separators between them. */
  function RelOf(cs: seq<string>, seps: seq<char>): string
    requires 0 < |cs| <= |seps| + 1
  {
    if |cs| == 1 then cs[0]
    else RelOf(cs[..|cs| - 1], seps) + [seps[|cs| - 2]] + cs[|cs| - 1]
  }

  /** Good pieces, separated by slashes or backslashes in any mixture, are the segments of the path. */
  lemma {:induction false} VfsPathSegments(x: Source, cs: seq<string>, seps: seq<char>)
    requires 0 < |cs| <= |seps| + 1 && x.rel == RelOf(cs, seps)
    requires AllGood(cs) && forall c | c in cs :: '\\' !in c
    requires forall k | 0 <= k < |seps| :: seps[k] == '/' || seps[k] == '\\'
    ensures VfsPath(x).Ok? && Segments(VfsPath(x).value) == cs
    decreases |cs|
  {
    hide VfsPath, Join, Canonical, Split;
    var n := |cs| - 1;
    var name := cs[n];
    assert name in cs;
    SlashesKeep(name);
    if n == 0 {
      PlainName(x);
      ChildSegments(ROOT, name);
      assert "" + "/" + name == "/" + name && cs == [name];
    } else {
      var dir := x.(rel := RelOf(cs[..n], seps));
      assert forall c | c in cs[..n] :: c in cs;
      VfsPathSegments(dir, cs[..n], seps);
      VfsPathNested(x, dir.rel, seps[n - 1], name);
      ChildSegments(VfsPath(dir).value, name);
      assert cs == cs[..n] + [name];
    }
  }

  lemma ChildSegments(d: FvfsPath, name: string)
    requires GoodSegment(name)
    ensures
      var p := (if d == "/" then "" else d) + "/" + name;
      Join(d, name) == Ok(p) && Segments(p) == Segments(d) + [name]
  {
    hide Segments, Join, Canonical, Parent;
    JoinPiece(d, name);
    ChildPath(d, name);
    SegmentsOfParent((if d == "/" then "" else d) + "/" + name);
  }

  /** A file right below its root goes to the path with its name. */
  lemma PlainName(x: Source)
    requires GoodSegment(x.rel) && '\\' !in x.rel
    ensures Canonical("/" + x.rel) && VfsPath(x) == Ok("/" + x.rel)
  {
    ChildPath(ROOT, x.rel);
    assert "" + "/" + x.rel == "/" + x.rel;
    NormalizeFixesCanonical("/" + x.rel);
    SlashesKeep(x.rel);
  }

  /** Two files side by side with one content: the second one's path vanishes, although nothing fails. */
  lemma DuplicatePathVanishes(a: string, b: string, content: Bytes, tr: Trouble, clock: nat -> int)
    requires NoTrouble(tr) && GoodSegment(a) && GoodSegment(b) && '\\' !in a + b && a != b
    ensures
      var files := [Source(a, Local, content), Source(b, Local, content)];
      var g := UploadAll(NOTHING, Firsts(files), tr, clock);
      "/" + a in g.db.rows && "/" + b !in g.s3 && "/" + b !in g.db.rows
  {
    var x, y := Source(a, Local, content), Source(b, Local, content);
    assert forall c | c in a || c in b :: c in a + b;
    PlainName(x);
    PlainName(y);
    hide VfsPath, UploadAll, Firsts, Canonical, GoodSegment;
    OnlyFirstsIndexed([x, y], tr, clock, "/" + a);
    OnlyFirstsIndexed([x, y], tr, clock, "/" + b);
    assert IsFirst([x, y], 0) && !IsFirst([x, y], 1);
    assert ("/" + a)[1..] == a && ("/" + b)[1..] == b;
  }

  /** Some upload for the path succeeded. */
  ghost predicate UploadedTo(xs: seq<Source>, tr: Trouble, p: FvfsPath) {
    exists k :: 0 <= k < |xs| && Succeeds(xs, k, tr) && VfsPath(xs[k]) == Ok(p)
  }

  /** Migration adds no rows for parent directories: the index is a tree exactly when uploads happen to provide them. */
  lemma MigrationTreeIff(xs: seq<Source>, tr: Trouble, clock: nat -> int)
    ensures TreeIndex.Closed(UploadAll(NOTHING, xs, tr, clock).db.rows.Keys) <==>
            forall p: FvfsPath | UploadedTo(xs, tr, p) && p != "/" :: UploadedTo(xs, tr, Parent(p).value)
  {
    var rows := UploadAll(NOTHING, xs, tr, clock).db.rows;
    forall p ensures p in rows <==> UploadedTo(xs, tr, p) { UploadedExactly(xs, tr, clock, p); }
    hide UploadAll, UploadedTo;
  }

  /** So any upload below a root that no source stands for leaves the index without the root. */
  lemma MigrationIndexesNoRoot(xs: seq<Source>, tr: Trouble, clock: nat -> int, p: FvfsPath)
    requires UploadedTo(xs, tr, p) && p != "/" && forall k | 0 <= k < |xs| :: VfsPath(xs[k]) != Ok("/")
    ensures !TreeIndex.Closed(UploadAll(NOTHING, xs, tr, clock).db.rows.Keys)
  {
    hide UploadAll, VfsPath;
    var rows := UploadAll(NOTHING, xs, tr, clock).db.rows;
    UploadedExactly(xs, tr, clock, p);
    UploadedExactly(xs, tr, clock, ROOT);
    if TreeIndex.Closed(rows.Keys) {
      ObjectKeys.RootIsAncestor(p);
      TreeIndex.ClosedHasAncestors(rows.Keys, ROOT, p);
    }
  }

  datatype Report = Report(totalFiles: nat, totalBytes: nat, duplicates: nat, uploadBytes: nat, errors: nat)

  /** The files that could be hashed, in crawl order. */
  function Hashed(files: seq<Source>, hashFails: nat -> bool): seq<Source> {
    if files == [] then []
    else Hashed(files[..|files| - 1], hashFails) +
         if hashFails(|files| - 1) then [] else [files[|files| - 1]]
  }

  /** Exactly the files whose hashing does not fail are kept, in crawl order: `ks` are their positions. */
  lemma {:induction false} HashedExact(files: seq<Source>, hashFails: nat -> bool) returns (ks: seq<nat>)
    ensures |ks| == |Hashed(files, hashFails)|
    ensures forall m | 0 <= m < |ks| :: ks[m] < |files| && files[ks[m]] == Hashed(files, hashFails)[m]
    ensures forall m, n | 0 <= m < n < |ks| :: ks[m] < ks[n]
    ensures forall i | 0 <= i < |files| :: i in ks <==> !hashFails(i)
  {
    if files == [] {
      ks := [];
    } else {
      var n := |files| - 1;
      ks := HashedExact(files[..n], hashFails);
      if !hashFails(n) { ks := ks + [n]; }
    }
  }

  method HashAll(files: seq<Source>, hashFails: nat -> bool) returns (hashed: seq<Source>)
    ensures hashed == Hashed(files, hashFails)
  {
    hashed := [];
    for i := 0 to |files|
      invariant hashed == Hashed(files[..i], hashFails)
    {
      assert files[..i + 1][..i] == files[..i];
      if !hashFails(i) {
        hashed := hashed + [files[i]];
      }
    }
    assert files[..|files|] == files;
  }

  /** The whole command on a bucket and a store; it returns the bucket's new contents. */
  method RunMigration(files: seq<Source>, bucket: Backend, meta: MetadataStore, hashFails: nat -> bool,
                      tr: Trouble, clock: nat -> int)
    returns (s3: Backend, report: Report)
    requires meta.Valid()
    modifies meta
    ensures meta.Valid()
    ensures
      var hashed := Hashed(files, hashFails);
      var g := UploadAll(Progress(bucket, old(meta.View()), 0, 0, 0), Firsts(hashed), tr, clock);
      && s3 == g.s3 && meta.View() == g.db
      && report.totalFiles == |hashed| == |Firsts(hashed)| + report.duplicates
      && report.totalBytes == SizeOf(hashed)
      && report.uploadBytes == g.bytes && report.errors == g.errors
      && report.uploadBytes == Sum<nat>(Successes(Firsts(hashed), tr), ContentSize(Firsts(hashed)))
      && report.errors + |Successes(Firsts(hashed), tr)| == |Firsts(hashed)|
  {
    hide VfsPath, Firsts, Hashed, SizeOf, Upserted, UniqueIds, References, Successes, ContentSize;
    var hashed := HashAll(files, hashFails);
    var total, totalBytes, duplicates, toUpload := Deduplicate(hashed);
    s3 := bucket;
    var bytes, errors := 0, 0;
    ghost var start := Progress(bucket, meta.View(), 0, 0, 0);
    for i := 0 to |toUpload|
      invariant meta.Valid()
      invariant
        var g := UploadAll(start, toUpload[..i], tr, clock);
        s3 == g.s3 && meta.View() == g.db && bytes == g.bytes && errors == g.errors
    {
      var x := toUpload[i];
      assert toUpload[..i + 1][..i] == toUpload[..i];
      var path := VfsPath(x);
      if path.Err? || tr.readFails(i) || tr.putFails(i) {
        errors := errors + 1;
      } else {
        s3 := s3[path.value := x.content];
        bytes := bytes + |x.content|;
        var _ := meta.Upsert(path.value, MigratedRow(x, clock(i)));
      }
    }
    assert toUpload[..|toUpload|] == toUpload;
    UploadCounts(start, toUpload, tr, clock);
    report := Report(total, totalBytes, duplicates, bytes, errors);
  }
}
