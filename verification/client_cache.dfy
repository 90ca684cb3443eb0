/**
 The client's content-addressed read cache (fvfsc/src/local_cache.rs) and the cached read of
 fvfsc/src/fuse_handler.rs: a hit can only return what the daemon holds.
 */
module ClientCache {
  import opened Collections
  import opened Results
  import opened Paths
  import opened Store
  import opened Protocol
  import opened SerialRuns
  import opened Router
  import opened WalProperties
  import Fuse

  /** A cache file: its bytes and modification time. It is stored under the digest of what was put. */
  datatype Blob = Blob(data: Bytes, mtime: int)

  type Blobs = map<Hash, Blob>

  /** Every file is stored under its own digest. */
  ghost predicate Addressed(files: Blobs) {
    forall h | h in files :: h == Sha256(files[h].data)
  }

  /** `put`: nothing changes when the digest is cached already. */
  function Stored(files: Blobs, data: Bytes, fails: bool, now: int): Blobs {
    if fails || Sha256(data) in files then files else files[Sha256(data) := Blob(data, now)]
  }

  /**
   A put that does not fail leaves its bytes cached under their digest, whether or not they were cached before;
   it touches no other file, and a put that fails changes nothing.
   */
  lemma StoredExactly(files: Blobs, data: Bytes, fails: bool, now: int)
    requires Addressed(files)
    ensures
      var files', h := Stored(files, data, fails, now), Sha256(data);
      && Addressed(files')
      && (if fails then files' == files else h in files' && files'[h].data == data)
      && (forall k | k in files :: k in files' && files'[k] == files[k])
      && (forall k | k in files' && k !in files :: k == h && files'[k] == Blob(data, now))
  {
  }

  ghost function SizeIn(files: Blobs): Hash -> nat {
    (h: Hash) => if h in files then |files[h].data| else 0
  }

  ghost function Used(files: Blobs): nat {
    Sum(files.Keys, SizeIn(files))
  }

  lemma UsedWithout(files: Blobs, h: Hash)
    requires h in files
    ensures Used(files - {h}) + |files[h].data| == Used(files)
  {
    SumRemove(files.Keys, SizeIn(files), h);
    assert (files - {h}).Keys == files.Keys - {h};
    SumSame(files.Keys - {h}, SizeIn(files), SizeIn(files - {h}));
  }

  // ---- Eviction

  /** A cache file as the eviction collects it. */
  datatype Entry = Entry(mtime: int, hash: Hash, size: nat)

  function Time(e: Entry): real {
    e.mtime as real
  }

  function Target(used: nat, maxBytes: nat): nat {
    Min(used * 3 / 4, maxBytes)
  }

  /** `es` lists the cache files, each once, with their times and sizes. */
  ghost predicate Collected(es: seq<Entry>, files: Blobs, hs: set<Hash>) {
    && (forall e | e in es :: e.hash in hs && e.hash in files && e == EntryOf(files, e.hash))
    && (forall h | h in hs :: h in files && EntryOf(files, h) in es)
    && Distinct(es)
  }

  function EntryOf(files: Blobs, h: Hash): Entry
    requires h in files
  {
    Entry(files[h].mtime, h, |files[h].data|)
  }

  /** What the loop leaves after some of the entries, oldest first: the cache and the bytes freed. */
  datatype Sweep = Sweep(files: Blobs, freed: nat)

  function SweepAll(files: Blobs, es: seq<Entry>, used: nat, target: nat, removeFails: Hash -> bool): Sweep {
    if es == [] then Sweep(files, 0)
    else
      SweepNext(SweepAll(files, es[..|es| - 1], used, target, removeFails), es[|es| - 1], used, target, removeFails)
  }

  function SweepNext(s: Sweep, e: Entry, used: nat, target: nat, removeFails: Hash -> bool): Sweep {
    if used - s.freed <= target || removeFails(e.hash) then s
    else Sweep(s.files - {e.hash}, s.freed + e.size)
  }

  lemma SweepAllSnoc(files: Blobs, es: seq<Entry>, i: nat, used: nat, target: nat, removeFails: Hash -> bool)
    requires i < |es|
    ensures SweepAll(files, es[..i + 1], used, target, removeFails) ==
            SweepNext(SweepAll(files, es[..i], used, target, removeFails), es[i], used, target, removeFails)
  {
    assert es[..i + 1][..i] == es[..i];
  }

  lemma {:induction false} SweepStops(files: Blobs, es: seq<Entry>, i: nat, used: nat, target: nat,
                                      removeFails: Hash -> bool)
    requires i <= |es| && used - SweepAll(files, es[..i], used, target, removeFails).freed <= target
    ensures SweepAll(files, es, used, target, removeFails) == SweepAll(files, es[..i], used, target, removeFails)
  {
    if i == |es| {
      assert es[..i] == es;
    } else {
      var n := |es| - 1;
      assert es[..n][..i] == es[..i];
      SweepStops(files, es[..n], i, used, target, removeFails);
    }
  }

  /** Entries not yet reached are still there; nothing is added or changed; the sizes add up. */
  ghost predicate Swept(files: Blobs, es: seq<Entry>, i: nat, s: Sweep)
    requires i <= |es|
  {
    && (forall h | h in s.files :: h in files && s.files[h] == files[h])
    && (forall j | i <= j < |es| :: es[j].hash in s.files)
    && Used(s.files) + s.freed == Used(files)
  }

  lemma SweptNext(files: Blobs, es: seq<Entry>, i: nat, s: Sweep, removed: bool)
    requires i < |es| && Collected(es, files, files.Keys) && Swept(files, es, i, s)
    ensures Swept(files, es, i + 1, if removed then Sweep(s.files - {es[i].hash}, s.freed + es[i].size) else s)
  {
    UsedWithout(s.files, es[i].hash);
    assert es[i] in es;
    forall j | i < j < |es| ensures es[j].hash != es[i].hash {
      assert es[j] in es;
    }
  }

  lemma NothingSwept(files: Blobs, es: seq<Entry>)
    requires Collected(es, files, files.Keys)
    ensures Swept(files, es, 0, Sweep(files, 0))
  {
    forall j | 0 <= j < |es| ensures es[j].hash in files { assert es[j] in es; }
  }

  lemma {:induction false} SweepAllSwept(files: Blobs, es: seq<Entry>, i: nat, used: nat, target: nat,
                                         removeFails: Hash -> bool)
    requires i <= |es| && Collected(es, files, files.Keys)
    ensures Swept(files, es, i, SweepAll(files, es[..i], used, target, removeFails))
  {
    hide Swept, Collected;
    if i == 0 {
      NothingSwept(files, es);
    } else {
      hide SweepAll;
      SweepAllSwept(files, es, i - 1, used, target, removeFails);
      SweepAllSnoc(files, es, i - 1, used, target, removeFails);
      var s := SweepAll(files, es[..i - 1], used, target, removeFails);
      SweptNext(files, es, i - 1, s, !(used - s.freed <= target || removeFails(es[i - 1].hash)));
    }
  }

  /** A file of the sweep that is still cached either was kept because enough was freed, or could not be removed. */
  lemma {:induction false} SweepTakes(files: Blobs, es: seq<Entry>, used: nat, target: nat, removeFails: Hash -> bool)
    ensures
      var s := SweepAll(files, es, used, target, removeFails);
      forall e | e in es && e.hash in s.files :: used - s.freed <= target || removeFails(e.hash)
  {
    if es == [] {
    } else {
      SweepTakes(files, es[..|es| - 1], used, target, removeFails);
    }
  }

  /** A file that cannot be removed stays. */
  lemma {:induction false} SweepKeepsFailed(files: Blobs, es: seq<Entry>, used: nat, target: nat,
                                            removeFails: Hash -> bool)
    ensures
      var s := SweepAll(files, es, used, target, removeFails);
      forall h | h in files && removeFails(h) :: h in s.files
  {
    if es == [] {
    } else {
      SweepKeepsFailed(files, es[..|es| - 1], used, target, removeFails);
    }
  }

  /** With every removal succeeding the sweep takes a prefix: once it keeps an entry it keeps the later ones. */
  lemma {:induction false} SweepTakesPrefix(files: Blobs, es: seq<Entry>, n: nat, used: nat, target: nat,
                                            removeFails: Hash -> bool, i: nat, j: nat)
    requires Collected(es, files, files.Keys) && (forall h | h in files :: !removeFails(h))
    requires i < j < n <= |es|
    ensures
      var s := SweepAll(files, es[..n], used, target, removeFails);
      es[i].hash in s.files ==> es[j].hash in s.files
    decreases n
  {
    hide SweepAll, Used;
    var m := n - 1;
    SweepAllSnoc(files, es, m, used, target, removeFails);
    assert es[i] in es && es[j] in es && es[..m][i] == es[i];
    SweepTakes(files, es[..m], used, target, removeFails);
    SweepAllSwept(files, es, m, used, target, removeFails);
    if j < m {
      SweepTakesPrefix(files, es, m, used, target, removeFails, i, j);
    }
  }

  /** With the file back, the cache would be over three quarters of what was used, or over its limit. */
  ghost predicate NeededFor(files: Blobs, b: Blob, used: nat, maxBytes: nat) {
    4 * (Used(files) + |b.data|) > 3 * used || Used(files) + |b.data| > maxBytes
  }

  /** The last entry removed was needed: until it went, the target was not met. */
  lemma {:induction false} SweepLastNeeded(files: Blobs, es: seq<Entry>, used: nat, target: nat,
                                           removeFails: Hash -> bool)
    ensures
      var s := SweepAll(files, es, used, target, removeFails);
      s.files != files ==> exists e :: e in es && e.hash !in s.files && used - s.freed + e.size > target
  {
    if es == [] {
    } else {
      var n := |es| - 1;
      SweepLastNeeded(files, es[..n], used, target, removeFails);
      var before := SweepAll(files, es[..n], used, target, removeFails);
      var s := SweepAll(files, es, used, target, removeFails);
      if s != before {
        assert es[n] in es && es[n].hash !in s.files;
      } else if s.files != files {
        var e :| e in es[..n] && e.hash !in s.files && used - s.freed + e.size > target;
        assert e in es;
      }
    }
  }

  /**
   Whatever removals fail, the files that fail stay, and the cache ends at most at three quarters of what was used
   and at most at its limit, or everything left in it failed to go. The eviction goes no further than it must: with
   one of the files that went back, the cache would be over three quarters, or over its limit.
   */
  lemma SweepWhateverFails(files: Blobs, es: seq<Entry>, maxBytes: nat, removeFails: Hash -> bool)
    requires Collected(es, files, files.Keys)
    ensures
      var s := SweepAll(files, es, Used(files), Target(Used(files), maxBytes), removeFails);
      && (forall h | h in files && removeFails(h) :: h in s.files)
      && ((4 * Used(s.files) <= 3 * Used(files) && Used(s.files) <= maxBytes)
          || forall h | h in s.files :: removeFails(h))
      && (s.files != files ==>
            exists h :: h in files && h !in s.files && NeededFor(s.files, files[h], Used(files), maxBytes))
  {
    hide SweepAll, Used;
    var used, target := Used(files), Target(Used(files), maxBytes);
    var s := SweepAll(files, es, used, target, removeFails);
    assert es[..|es|] == es;
    SweepAllSwept(files, es, |es|, used, target, removeFails);
    SweepKeepsFailed(files, es, used, target, removeFails);
    SweepTakes(files, es, used, target, removeFails);
    forall h | h in s.files && used - s.freed > target ensures removeFails(h) { assert EntryOf(files, h) in es; }
    SweepLastNeeded(files, es, used, target, removeFails);
    if s.files != files {
      var e :| e in es && e.hash !in s.files && used - s.freed + e.size > target;
      assert e.hash in files && NeededFor(s.files, files[e.hash], used, maxBytes);
    }
  }

  /**
   The cache after an eviction: it drops by exactly what was freed, whatever removals fail; when none does it
   is at most three quarters of what was used and at most the limit, and nothing that went is younger than
   anything that stayed.
   */
  lemma SweepMeetsTarget(files: Blobs, es: seq<Entry>, maxBytes: nat, removeFails: Hash -> bool)
    requires Collected(es, files, files.Keys) && Ranked(es, Time, Time)
    ensures
      var used := Used(files);
      var s := SweepAll(files, es, used, Target(used, maxBytes), removeFails);
      && Used(s.files) + s.freed == used
      && (forall h | h in s.files :: h in files && s.files[h] == files[h])
      && ((forall h | h in files :: !removeFails(h)) ==>
            && 4 * Used(s.files) <= 3 * used && Used(s.files) <= maxBytes
            && forall h, k | h in files && h !in s.files && k in s.files :: files[h].mtime <= files[k].mtime)
  {
    var used := Used(files);
    var s := SweepAll(files, es, used, Target(used, maxBytes), removeFails);
    SweepAllSwept(files, es, |es|, used, Target(used, maxBytes), removeFails);
    assert es[..|es|] == es;
    SweepTakes(files, es, used, Target(used, maxBytes), removeFails);
    if forall h | h in files :: !removeFails(h) {
      if s.files != map[] {
        var h :| h in s.files;
        assert EntryOf(files, h) in es;
      }
      forall h, k | h in files && h !in s.files && k in s.files ensures files[h].mtime <= files[k].mtime {
        SweptAreOlder(files, es, used, Target(used, maxBytes), removeFails, h, k);
      }
    }
  }

  lemma SweptAreOlder(files: Blobs, es: seq<Entry>, used: nat, target: nat, removeFails: Hash -> bool, h: Hash, k: Hash)
    requires Collected(es, files, files.Keys) && Ranked(es, Time, Time) && (forall x | x in files :: !removeFails(x))
    requires
      var s := SweepAll(files, es, used, target, removeFails);
      h in files && h !in s.files && k in s.files && k in files
    ensures files[h].mtime <= files[k].mtime
  {
    assert EntryOf(files, h) in es && EntryOf(files, k) in es;
    var i :| 0 <= i < |es| && es[i] == EntryOf(files, h);
    var j :| 0 <= j < |es| && es[j] == EntryOf(files, k);
    assert es[..|es|] == es;
    if j < i {
      SweepTakesPrefix(files, es, |es|, used, target, removeFails, j, i);
    } else {
      assert i < j;
      assert Before(es[i], es[j], Time, Time);
      assert Time(es[i]) <= Time(es[j]);
    }
  }

  class LocalCache {
    const maxBytes: nat
    var files: Blobs

    ghost predicate Valid()
      reads this
    {
      Addressed(files)
    }

    constructor (maxBytes: nat)
      ensures Valid() && files == map[] && this.maxBytes == maxBytes
    {
      this.maxBytes := maxBytes;
      files := map[];
    }

    method GetByHash(h: Hash, fails: bool) returns (r: Option<Bytes>)
      requires Valid()
      ensures r.Some? <==> h in files && !fails
      ensures r.Some? ==> h == Sha256(r.value)
    {
      r := if fails || h !in files then None else Some(files[h].data);
    }

    method Put(data: Bytes, fails: bool, now: int) returns (h: Hash)
      requires Valid()
      modifies this
      ensures Valid() && files == Stored(old(files), data, fails, now) && h == Sha256(data)
      ensures if fails then files == old(files) else h in files && files[h].data == data
    {
      h := Sha256(data);
      if !fails && h !in files {
        files := files[h := Blob(data, now)];
      }
    }

    method TotalBytes() returns (bytes: nat)
      ensures bytes == Used(files)
    {
      bytes := 0;
      var todo := files.Keys;
      while todo != {}
        invariant todo <= files.Keys
        invariant bytes + Sum(todo, SizeIn(files)) == Used(files)
        decreases |todo|
      {
        var h :| h in todo;
        SumRemove(todo, SizeIn(files), h);
        bytes, todo := bytes + |files[h].data|, todo - {h};
      }
    }

    method CollectEntries() returns (es: seq<Entry>)
      ensures Collected(es, files, files.Keys)
    {
      es := [];
      var todo := files.Keys;
      while todo != {}
        invariant todo <= files.Keys
        invariant Collected(es, files, files.Keys - todo)
        decreases |todo|
      {
        var h :| h in todo;
        assert EntryOf(files, h) !in es;
        es, todo := es + [EntryOf(files, h)], todo - {h};
      }
      assert files.Keys - todo == files.Keys;
    }

    /** Removes the oldest files until a quarter of what was used, and whatever exceeds the limit, is gone. */
    method EvictIfNeeded(removeFails: Hash -> bool) returns (freed: nat, ghost swept: seq<Entry>)
      requires Valid()
      modifies this
      ensures Valid()
      ensures Used(old(files)) <= maxBytes ==> files == old(files) && freed == 0
      ensures Used(old(files)) > maxBytes ==>
                && Collected(swept, old(files), old(files).Keys) && Ranked(swept, Time, Time)
                && Sweep(files, freed) == SweepAll(old(files), swept, Used(old(files)),
                                                   Target(Used(old(files)), maxBytes), removeFails)
      ensures Used(files) + freed == Used(old(files))
      ensures forall h | h in old(files) && removeFails(h) :: h in files
      ensures Used(files) <= maxBytes || forall h | h in files :: removeFails(h)
      ensures (forall h | h in old(files) :: !removeFails(h)) && Used(old(files)) > maxBytes ==>
                && 4 * Used(files) <= 3 * Used(old(files))
                && forall h, k | h in old(files) && h !in files && k in files :: old(files)[h].mtime <= files[k].mtime
      ensures files != old(files) ==>
                exists h :: h in old(files) && h !in files
                            && NeededFor(files, old(files)[h], Used(old(files)), maxBytes)
      ensures (forall h | h in old(files) :: !removeFails(h)) ==> Used(files) <= maxBytes
    {
      freed, swept := 0, [];
      var used := TotalBytes();
      if used <= maxBytes {
        return;
      }
      var all := CollectEntries();
      var entries := Sort(all, Time);
      PermutedDistinct(all, entries);
      SortOrders(all, Time);
      swept := entries;
      freed := RemoveUntil(entries, used, Target(used, maxBytes), removeFails);
      SweepMeetsTarget(old(files), entries, maxBytes, removeFails);
      SweepWhateverFails(old(files), entries, maxBytes, removeFails);
    }

    method RemoveUntil(entries: seq<Entry>, used: nat, target: nat, removeFails: Hash -> bool) returns (freed: nat)
      requires Valid()
      modifies this
      ensures Valid()
      ensures Sweep(files, freed) == SweepAll(old(files), entries, used, target, removeFails)
    {
      freed := 0;
      var i := 0;
      while i < |entries| && used - freed > target
        invariant 0 <= i <= |entries| && Valid()
        invariant Sweep(files, freed) == SweepAll(old(files), entries[..i], used, target, removeFails)
      {
        assert entries[..i + 1][..i] == entries[..i];
        if !removeFails(entries[i].hash) {
          files := files - {entries[i].hash};
          freed := freed + entries[i].size;
        }
        i := i + 1;
      }
      assert entries[..|entries|] == entries;
      if used - freed <= target {
        SweepStops(old(files), entries, i, used, target, removeFails);
      }
    }
  }

  // ---- Digests belong to files

  ghost predicate DirsUnhashed(rows: Rows) {
    forall p | p in rows && rows[p].kind.Directory? :: rows[p].hash == NoHash
  }

  lemma OnlyMarksUnhashed(s: State, s': State)
    requires OnlyMarks(s, s') && DirsUnhashed(s.db.rows)
    ensures DirsUnhashed(s'.db.rows)
  {
  }

  lemma IndexUnhashed(db: Db, p: FvfsPath, row: Row, now: int)
    requires DirsUnhashed(db.rows) && (row.kind.Directory? ==> row.hash == NoHash)
    ensures DirsUnhashed(EnsureParents(Upserted(db, p, row), p, now).rows)
  {
  }

  lemma AttemptUnhashed(s: State, w: nat, f: Faults, putFails: bool)
    requires DirsUnhashed(s.db.rows)
    ensures DirsUnhashed(Attempt(s, w, f, putFails).db.rows)
  {
    if Live(s, w) && PathOfId(s.db, s.db.wal[w].fileId).Some? {
      var p, op := PathOfId(s.db, s.db.wal[w].fileId).value, s.db.wal[w].op;
      RunEntryTables(s, p, op, f, putFails);
      OnlyMarksUnhashed(s, RunEntry(s, p, op, f, putFails).0);
    }
  }

  lemma StepUnhashed(s: State, e: Event)
    requires DirsUnhashed(s.db.rows)
    ensures DirsUnhashed(Step(s, e).db.rows)
  {
    match e
    case WriteEv(p, d, x) =>
      var db1 := Upserted(s.db, p, FileRow(d, s.clock));
      IndexUnhashed(s.db, p, FileRow(d, s.clock), s.clock);
      EnqueueBothKeepsRows(EnsureParents(db1, p, s.clock), db1.lastRowid, s.clock);
    case MkdirEv(p) => IndexUnhashed(s.db, p, DirRow(s.clock), s.clock);
    case ReadEv(p, f) => ReadKeeps(s, p, f); OnlyMarksUnhashed(s, Read(s, p, f).0);
    case DeleteEv(p, f) =>
    case EvictEv(p, t, x) =>
    case PromoteEv(f, x) => PromoteTables(s, f, x); OnlyMarksUnhashed(s, Promote(s, f, x));
    case AttemptEv(w, f, x) => AttemptUnhashed(s, w, f, x);
    case RestartEv =>
    case ClockEv(now) =>
  }

  lemma {:induction false} RunUnhashed(es: seq<Event>)
    ensures DirsUnhashed(Run(es).db.rows)
  {
    if es == [] {
    } else {
      RunUnhashed(es[..|es| - 1]);
      StepUnhashed(Run(es[..|es| - 1]), es[|es| - 1]);
    }
  }

  // ---- The cached read

  /** A row whose digest is set is a file's, and the digest names the content the daemon holds. */
  lemma HashMeansFile(s: State, p: FvfsPath, d: Bytes)
    requires Inv(s) && DirsUnhashed(s.db.rows) && p in s.db.rows && s.db.rows[p].hash == Sha256(d)
    ensures s.db.rows[p].kind.File? && Content(s.db.rows[p]) == d
  {
  }

  /** The digest a stat reports: none for a missing path or a directory. */
  function Reported(rows: Rows, p: FvfsPath): Hash {
    if p in rows then rows[p].hash else NoHash
  }

  method Stat(router: TierRouter, p: FvfsPath) returns (h: Hash)
    ensures h == Reported(router.meta.rows, p)
    ensures DirsUnhashed(router.meta.rows) && p in router.meta.rows && router.meta.rows[p].kind.Directory? ==>
              h == NoHash
    ensures p in router.meta.rows && router.meta.rows[p].hash.Sha256? ==> h == Sha256(Content(router.meta.rows[p]))
  {
    var row := router.meta.Get(p);
    h := if row.Some? then row.value.hash else NoHash;
  }

  /**
   The rest of a client read, some time after the stat: a cached file with the digest reported then, or
   else what the daemon holds now. Either way the answer is the requested slice, and the tree is untouched.
   */
  method CachedRead(router: TierRouter, cache: LocalCache, p: FvfsPath, reported: Hash, offset: int, size: nat,
                    f: Faults, cacheFails: bool, now: int)
    returns (r: Result<Bytes>, hit: bool)
    requires router.Valid() && cache.Valid() && Inv(router.View(now))
    modifies router, router.meta, cache
    ensures router.Valid() && cache.Valid() && Abs(router.meta.rows) == old(Abs(router.meta.rows))
    ensures hit == (reported.Sha256? && reported in old(cache.files) && !cacheFails)
    ensures hit ==>
              && r == Ok(Fuse.Slice(reported.content, offset, size))
              && router.View(now) == old(router.View(now)) && cache.files == old(cache.files)
    ensures !hit ==>
              && router.View(now) == Read(old(router.View(now)), p, f).0
              && r.Ok? == Read(old(router.View(now)), p, f).1.Ok?
              && (r.Ok? ==> p in old(router.meta.rows) && old(router.meta.rows)[p].kind.File?
                            && r.value == Fuse.Slice(Content(old(router.meta.rows)[p]), offset, size)
                            && cache.files ==
                               Stored(old(cache.files), Content(old(router.meta.rows)[p]), cacheFails, now))
  {
    hide Read, Abs, Inv, UniqueIds, References, Fuse.Slice;
    hit := false;
    ghost var start := router.View(now);
    if reported != NoHash {
      var cached := cache.GetByHash(reported, cacheFails);
      if cached.Some? {
        return Ok(Fuse.Slice(cached.value, offset, size)), true;
      }
    }
    var got := router.Read(p, f, now);
    ReadRefines(start, p, f);
    ReadCurrent(start, p, f);
    if got.Err? {
      return Err(got.error), false;
    }
    var _ := cache.Put(got.value, cacheFails, now);
    r := Ok(Fuse.Slice(got.value, offset, size));
  }

  // ---- Runs of a daemon and a client

  /** Daemon operations, cache writes of any bytes, and sweeps of the cache, in any order. */
  datatype WorldEvent =
    | DaemonEv(event: Event)
    | CachePutEv(data: Bytes, fails: bool, now: int)
    | SweepEv(entries: seq<Entry>, used: nat, target: nat, removeFails: Hash -> bool)

  /** The daemon's operations so far and the client's cache. */
  datatype World = World(es: seq<Event>, files: Blobs)

  function WorldStep(w: World, e: WorldEvent): World {
    match e
    case DaemonEv(event) => w.(es := w.es + [event])
    case CachePutEv(data, fails, now) => w.(files := Stored(w.files, data, fails, now))
    case SweepEv(entries, used, target, removeFails) =>
      w.(files := SweepAll(w.files, entries, used, target, removeFails).files)
  }

  function WorldRun(ws: seq<WorldEvent>): World {
    if ws == [] then World([], map[]) else WorldStep(WorldRun(ws[..|ws| - 1]), ws[|ws| - 1])
  }

  lemma {:induction false} SweepKeepsAddressed(files: Blobs, es: seq<Entry>, used: nat, target: nat,
                                               removeFails: Hash -> bool)
    requires Addressed(files)
    ensures Addressed(SweepAll(files, es, used, target, removeFails).files)
  {
    if es == [] {
    } else {
      SweepKeepsAddressed(files, es[..|es| - 1], used, target, removeFails);
    }
  }

  lemma {:induction false} WorldAddressed(ws: seq<WorldEvent>)
    ensures Addressed(WorldRun(ws).files)
  {
    if ws == [] {
    } else {
      var w, e := WorldRun(ws[..|ws| - 1]), ws[|ws| - 1];
      WorldAddressed(ws[..|ws| - 1]);
      if e.SweepEv? {
        SweepKeepsAddressed(w.files, e.entries, e.used, e.target, e.removeFails);
      }
    }
  }

  /**
   Over every run of daemon operations, cache writes and cache evictions, with the stat at one point and the
   rest of the read at any later one: if the cache then has the digest reported, its bytes are the file the
   tree held at the stat, the bytes a healthy daemon would have served; if not, what the daemon serves is the
   file the tree holds now.
   */
  lemma ClientReadCurrent(ws: seq<WorldEvent>, more: seq<WorldEvent>, p: FvfsPath, f: Faults)
    ensures
      var before, now := WorldRun(ws), WorldRun(ws + more);
      var h := Reported(Run(before.es).db.rows, p);
      && (h != NoHash && h in now.files ==>
            var m, d := SpecRun(before.es), now.files[h].data;
            p in m && m[p] == FileNode(d) && Read(Run(before.es), p, HEALTHY).1 == Ok(d))
      && (var r, m := Read(Run(now.es), p, f).1, SpecRun(now.es);
          r.Ok? ==> p in m && m[p] == FileNode(r.value))
  {
    hide Run, Read, UniqueIds, References;
    var before, now := WorldRun(ws), WorldRun(ws + more);
    var s := Run(before.es);
    WorldAddressed(ws + more);
    RunUnhashed(before.es);
    RunInvariant(before.es);
    SerialRefinement(before.es, p, HEALTHY);
    SerialRefinement(now.es, p, f);
    var h := Reported(s.db.rows, p);
    if h != NoHash && h in now.files {
      HashMeansFile(s, p, now.files[h].data);
      assert p in Abs(s.db.rows);
    }
  }
}
