/**
 `TierRouter` (fvfsd/src/router.rs) as an object: three backends, the metadata store and the
 promotion channel, updated in place. Each method is proved to do what its function in `Protocol`
 says, result and whole state; backend failures are parameters.
 */
module Router {
  import opened Results
  import opened Paths
  import opened Tiers
  import opened Store
  import opened Protocol

  class TierRouter {
    const meta: MetadataStore
    var local: Backend
    var nas: Backend
    var s3: Backend
    var queue: seq<FvfsPath>

    ghost predicate Valid()
      reads this, meta
    {
      meta.Valid()
    }

    ghost function View(now: int): State
      reads this, meta
      requires Valid()
    {
      State(local, nas, s3, meta.View(), queue, now)
    }

    constructor (meta: MetadataStore)
      requires meta.Valid()
      ensures Valid() && this.meta == meta && View(0) == INITIAL_STATE.(db := meta.View())
    {
      this.meta := meta;
      local, nas, s3, queue := map[], map[], map[], [];
    }

    method Write(p: FvfsPath, data: Bytes, putFails: bool, now: int) returns (r: Result<()>)
      requires Valid()
      modifies this, meta
      ensures Valid()
      ensures (View(now), r) == Protocol.Write(old(View(now)), p, data, putFails)
    {
      if putFails {
        return Err(FvfsError.Backend);
      }
      local := local[p := data];
      var fileId := meta.Upsert(p, FileRow(data, now));
      EnsureParentDirs(p, now);
      var first := meta.WalEnqueue(fileId, ReplicateNas, now);
      if first.Err? {
        return Err(first.error);
      }
      var second := meta.WalEnqueue(fileId, UploadS3, now);
      r := if second.Ok? then Ok(()) else Err(ForeignKey);
    }

    method Mkdir(p: FvfsPath, now: int)
      requires Valid()
      modifies this, meta
      ensures Valid() && View(now) == Protocol.Mkdir(old(View(now)), p)
    {
      var _ := meta.Upsert(p, DirRow(now));
      EnsureParentDirs(p, now);
    }

    /** Walks up to the root, indexing every ancestor that has no row. */
    method EnsureParentDirs(p: FvfsPath, now: int)
      requires Valid()
      modifies meta
      ensures Valid() && meta.View() == EnsureParents(old(meta.View()), p, now)
    {
      var current := p;
      while current != "/"
        invariant Valid()
        invariant EnsureParents(meta.View(), current, now) == EnsureParents(old(meta.View()), p, now)
        decreases |current|
      {
        var parent := Parent(current).value;
        var existing := meta.Get(parent);
        if existing.None? {
          var _ := meta.Upsert(parent, DirRow(now));
        }
        current := parent;
      }
    }

    method Read(p: FvfsPath, f: Faults, now: int) returns (r: Result<Bytes>)
      requires Valid()
      modifies this, meta
      ensures Valid()
      ensures (View(now), r) == Protocol.Read(old(View(now)), p, f)
    {
      var row := meta.Get(p);
      if row.None? {
        return Err(NotFound);
      }
      if row.value.kind.Directory? {
        return Err(IsADirectory);
      }
      var bm := row.value.bitmask;
      if Local in bm {
        r := Fetch(local, p, f.local);
        if r.Err? {
          r := ReadFromNasOrS3(p, bm, f, now);
        }
      } else {
        r := ReadFromNasOrS3(p, bm, f, now);
      }
      if r.Ok? {
        meta.RecordAccess(row.value.id, now);
      }
    }

    method ReadFromNasOrS3(p: FvfsPath, bm: TierBitmask, f: Faults, ghost now: int) returns (r: Result<Bytes>)
      requires Valid()
      modifies `queue
      ensures Valid() && (View(now), r) == ReadColder(old(View(now)), p, bm, f)
    {
      if Nas in bm {
        r := Fetch(nas, p, f.nas);
      } else if S3 in bm {
        r := Fetch(s3, p, f.s3);
      } else {
        r := Err(NotFound);
      }
      if r.Ok? {
        queue := queue + [p];
      }
    }

    method Delete(p: FvfsPath, f: Faults, ghost now: int) returns (r: Result<()>)
      requires Valid()
      modifies this, meta
      ensures Valid()
      ensures (View(now), r) == Protocol.Delete(old(View(now)), p, f)
    {
      var row := meta.Get(p);
      if row.None? {
        return Err(NotFound);
      }
      var bm := row.value.bitmask;
      if Local in bm && !f.local {
        local := local - {p};
      }
      if Nas in bm && !f.nas {
        nas := nas - {p};
      }
      if S3 in bm && !f.s3 {
        s3 := s3 - {p};
      }
      meta.Delete(p);
      r := Ok(());
    }

    method EvictFromTier(p: FvfsPath, t: Tier, fails: bool, ghost now: int) returns (r: Result<()>)
      requires Valid()
      modifies this, meta
      ensures Valid()
      ensures (View(now), r) == Evict(old(View(now)), p, t, fails)
    {
      var row := meta.Get(p);
      if row.None? {
        return Err(NotFound);
      }
      if !SafeToEvictFrom(row.value.bitmask, t) {
        return Err(NotSafeToEvict);
      }
      if fails {
        return Err(FvfsError.Backend);
      }
      if t.Local? {
        if p !in local {
          return Err(NotFound);
        }
        local := local - {p};
      } else {
        if p !in nas {
          return Err(NotFound);
        }
        nas := nas - {p};
      }
      meta.SetTierBitmask(row.value.id, row.value.bitmask - {t});
      r := Ok(());
    }
  }
}
