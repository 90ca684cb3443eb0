/**
 When `write` reports success. It queues its WAL entries under the id `upsert` answered with, and the
 foreign key refuses an id no row has: by then the disk and the index hold the new bytes.
 */
module WriteResults {
  import opened Results
  import opened Paths
  import opened Store
  import opened Protocol
  import opened SerialRuns
  import opened WalProperties

  // ---- Row ids after indexing the ancestors

  lemma HasIdInIds(rows: Rows, id: nat)
    ensures HasId(rows, id) <==> id in Ids(rows)
  {
  }

  /** After an insert the next id is one further. */
  lemma NextAfterInsert(ids: set<nat>)
    ensures NextRowId(ids + {NextRowId(ids)}) == NextRowId(ids) + 1
  {
    var n := NextRowId(ids);
    var m := NextRowId(ids + {n});
    assert n in ids + {n};
    assert m - 1 in ids + {n};
  }

  lemma InsertIds(db: Db, p: FvfsPath, row: Row)
    requires p !in db.rows
    ensures Ids(Upserted(db, p, row).rows) == Ids(db.rows) + {NextRowId(Ids(db.rows))}
  {
    hide UniqueIds, References;
    var db1, n := Upserted(db, p, row), NextRowId(Ids(db.rows));
    assert db1.rows[p].id == n;
    forall id ensures id in Ids(db1.rows) <==> id in Ids(db.rows) || id == n {
      if id in Ids(db.rows) {
        var q :| q in db.rows && db.rows[q].id == id;
        assert q in db1.rows && db1.rows[q].id == id;
      }
      if id == n { assert p in db1.rows; }
    }
  }

  /** `after` has the ids of `before` and `k` more from `n` on. */
  ghost predicate GainsIds(before: set<nat>, after: set<nat>, n: nat, k: nat) {
    forall id :: id in after <==> id in before || n <= id < n + k
  }

  lemma EnsureParentsStep(db: Db, p: FvfsPath, now: int)
    requires p != "/"
    ensures
      var up := Parent(p).value;
      EnsureParents(db, p, now) == EnsureParents(if up in db.rows then db else Upserted(db, up, DirRow(now)), up, now)
  {
    hide UniqueIds, References, Upserted;
  }

  /** The parent is missing, or the same ancestors are. */
  lemma MissingStep(keys: set<FvfsPath>, p: FvfsPath)
    requires p != "/"
    ensures
      var up := Parent(p).value;
      if up in keys then Ancestors(p) - keys == Ancestors(up) - keys
      else |Ancestors(p) - keys| == |Ancestors(up) - (keys + {up})| + 1
  {
    var up := Parent(p).value;
    AncestorsExact(up, up);
    if up in keys {
      assert Ancestors(p) - keys == Ancestors(up) - keys;
    } else {
      assert Ancestors(p) - keys == Ancestors(up) - (keys + {up}) + {up};
    }
  }

  lemma GainsOneMore(ids: set<nat>, ids1: set<nat>, after: set<nat>, n: nat, n1: nat, k: nat, k1: nat)
    requires ids1 == ids + {n} && n1 == n + 1 && k == k1 + 1 && GainsIds(ids1, after, n1, k1)
    ensures GainsIds(ids, after, n, k)
  {
  }

  lemma RootIds(db: Db, now: int)
    ensures GainsIds(Ids(db.rows), Ids(EnsureParents(db, ROOT, now).rows), NextRowId(Ids(db.rows)),
                     |Ancestors(ROOT) - db.rows.Keys|)
  {
    hide UniqueIds, References, Ids;
    assert Ancestors(ROOT) - db.rows.Keys == {};
  }

  /** What indexing the ancestors does to the ids. */
  ghost predicate AncestorsGetIds(db: Db, p: FvfsPath, now: int) {
    GainsIds(Ids(db.rows), Ids(EnsureParents(db, p, now).rows), NextRowId(Ids(db.rows)), |Ancestors(p) - db.rows.Keys|)
  }

  lemma ParentPresent(db: Db, p: FvfsPath, now: int)
    requires p != "/" && Parent(p).value in db.rows && AncestorsGetIds(db, Parent(p).value, now)
    ensures AncestorsGetIds(db, p, now)
  {
    hide UniqueIds, References, Ids, EnsureParents, Ancestors, NextRowId, GainsIds, Canonical;
    EnsureParentsStep(db, p, now);
    MissingStep(db.rows.Keys, p);
  }

  lemma ParentMissing(db: Db, p: FvfsPath, now: int)
    requires p != "/" && Parent(p).value !in db.rows
    requires AncestorsGetIds(Upserted(db, Parent(p).value, DirRow(now)), Parent(p).value, now)
    ensures AncestorsGetIds(db, p, now)
  {
    hide UniqueIds, References, Ids, EnsureParents, Ancestors, NextRowId, GainsIds, Canonical, Upserted, Parent;
    var up := Parent(p).value;
    var db1 := Upserted(db, up, DirRow(now));
    assert EnsureParents(db, p, now) == EnsureParents(db1, up, now) by { EnsureParentsStep(db, p, now); }
    assert Ids(db1.rows) == Ids(db.rows) + {NextRowId(Ids(db.rows))} by { InsertIds(db, up, DirRow(now)); }
    assert NextRowId(Ids(db1.rows)) == NextRowId(Ids(db.rows)) + 1 by { NextAfterInsert(Ids(db.rows)); }
    assert |Ancestors(p) - db.rows.Keys| == |Ancestors(up) - db1.rows.Keys| + 1 by { MissingAfterInsert(db, p, now); }
    GainsOneMore(Ids(db.rows), Ids(db1.rows), Ids(EnsureParents(db1, up, now).rows), NextRowId(Ids(db.rows)),
                 NextRowId(Ids(db1.rows)), |Ancestors(p) - db.rows.Keys|, |Ancestors(up) - db1.rows.Keys|);
  }

  lemma MissingAfterInsert(db: Db, p: FvfsPath, now: int)
    requires p != "/" && Parent(p).value !in db.rows
    ensures
      var up := Parent(p).value;
      |Ancestors(p) - db.rows.Keys| == |Ancestors(up) - Upserted(db, up, DirRow(now)).rows.Keys| + 1
  {
    hide UniqueIds, References, Ancestors, Canonical, Upserted, Parent, NextRowId, Ids;
    var up := Parent(p).value;
    MissingStep(db.rows.Keys, p);
    InsertKeys(db, up, DirRow(now));
  }

  lemma InsertKeys(db: Db, p: FvfsPath, row: Row)
    ensures Upserted(db, p, row).rows.Keys == db.rows.Keys + {p}
  {
    hide UniqueIds, References, Canonical;
  }

  /** Indexing the missing ancestors hands out the next ids, one for each. */
  lemma {:induction false} EnsureParentIds(db: Db, p: FvfsPath, now: int)
    ensures AncestorsGetIds(db, p, now)
    decreases |p|
  {
    if p == "/" {
      RootIds(db, now);
    } else {
      hide AncestorsGetIds, UniqueIds, References, Canonical;
      var up := Parent(p).value;
      if up in db.rows {
        EnsureParentIds(db, up, now);
        ParentPresent(db, p, now);
      } else {
        EnsureParentIds(Upserted(db, up, DirRow(now)), up, now);
        ParentMissing(db, p, now);
      }
    }
  }

  lemma OverwriteIds(db: Db, p: FvfsPath, row: Row)
    requires p in db.rows
    ensures Ids(Upserted(db, p, row).rows) == Ids(db.rows)
  {
    hide UniqueIds, References;
    var db1 := Upserted(db, p, row);
    assert forall q | q in db.rows :: q in db1.rows && db1.rows[q].id == db.rows[q].id;
    assert forall q | q in db1.rows :: q in db.rows && db1.rows[q].id == db.rows[q].id;
  }

  // ---- The exact condition

  /** What a caller can check before a write that reaches the disk: its entries will have a row to refer to. */
  predicate Accepted(s: State, p: FvfsPath) {
    || p !in s.db.rows
    || HasId(s.db.rows, s.db.lastRowid)
    || var n := NextRowId(Ids(s.db.rows)); n <= s.db.lastRowid < n + |Ancestors(p) - s.db.rows.Keys|
  }

  /**
   A write reports success exactly when the put succeeds and: the path is new, or some row has the id inserted
   last, or a directory row the write itself adds happens to get that id. Whatever it reports, once the put
   has succeeded the new bytes are on the disk and in the index.
   */
  lemma WriteSucceedsIff(s: State, p: FvfsPath, d: Bytes, putFails: bool)
    ensures Write(s, p, d, putFails).1.Ok? <==> !putFails && Accepted(s, p)
    ensures
      var s' := Write(s, p, d, putFails).0;
      if putFails then s' == s
      else Holds(s'.local, p, d) && IsFile(s', p) && Content(s'.db.rows[p]) == d
  {
    if !putFails {
      hide Write, UniqueIds, References, Accepted;
      WriteStores(s, p, d);
      WriteResult(s, p, d);
      EntriesHaveRow(s, p, FileRow(d, s.clock), s.clock);
    } else {
      hide Accepted, UniqueIds, References;
    }
  }

  lemma WriteStores(s: State, p: FvfsPath, d: Bytes)
    ensures
      var s' := Write(s, p, d, false).0;
      IsFile(s', p) && Content(s'.db.rows[p]) == d
  {
    hide Write, UniqueIds, References;
    WriteTables(s, p, d);
  }

  /** Whether a row has the id the entries get, once the path and its ancestors are indexed. */
  lemma EntriesHaveRow(s: State, p: FvfsPath, row: Row, now: int)
    ensures
      var db1 := Upserted(s.db, p, row);
      HasId(EnsureParents(db1, p, now).rows, db1.lastRowid) <==> Accepted(s, p)
  {
    hide UniqueIds, References, Ids, HasId, EnsureParents, Ancestors, NextRowId;
    var db, db1 := s.db, Upserted(s.db, p, row);
    HasIdInIds(EnsureParents(db1, p, now).rows, db1.lastRowid);
    HasIdInIds(db.rows, db.lastRowid);
    EnsureParentIds(db1, p, now);
    if p in db.rows {
      OverwriteIds(db, p, row);
      assert db1.rows.Keys == db.rows.Keys;
    } else {
      HasIdInIds(db1.rows, db1.lastRowid);
      assert HasId(db1.rows, db1.lastRowid) by { OwnId(db1.rows, p); }
    }
  }

  lemma OwnId(rows: Rows, p: FvfsPath)
    requires p in rows
    ensures HasId(rows, rows[p].id)
  {
  }

  lemma WriteResult(s: State, p: FvfsPath, d: Bytes)
    ensures
      var db1 := Upserted(s.db, p, FileRow(d, s.clock));
      && (Write(s, p, d, false).1.Ok? <==> HasId(EnsureParents(db1, p, s.clock).rows, db1.lastRowid))
      && Write(s, p, d, false).0.local == s.local[p := d]
  {
    var db1 := Upserted(s.db, p, FileRow(d, s.clock));
    EnqueueBothEntries(EnsureParents(db1, p, s.clock), db1.lastRowid, s.clock);
    hide UniqueIds, References, HasId;
  }

  // ---- After a restart

  ghost predicate PositiveIds(rows: Rows) {
    forall p | p in rows :: rows[p].id >= 1
  }

  lemma IndexPositive(db: Db, p: FvfsPath, row: Row, now: int)
    requires PositiveIds(db.rows)
    ensures PositiveIds(EnsureParents(Upserted(db, p, row), p, now).rows)
  {
    hide UniqueIds, References, EnsureParents, Ids, HasId;
    var db1 := Upserted(db, p, row);
    var db2 := EnsureParents(db1, p, now);
    EnsureParentIds(db1, p, now);
    forall q | q in db2.rows ensures db2.rows[q].id >= 1 {
      OwnId(db2.rows, q);
      HasIdInIds(db2.rows, db2.rows[q].id);
      if db2.rows[q].id in Ids(db1.rows) {
        HasIdInIds(db1.rows, db2.rows[q].id);
        IdsPositive(db1.rows, db2.rows[q].id);
      }
    }
  }

  lemma IdsPositive(rows: Rows, id: nat)
    requires PositiveIds(rows) && HasId(rows, id)
    ensures id >= 1
  {
  }

  /** Ids stay positive, and only inserts move the id inserted last. */
  lemma StepPositive(s: State, e: Event)
    requires PositiveIds(s.db.rows)
    ensures PositiveIds(Step(s, e).db.rows)
    ensures !e.WriteEv? && !e.MkdirEv? && !e.RestartEv? ==> Step(s, e).db.lastRowid == s.db.lastRowid
  {
    hide UniqueIds, References;
    match e
    case WriteEv(p, d, x) =>
      var db1 := Upserted(s.db, p, FileRow(d, s.clock));
      IndexPositive(s.db, p, FileRow(d, s.clock), s.clock);
      EnqueueBothKeepsRows(EnsureParents(db1, p, s.clock), db1.lastRowid, s.clock);
    case MkdirEv(p) => IndexPositive(s.db, p, DirRow(s.clock), s.clock);
    case ReadEv(p, f) => ReadKeeps(s, p, f);
    case DeleteEv(p, f) =>
    case EvictEv(p, t, x) =>
    case PromoteEv(f, x) => PromoteTables(s, f, x);
    case AttemptEv(w, f, x) => AttemptPositive(s, w, f, x);
    case RestartEv =>
    case ClockEv(now) =>
  }

  lemma AttemptPositive(s: State, w: nat, f: Faults, x: bool)
    requires PositiveIds(s.db.rows)
    ensures
      var s' := Attempt(s, w, f, x);
      PositiveIds(s'.db.rows) && s'.db.lastRowid == s.db.lastRowid
  {
    hide UniqueIds, References, RunEntry;
    if Live(s, w) && PathOfId(s.db, s.db.wal[w].fileId).Some? {
      RunEntryTables(s, PathOfId(s.db, s.db.wal[w].fileId).value, s.db.wal[w].op, f, x);
    }
  }

  lemma {:induction false} RunPositive(es: seq<Event>)
    ensures PositiveIds(Run(es).db.rows)
  {
    hide PositiveIds, Step, UniqueIds, References;
    if es == [] {
      NonePositive();
    } else {
      RunPositive(es[..|es| - 1]);
      StepPositive(Run(es[..|es| - 1]), es[|es| - 1]);
    }
  }

  lemma NonePositive()
    ensures PositiveIds(map[])
  {
  }

  /** Nothing is inserted after the restart. */
  predicate NoInserts(es: seq<Event>) {
    forall e | e in es :: !e.WriteEv? && !e.MkdirEv?
  }

  lemma {:induction false} RestartedLastRowid(es: seq<Event>, more: seq<Event>)
    requires NoInserts(more)
    ensures Run(es + [RestartEv] + more).db.lastRowid == 0
  {
    hide PositiveIds, UniqueIds, References, RunFrom;
    if more == [] {
      RunFromSnoc(INITIAL_STATE, es, RestartEv);
      assert es + [RestartEv] + more == es + [RestartEv];
    } else {
      var n := |more| - 1;
      assert more[n] in more;
      RestartedLastRowid(es, more[..n]);
      var before := es + [RestartEv] + more[..n];
      RunPositive(before);
      RunFromSnoc(INITIAL_STATE, before, more[n]);
      hide Step;
      LastRowidStays(Run(before), more[n]);
      assert es + [RestartEv] + more == before + [more[n]];
    }
  }

  lemma LastRowidStays(s: State, e: Event)
    requires PositiveIds(s.db.rows) && s.db.lastRowid == 0 && !e.WriteEv? && !e.MkdirEv?
    ensures Step(s, e).db.lastRowid == 0
  {
    StepPositive(s, e);
    hide Step;
    if e.RestartEv? { RestartZero(s); }
  }

  lemma RestartZero(s: State)
    ensures Step(s, RestartEv).db.lastRowid == 0
  {
  }

  /**
   After any run and a restart, until something new is inserted, every overwrite is refused: the caller gets
   the foreign-key error although the disk and the index hold the new bytes.
   */
  lemma RestartRefusesOverwrites(es: seq<Event>, more: seq<Event>, p: FvfsPath, d: Bytes)
    requires NoInserts(more) && p in Run(es + [RestartEv] + more).db.rows
    ensures
      var (s', r) := Write(Run(es + [RestartEv] + more), p, d, false);
      && r == Err(ForeignKey)
      && Holds(s'.local, p, d) && IsFile(s', p) && Content(s'.db.rows[p]) == d
  {
    hide Run, Write, UniqueIds, References, Ids;
    var s := Run(es + [RestartEv] + more);
    RestartedLastRowid(es, more);
    RunPositive(es + [RestartEv] + more);
    WriteSucceedsIff(s, p, d, false);
    if HasId(s.db.rows, 0) { IdsPositive(s.db.rows, 0); }
    WriteErrors(s, p, d);
  }

  lemma WriteErrors(s: State, p: FvfsPath, d: Bytes)
    ensures Write(s, p, d, false).1.Err? ==> Write(s, p, d, false).1 == Err(ForeignKey)
  {
    hide UniqueIds, References, HasId;
  }

  /** For every path: written, the daemon restarted, written again, and refused. */
  lemma OverwriteRefused(p: FvfsPath, v1: Bytes, v2: Bytes)
    ensures
      var (s', r) := Write(Restart(Write(INITIAL_STATE, p, v1, false).0), p, v2, false);
      && r == Err(ForeignKey)
      && Holds(s'.local, p, v2) && IsFile(s', p) && Content(s'.db.rows[p]) == v2
  {
    hide Write, UniqueIds, References, Run, Restart;
    RestartedRun(p, v1);
    RestartRefusesOverwrites([WriteEv(p, v1, false)], [], p, v2);
  }

  lemma RestartedRun(p: FvfsPath, d: Bytes)
    ensures
      var s := Restart(Write(INITIAL_STATE, p, d, false).0);
      Run([WriteEv(p, d, false)] + [RestartEv] + []) == s && p in s.db.rows
  {
    hide Write, UniqueIds, References, RunFrom;
    var e := WriteEv(p, d, false);
    RunFromNothing();
    RunFromSnoc(INITIAL_STATE, [], e);
    RunFromSnoc(INITIAL_STATE, [e], RestartEv);
    assert [] + [e] == [e] && [e] + [RestartEv] + [] == [e] + [RestartEv];
    WriteTables(INITIAL_STATE, p, d);
  }

  lemma RunFromNothing()
    ensures RunFrom(INITIAL_STATE, []) == INITIAL_STATE
  {
  }
}
