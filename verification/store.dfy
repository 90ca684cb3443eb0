/**
 The metadata store (fvfs-core/src/metadata.rs): the `files` and `wal_pending` tables with their
 key constraints, each SQL statement as a function on the tables, and the class that runs them.
 */
module Store {
  import opened Collections
  import opened Results
  import opened Paths
  import opened Tiers

  type Bytes = seq<bv8>

  /** SHA-256 as a collision-free digest; directories store the empty text. */
  datatype Hash = NoHash | Sha256(content: Bytes)

  datatype Kind = File | Directory

  /** A row of `files`. Its path is the key it is stored under. */
  datatype Row = Row(id: nat, kind: Kind, size: nat, hash: Hash, bitmask: TierBitmask,
                     accessedAt: int, accessCount: nat)

  datatype WalOp = ReplicateNas | UploadS3

  /** A row of `wal_pending`, stored under its own id. */
  datatype WalEntry = WalEntry(fileId: nat, op: WalOp, enqueuedAt: int, attempts: nat)

  type Rows = map<FvfsPath, Row>
  type Wal = map<nat, WalEntry>

  /** Both tables and the connection's `last_insert_rowid()`. */
  datatype Tables = Tables(rows: Rows, wal: Wal, lastRowid: nat)

  ghost predicate UniqueIds(rows: Rows) {
    forall p, q | p in rows && q in rows && rows[p].id == rows[q].id :: p == q
  }

  predicate HasId(rows: Rows, id: nat) {
    exists p :: p in rows && rows[p].id == id
  }

  ghost predicate References(rows: Rows, wal: Wal) {
    forall w | w in wal :: HasId(rows, wal[w].fileId)
  }

  /** The primary key of `files` and the foreign key of `wal_pending`. */
  ghost predicate Schema(t: Tables) {
    UniqueIds(t.rows) && References(t.rows, t.wal)
  }

  const EMPTY_TABLES := Tables(map[], map[], 0)

  /** Tables as SQLite keeps them: every statement below lands back in this type. */
  type Db = t: Tables | Schema(t) witness EMPTY_TABLES

  // ---- Row ids

  function Ids(rows: Rows): set<nat> {
    set p | p in rows :: rows[p].id
  }

  lemma {:induction false} MaxExists(ids: set<nat>)
    requires ids != {}
    ensures exists m :: m in ids && forall i | i in ids :: i <= m
  {
    var x :| x in ids;
    if ids == {x} {
    } else {
      var rest := ids - {x};
      MaxExists(rest);
      var m :| m in rest && forall i | i in rest :: i <= m;
      var top := if x > m then x else m;
      assert forall i | i in ids :: i == x || i in rest;
      assert top in ids && forall i | i in ids :: i <= top;
    }
  }

  /** SQLite's choice without AUTOINCREMENT: one more than the largest id in use. */
  function NextRowId(ids: set<nat>): (id: nat)
    ensures id >= 1 && id !in ids
    ensures forall i | i in ids :: i < id
    ensures ids != {} ==> id - 1 in ids
  {
    if ids == {} then 1
    else
      MaxExists(ids);
      var m :| m in ids && forall i | i in ids :: i <= m;
      m + 1
  }

  // ---- Statements on `files`

  function FileRow(data: Bytes, now: int): Row {
    Row(0, File, |data|, Sha256(data), {Local}, now, 0)
  }

  function DirRow(now: int): Row {
    Row(0, Directory, 0, NoHash, ALL_TIERS, now, 0)
  }

  /** Inserts a row, or overwrites the one at the path; an overwrite keeps the id and leaves `lastRowid` alone. */
  function Upserted(db: Db, p: FvfsPath, row: Row): (r: Db)
    ensures r.wal == db.wal && p in r.rows
    ensures forall q | q in db.rows && q != p :: q in r.rows && r.rows[q] == db.rows[q]
    ensures forall q | q in r.rows :: q == p || q in db.rows
    ensures p in db.rows ==> r.rows[p].id == db.rows[p].id && r.lastRowid == db.lastRowid
    ensures p !in db.rows ==> r.rows[p].id == r.lastRowid && r.lastRowid !in Ids(db.rows)
    ensures r.rows[p] == row.(id := r.rows[p].id)
  {
    var id := if p in db.rows then db.rows[p].id else NextRowId(Ids(db.rows));
    RowPutKeepsSchema(db.rows, db.wal, p, row.(id := id));
    Tables(db.rows[p := row.(id := id)], db.wal, if p in db.rows then db.lastRowid else id)
  }

  /** A row with the id of the one it replaces, or with an unused one, keeps the keys in order. */
  lemma RowPutKeepsSchema(rows: Rows, wal: Wal, p: FvfsPath, row: Row)
    requires UniqueIds(rows) && References(rows, wal)
    requires if p in rows then row.id == rows[p].id else row.id !in Ids(rows)
    ensures UniqueIds(rows[p := row]) && References(rows[p := row], wal)
  {
    assert forall q | q in rows :: rows[q].id in Ids(rows);
    IdsKept(rows, rows[p := row], wal);
  }

  /** References survive a change that keeps every row and its id. */
  lemma IdsKept(rows: Rows, rows': Rows, wal: Wal)
    requires References(rows, wal)
    requires forall q | q in rows :: q in rows' && rows'[q].id == rows[q].id
    ensures References(rows', wal)
  {
    forall w | w in wal ensures HasId(rows', wal[w].fileId) {
      var p :| p in rows && rows[p].id == wal[w].fileId;
      assert p in rows' && rows'[p].id == wal[w].fileId;
    }
  }

  /** Overwrites the bitmask of the row with the id, if there is one. */
  function SetBitmask(db: Db, id: nat, bm: TierBitmask): (r: Db)
    ensures r.rows.Keys == db.rows.Keys && r.wal == db.wal && r.lastRowid == db.lastRowid
    ensures forall p | p in db.rows :: r.rows[p] == if db.rows[p].id == id then db.rows[p].(bitmask := bm)
                                                    else db.rows[p]
  {
    var rows := map p | p in db.rows :: if db.rows[p].id == id then db.rows[p].(bitmask := bm) else db.rows[p];
    IdsKept(db.rows, rows, db.wal);
    Tables(rows, db.wal, db.lastRowid)
  }

  /** Counts an access to the row with the id and stamps it with the time. */
  function Accessed(db: Db, id: nat, now: int): (r: Db)
    ensures r.rows.Keys == db.rows.Keys && r.wal == db.wal && r.lastRowid == db.lastRowid
    ensures forall p | p in db.rows ::
              r.rows[p] == db.rows[p].(accessedAt := r.rows[p].accessedAt, accessCount := r.rows[p].accessCount)
    ensures forall p | p in db.rows && db.rows[p].id == id ::
              r.rows[p].accessedAt == now && r.rows[p].accessCount == db.rows[p].accessCount + 1
    ensures forall p | p in db.rows && db.rows[p].id != id :: r.rows[p] == db.rows[p]
  {
    var rows := map p | p in db.rows ::
        if db.rows[p].id == id
        then db.rows[p].(accessedAt := now, accessCount := db.rows[p].accessCount + 1) else db.rows[p];
    IdsKept(db.rows, rows, db.wal);
    Tables(rows, db.wal, db.lastRowid)
  }

  /** Removes the row at the path, and by the cascade its entries in `wal_pending`. */
  function DeleteRow(db: Db, p: FvfsPath): (r: Db)
    ensures r.rows == db.rows - {p} && r.lastRowid == db.lastRowid
    ensures forall w | w in r.wal :: w in db.wal && r.wal[w] == db.wal[w]
    ensures forall w | w in db.wal ::
              w in r.wal <==> !(p in db.rows && db.wal[w].fileId == db.rows[p].id)
  {
    if p !in db.rows then
      assert db.rows - {p} == db.rows;
      db
    else
      var id := db.rows[p].id;
      var rows := db.rows - {p};
      var wal := map w | w in db.wal && db.wal[w].fileId != id :: db.wal[w];
      assert References(rows, wal) by {
        forall w | w in wal ensures HasId(rows, wal[w].fileId) {
          var q :| q in db.rows && db.rows[q].id == wal[w].fileId;
          assert q in rows && rows[q].id == wal[w].fileId;
        }
      }
      Tables(rows, wal, db.lastRowid)
  }

  /** The lookup of a row by its id. */
  function PathOfId(db: Db, id: nat): (r: Option<FvfsPath>)
    ensures r.Some? <==> HasId(db.rows, id)
    ensures r.Some? ==> r.value in db.rows && db.rows[r.value].id == id
  {
    if HasId(db.rows, id) then
      var p :| p in db.rows && db.rows[p].id == id;
      Some(p)
    else None
  }

  // ---- Statements on `wal_pending`

  /** Adds a WAL entry; the foreign key refuses it when no file has the id. */
  function Enqueue(db: Db, fileId: nat, op: WalOp, now: int): (r: Result<Db>)
    ensures r.Ok? <==> HasId(db.rows, fileId)
    ensures r.Err? ==> r == Err(ForeignKey)
    ensures r.Ok? ==>
              && r.value.rows == db.rows
              && r.value.lastRowid !in db.wal
              && r.value.wal == db.wal[r.value.lastRowid := WalEntry(fileId, op, now, 0)]
  {
    if HasId(db.rows, fileId) then
      var w := NextRowId(db.wal.Keys);
      Ok(Tables(db.rows, db.wal[w := WalEntry(fileId, op, now, 0)], w))
    else Err(ForeignKey)
  }

  /** Removes a WAL entry that is done. */
  function CompleteEntry(db: Db, w: nat): (r: Db)
  {
    Tables(db.rows, db.wal - {w}, db.lastRowid)
  }

  /** Counts a failed attempt against a WAL entry. */
  function RecordFailure(db: Db, w: nat): (r: Db)
    ensures r.rows == db.rows && r.lastRowid == db.lastRowid && r.wal.Keys == db.wal.Keys
    ensures forall v | v in db.wal && v != w :: r.wal[v] == db.wal[v]
    ensures w in db.wal ==> r.wal[w] == db.wal[w].(attempts := db.wal[w].attempts + 1)
  {
    if w in db.wal
    then Tables(db.rows, db.wal[w := db.wal[w].(attempts := db.wal[w].attempts + 1)], db.lastRowid)
    else db
  }

  // ---- The loop that indexes ancestors

  /** Adds a directory row for every ancestor that has none, nearest first. */
  function EnsureParents(db: Db, p: FvfsPath, now: int): (r: Db)
    ensures r.wal == db.wal
    ensures forall q | q in db.rows :: q in r.rows && r.rows[q] == db.rows[q]
    ensures r.rows.Keys == db.rows.Keys + Ancestors(p)
    ensures forall q | q in r.rows && q !in db.rows :: r.rows[q] == DirRow(now).(id := r.rows[q].id)
    decreases |p|
  {
    match Parent(p)
    case None => db
    case Some(up) =>
      var db1 := if up in db.rows then db else Upserted(db, up, DirRow(now));
      EnsureParents(db1, up, now)
  }

  /** `upsert` answers with the row's own id exactly when it inserted, or when the id last inserted is the row's. */
  lemma UpsertAnswersRowId(db: Db, p: FvfsPath, row: Row)
    ensures Upserted(db, p, row).lastRowid == Upserted(db, p, row).rows[p].id <==>
            p !in db.rows || db.lastRowid == db.rows[p].id
  {
  }

  /** The store object: its fields are the two tables and the connection's last inserted id. */
  class MetadataStore {
    var rows: Rows
    var wal: Wal
    var lastRowid: nat

    ghost predicate Valid()
      reads this
    {
      Schema(Tables(rows, wal, lastRowid))
    }

    ghost function View(): Db
      reads this
      requires Valid()
    {
      Tables(rows, wal, lastRowid)
    }

    constructor Open()
      ensures Valid() && View() == EMPTY_TABLES
    {
      rows, wal, lastRowid := map[], map[], 0;
    }

    /** `upsert`: returns `last_insert_rowid()`, as the source does. */
    method Upsert(p: FvfsPath, meta: Row) returns (id: nat)
      requires Valid()
      modifies this
      ensures Valid() && View() == Upserted(old(View()), p, meta)
      ensures id == lastRowid
      ensures p !in old(rows) ==> id == rows[p].id
    {
      ghost var after := Upserted(View(), p, meta);
      if p in rows {
        rows := rows[p := meta.(id := rows[p].id)];
      } else {
        var next := NextRowId(Ids(rows));
        rows, lastRowid := rows[p := meta.(id := next)], next;
      }
      assert Tables(rows, wal, lastRowid) == after;
      id := lastRowid;
    }

    method Get(p: FvfsPath) returns (r: Option<Row>)
      ensures r == if p in rows then Some(rows[p]) else None
    {
      r := if p in rows then Some(rows[p]) else None;
    }

    method GetById(id: nat) returns (r: Option<FvfsPath>)
      requires Valid()
      ensures r == PathOfId(View(), id)
    {
      r := None;
      var todo := rows.Keys;
      while todo != {}
        invariant todo <= rows.Keys
        invariant forall p | p in rows && p !in todo :: rows[p].id != id
        decreases |todo|
      {
        var p :| p in todo;
        if rows[p].id == id {
          assert HasId(rows, id);
          return Some(p);
        }
        todo := todo - {p};
      }
    }

    method SetTierBitmask(id: nat, bm: TierBitmask)
      requires Valid()
      modifies `rows
      ensures Valid() && View() == SetBitmask(old(View()), id, bm)
    {
      ghost var after := SetBitmask(View(), id, bm);
      rows := map p | p in rows :: if rows[p].id == id then rows[p].(bitmask := bm) else rows[p];
      assert rows == after.rows;
    }

    method RecordAccess(id: nat, now: int)
      requires Valid()
      modifies `rows
      ensures Valid() && View() == Accessed(old(View()), id, now)
    {
      ghost var after := Accessed(View(), id, now);
      rows := map p | p in rows ::
        if rows[p].id == id then rows[p].(accessedAt := now, accessCount := rows[p].accessCount + 1) else rows[p];
      assert rows == after.rows;
    }

    method Delete(p: FvfsPath)
      requires Valid()
      modifies `rows, `wal
      ensures Valid() && View() == DeleteRow(old(View()), p)
    {
      ghost var after := DeleteRow(View(), p);
      if p in rows {
        var id := rows[p].id;
        wal := map w | w in wal && wal[w].fileId != id :: wal[w];
        rows := rows - {p};
      }
      assert Tables(rows, wal, lastRowid) == after;
    }

    method WalEnqueue(fileId: nat, op: WalOp, now: int) returns (r: Result<nat>)
      requires Valid()
      modifies `wal, `lastRowid
      ensures Valid()
      ensures r.Ok? == Enqueue(old(View()), fileId, op, now).Ok?
      ensures r.Ok? ==> View() == Enqueue(old(View()), fileId, op, now).value && r.value == lastRowid
      ensures r.Err? ==> View() == old(View()) && r == Err(ForeignKey)
    {
      ghost var after := Enqueue(View(), fileId, op, now);
      if !HasId(rows, fileId) {
        return Err(ForeignKey);
      }
      var w := NextRowId(wal.Keys);
      wal, lastRowid := wal[w := WalEntry(fileId, op, now, 0)], w;
      assert Tables(rows, wal, lastRowid) == after.value;
      r := Ok(w);
    }

    method WalComplete(w: nat)
      requires Valid()
      modifies `wal
      ensures Valid() && View() == CompleteEntry(old(View()), w)
    {
      ghost var after := CompleteEntry(View(), w);
      wal := wal - {w};
      assert Tables(rows, wal, lastRowid) == after;
    }

    method WalRecordFailure(w: nat)
      requires Valid()
      modifies `wal
      ensures Valid() && View() == RecordFailure(old(View()), w)
    {
      ghost var after := RecordFailure(View(), w);
      if w in wal {
        wal := wal[w := wal[w].(attempts := wal[w].attempts + 1)];
      }
      assert Tables(rows, wal, lastRowid) == after;
    }

    /** The pending entries, each once, those queued earlier first. */
    method WalPending() returns (entries: seq<nat>)
      ensures forall w | w in entries :: w in wal
      ensures forall w | w in wal :: w in entries
      ensures Distinct(entries)
      ensures forall i, j | 0 <= i < j < |entries| ::
                entries[i] in wal && entries[j] in wal &&
                wal[entries[i]].enqueuedAt <= wal[entries[j]].enqueuedAt
    {
      var all: seq<nat> := [];
      var todo := wal.Keys;
      while todo != {}
        invariant todo <= wal.Keys
        invariant forall w | w in wal :: w in todo <==> w !in all
        invariant forall w | w in all :: w in wal
        invariant Distinct(all)
        decreases |todo|
      {
        var w :| w in todo;
        all, todo := all + [w], todo - {w};
      }
      var pending := wal;
      var queued := (w: nat) => if w in pending then pending[w].enqueuedAt as real else 0.0;
      entries := Sort(all, queued);
      PermutedDistinct(all, entries);
      SortOrders(all, queued);
      forall i, j | 0 <= i < j < |entries|
        ensures entries[i] in wal && entries[j] in wal && wal[entries[i]].enqueuedAt <= wal[entries[j]].enqueuedAt
      {
        assert entries[i] in entries && entries[j] in entries && Before(entries[i], entries[j], queued, queued);
      }
    }
  }
}
