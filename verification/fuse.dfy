/**
 The FUSE handlers (fvfsd/src/fuse_handler.rs and fvfsc/src/fuse_handler.rs): offset writes against POSIX
 `pwrite`, slices for reads, and directory paging.
 */
module Fuse {
  import opened Collections
  import opened Results
  import opened Paths
  import opened Store
  import opened Protocol
  import opened SerialRuns
  import opened Router

  // ---- Splicing a write into the existing bytes

  datatype Pwrite = Pwrite(offset: nat, data: Bytes) {
    function End(): nat { offset + |data| }

    predicate Covers(k: int) { offset <= k < End() }
  }

  function Zeros(n: nat): Bytes {
    seq(n, _ => 0)
  }

  function Splice(existing: Bytes, w: Pwrite): (r: Bytes)
    ensures |r| == Max(|existing|, w.End())
  {
    var buf := if |existing| < w.End() then existing + Zeros(w.End() - |existing|) else existing;
    buf[..w.offset] + w.data + buf[w.End()..]
  }

  /** The buffer as the handler changes it: grown with zeros, then overwritten. */
  method SpliceBuffer(existing: Bytes, w: Pwrite) returns (buf: Bytes)
    ensures buf == Splice(existing, w)
    ensures forall k | 0 <= k < |buf| ::
              buf[k] == if w.Covers(k) then w.data[k - w.offset] else if k < |existing| then existing[k] else 0
  {
    buf := existing;
    if |buf| < w.End() {
      buf := buf + Zeros(w.End() - |buf|);
    }
    buf := buf[..w.offset] + w.data + buf[w.End()..];
  }

  function SpliceAll(init: Bytes, ws: seq<Pwrite>): Bytes {
    if ws == [] then init else Splice(SpliceAll(init, ws[..|ws| - 1]), ws[|ws| - 1])
  }

  // ---- POSIX

  /** Where a file ends after the writes: a write of no bytes extends nothing. */
  function PosixLength(init: Bytes, ws: seq<Pwrite>): nat {
    if ws == [] then |init|
    else
      var w, before := ws[|ws| - 1], PosixLength(init, ws[..|ws| - 1]);
      if w.data == [] then before else Max(before, w.End())
  }

  /** `w` is the last of the writes to cover position `k`. */
  predicate LatestAt(ws: seq<Pwrite>, i: nat, k: nat)
    requires i < |ws|
  {
    ws[i].Covers(k) && forall j | i < j < |ws| :: !ws[j].Covers(k)
  }

  /** Each byte is the latest write covering it, else what was there, else zero. */
  ghost predicate PosixBytes(init: Bytes, ws: seq<Pwrite>, file: Bytes) {
    && (forall k, i | 0 <= k < |file| && 0 <= i < |ws| && LatestAt(ws, i, k) :: file[k] == ws[i].data[k - ws[i].offset])
    && (forall k | 0 <= k < |file| && (forall i | 0 <= i < |ws| :: !ws[i].Covers(k)) ::
          file[k] == if k < |init| then init[k] else 0)
  }

  ghost predicate IsPosix(init: Bytes, ws: seq<Pwrite>, file: Bytes) {
    |file| == PosixLength(init, ws) && PosixBytes(init, ws, file)
  }

  lemma SpliceByte(existing: Bytes, w: Pwrite, k: nat)
    requires k < |Splice(existing, w)|
    ensures Splice(existing, w)[k] ==
            if w.Covers(k) then w.data[k - w.offset] else if k < |existing| then existing[k] else 0
  {
  }

  /** Byte for byte, splicing agrees with POSIX for every sequence of writes. */
  lemma {:induction false} SpliceAllBytes(init: Bytes, ws: seq<Pwrite>)
    ensures PosixBytes(init, ws, SpliceAll(init, ws))
  {
    if ws == [] {
    } else {
      var n := |ws| - 1;
      var w, before, file := ws[n], SpliceAll(init, ws[..n]), SpliceAll(init, ws);
      SpliceAllBytes(init, ws[..n]);
      SpliceAllReach(init, ws[..n]);
      forall k, i | 0 <= k < |file| && 0 <= i < |ws| && LatestAt(ws, i, k)
        ensures file[k] == ws[i].data[k - ws[i].offset]
      {
        SpliceByte(before, w, k);
        if i < n {
          LatestEarlier(ws, i, k);
        }
      }
      forall k | 0 <= k < |file| && (forall i | 0 <= i < |ws| :: !ws[i].Covers(k))
        ensures file[k] == if k < |init| then init[k] else 0
      {
        SpliceByte(before, w, k);
        assert !ws[n].Covers(k);
        assert forall i | 0 <= i < n :: ws[..n][i] == ws[i];
      }
    }
  }

  lemma LatestEarlier(ws: seq<Pwrite>, i: nat, k: nat)
    requires i < |ws| - 1 && LatestAt(ws, i, k)
    ensures !ws[|ws| - 1].Covers(k) && LatestAt(ws[..|ws| - 1], i, k)
  {
  }

  /** The spliced file reaches the end of every write, and of the initial bytes. */
  lemma {:induction false} SpliceAllReach(init: Bytes, ws: seq<Pwrite>)
    ensures |init| <= |SpliceAll(init, ws)|
    ensures forall i | 0 <= i < |ws| :: ws[i].End() <= |SpliceAll(init, ws)|
  {
    if ws == [] {
    } else {
      var n := |ws| - 1;
      SpliceAllReach(init, ws[..n]);
      forall i | 0 <= i < n ensures ws[i].End() <= |SpliceAll(init, ws)| { assert ws[..n][i] == ws[i]; }
    }
  }

  /** Every empty write stays within the file POSIX would leave. */
  ghost predicate NoEmptyWriteBeyond(init: Bytes, ws: seq<Pwrite>) {
    forall i | 0 <= i < |ws| && ws[i].data == [] :: ws[i].offset <= PosixLength(init, ws)
  }

  lemma {:induction false} PosixReach(init: Bytes, ws: seq<Pwrite>)
    ensures PosixLength(init, ws) <= |SpliceAll(init, ws)|
    ensures forall i | 0 <= i < |ws| && ws[i].data != [] :: ws[i].End() <= PosixLength(init, ws)
    ensures |SpliceAll(init, ws)| == PosixLength(init, ws) ||
            exists i :: 0 <= i < |ws| && ws[i].data == [] && ws[i].offset == |SpliceAll(init, ws)|
  {
    hide Splice;
    if ws == [] {
    } else {
      var n := |ws| - 1;
      PosixReach(init, ws[..n]);
      forall i | 0 <= i < n && ws[i].data != [] ensures ws[i].End() <= PosixLength(init, ws) {
        assert ws[..n][i] == ws[i];
      }
      var len := |SpliceAll(init, ws)|;
      if len != PosixLength(init, ws) {
        if len == |SpliceAll(init, ws[..n])| {
          var i :| 0 <= i < n && ws[..n][i].data == [] && ws[..n][i].offset == len;
          assert ws[i].data == [] && ws[i].offset == len;
        } else {
          assert ws[n].data == [] && ws[n].offset == len;
        }
      }
    }
  }

  /**
   Any sequence of writes spliced in matches POSIX, with one exception: a write of no bytes past the end
   grows the file, so the two agree exactly when every empty write lies within the file POSIX leaves.
   */
  lemma SpliceMatchesPosix(init: Bytes, ws: seq<Pwrite>)
    ensures IsPosix(init, ws, SpliceAll(init, ws)) <==> NoEmptyWriteBeyond(init, ws)
  {
    SpliceAllBytes(init, ws);
    SpliceAllReach(init, ws);
    PosixReach(init, ws);
  }

  lemma EmptyWriteExtends()
    ensures SpliceAll([], [Pwrite(1, [])]) == [0] && PosixLength([], [Pwrite(1, [])]) == 0
  {
    assert [Pwrite(1, [])][..0] == [];
  }

  // ---- Writes through the router

  /** A handler's write and the failures it meets on the way. */
  datatype Request = Request(write: Pwrite, faults: Faults, putFails: bool)

  /** What the handler splices into: the file, or nothing when the read fails. */
  function Existing(s: State, p: FvfsPath, f: Faults): Bytes {
    match Read(s, p, f).1 case Ok(d) => d case Err(_) => []
  }

  method HandleWrite(router: TierRouter, p: FvfsPath, q: Request, now: int) returns (r: Result<nat>)
    requires router.Valid()
    modifies router, router.meta
    ensures router.Valid()
    ensures
      var s := old(router.View(now));
      var (s', w) := Write(Read(s, p, q.faults).0, p, Splice(Existing(s, p, q.faults), q.write), q.putFails);
      router.View(now) == s' && r == if w.Ok? then Ok(|q.write.data|) else Err(FvfsError.Backend)
  {
    var existing := router.Read(p, q.faults, now);
    var buf := SpliceBuffer(if existing.Ok? then existing.value else [], q.write);
    var result := router.Write(p, buf, q.putFails, now);
    r := if result.Ok? then Ok(|q.write.data|) else Err(FvfsError.Backend);
  }

  /** The events of handling the requests one after another, continuing the run `es`. */
  function Handled(es: seq<Event>, p: FvfsPath, qs: seq<Request>): seq<Event> {
    if qs == [] then es
    else
      var before, q := Handled(es, p, qs[..|qs| - 1]), qs[|qs| - 1];
      before + [ReadEv(p, q.faults)] +
      [WriteEv(p, Splice(Existing(Run(before), p, q.faults), q.write), q.putFails)]
  }

  /** Every request's read of the file succeeds. */
  predicate ReadsSucceed(es: seq<Event>, p: FvfsPath, qs: seq<Request>) {
    qs == [] ||
    var before := Handled(es, p, qs[..|qs| - 1]);
    ReadsSucceed(es, p, qs[..|qs| - 1]) && Read(Run(before), p, qs[|qs| - 1].faults).1.Ok?
  }

  /** The writes that reached the store. */
  function Stored(qs: seq<Request>): seq<Pwrite> {
    if qs == [] then []
    else Stored(qs[..|qs| - 1]) + if qs[|qs| - 1].putFails then [] else [qs[|qs| - 1].write]
  }

  lemma SpliceAllNone(init: Bytes)
    ensures SpliceAll(init, []) == init
  {
  }

  lemma SpliceAllSnoc(init: Bytes, ws: seq<Pwrite>, w: Pwrite)
    ensures SpliceAll(init, ws + [w]) == Splice(SpliceAll(init, ws), w)
  {
    assert (ws + [w])[..|ws|] == ws;
  }

  /** One request after any run: the tree's file becomes the splice, unless the put failed. */
  lemma HandledOne(before: seq<Event>, p: FvfsPath, q: Request)
    requires p in SpecRun(before) && Read(Run(before), p, q.faults).1.Ok?
    ensures
      var d := Existing(Run(before), p, q.faults);
      var e := WriteEv(p, Splice(d, q.write), q.putFails);
      var m := SpecRun(before + [ReadEv(p, q.faults)] + [e]);
      && SpecRun(before)[p] == FileNode(d)
      && p in m && m[p] == FileNode(if q.putFails then d else Splice(d, q.write))
  {
    hide Read, Run, Splice, UniqueIds, References;
    SerialRefinement(before, p, q.faults);
    var d := Existing(Run(before), p, q.faults);
    var e := WriteEv(p, Splice(d, q.write), q.putFails);
    SpecRunSnoc(before, ReadEv(p, q.faults));
    SpecRunSnoc(before + [ReadEv(p, q.faults)], e);
  }

  /** After any run, FUSE writes to a file whose reads succeed leave the spliced bytes of those that were put. */
  lemma {:induction false} HandledSplices(es: seq<Event>, p: FvfsPath, qs: seq<Request>)
    requires p in SpecRun(es) && SpecRun(es)[p].FileNode? && ReadsSucceed(es, p, qs)
    ensures p in SpecRun(Handled(es, p, qs))
    ensures SpecRun(Handled(es, p, qs))[p] == FileNode(SpliceAll(SpecRun(es)[p].bytes, Stored(qs)))
  {
    hide Read, Run, Splice, SpliceAll, Existing, SpecRun, UniqueIds, References;
    if qs == [] {
      SpliceAllNone(SpecRun(es)[p].bytes);
    } else {
      var n := |qs| - 1;
      HandledSplices(es, p, qs[..n]);
      HandledOne(Handled(es, p, qs[..n]), p, qs[n]);
      SpliceAllSnoc(SpecRun(es)[p].bytes, Stored(qs[..n]), qs[n].write);
      assert qs[n].putFails ==> Stored(qs) == Stored(qs[..n]);
    }
  }

  /** So the file in the tree is the one POSIX leaves, exactly when no empty write went past its end. */
  lemma FuseWritesMatchPosix(es: seq<Event>, p: FvfsPath, qs: seq<Request>)
    requires p in SpecRun(es) && SpecRun(es)[p].FileNode? && ReadsSucceed(es, p, qs)
    ensures
      var init, after := SpecRun(es)[p].bytes, SpecRun(Handled(es, p, qs));
      && p in after && after[p].FileNode?
      && (IsPosix(init, Stored(qs), after[p].bytes) <==> NoEmptyWriteBeyond(init, Stored(qs)))
  {
    HandledSplices(es, p, qs);
    SpliceMatchesPosix(SpecRun(es)[p].bytes, Stored(qs));
  }

  /** A write after a failed read drops the file's bytes; it is harmless only if they were all zero or covered. */
  lemma FailedReadLosesBytes(existing: Bytes, w: Pwrite)
    ensures Splice([], w) == Splice(existing, w) <==>
            |existing| <= w.End() && forall k | 0 <= k < |existing| && k < w.offset :: existing[k] == 0
  {
    if Splice([], w) == Splice(existing, w) {
      forall k | 0 <= k < |existing| && k < w.offset ensures existing[k] == 0 {
        SpliceByte([], w, k);
        SpliceByte(existing, w, k);
      }
    } else if |existing| <= w.End() {
      var k :| 0 <= k < w.End() && Splice([], w)[k] != Splice(existing, w)[k];
      SpliceByte([], w, k);
      SpliceByte(existing, w, k);
    }
  }

  // ---- Read slices

  /** The part of the file a read of `size` bytes at `offset` answers with; a negative offset wraps past the end. */
  function Slice(data: Bytes, offset: int, size: nat): Bytes {
    var start := if 0 <= offset <= |data| then offset else |data|;
    var end := if start + size <= |data| then start + size else |data|;
    data[start..end]
  }

  /**
   A read from an offset within `i64` gets the bytes of the file from there on, as many as asked for and as there
   are; a negative offset gets none.
   */
  lemma SliceExact(data: Bytes, offset: int, size: nat)
    ensures offset >= 0 ==>
              && |Slice(data, offset, size)| == (if offset < |data| then Min(size, |data| - offset) else 0)
              && forall k | 0 <= k < |Slice(data, offset, size)| :: Slice(data, offset, size)[k] == data[offset + k]
    ensures offset < 0 ==> Slice(data, offset, size) == []
  {
  }

  /** Reading back where a write went gives the bytes written, whatever was there. */
  lemma SliceOfSplice(existing: Bytes, w: Pwrite)
    ensures Slice(Splice(existing, w), w.offset, |w.data|) == w.data
  {
    hide Splice;
    var file := Splice(existing, w);
    forall k | 0 <= k < |w.data| ensures file[w.offset + k] == w.data[k] { SpliceByte(existing, w, w.offset + k); }
  }

  /** `read`: the file through the router, cut to the request. */
  method HandleRead(router: TierRouter, p: FvfsPath, offset: int, size: nat, f: Faults, now: int)
    returns (r: Result<Bytes>)
    requires router.Valid()
    modifies router, router.meta
    ensures router.Valid()
    ensures
      var (s', d) := Read(old(router.View(now)), p, f);
      router.View(now) == s' && r == match d case Ok(data) => Ok(Slice(data, offset, size)) case Err(e) => Err(e)
  {
    var data := router.Read(p, f, now);
    r := if data.Ok? then Ok(Slice(data.value, offset, size)) else Err(data.error);
  }

  /** A write handled after any run, whose read and put succeed, is read back byte for byte. */
  lemma WrittenIsReadBack(es: seq<Event>, p: FvfsPath, q: Request, f: Faults)
    requires p in SpecRun(es) && Read(Run(es), p, q.faults).1.Ok? && !q.putFails
    ensures
      var r := Read(Run(Handled(es, p, [q])), p, f).1;
      r.Ok? ==> Slice(r.value, q.write.offset, |q.write.data|) == q.write.data
  {
    hide Read, Run, Splice, Slice, UniqueIds, References;
    HandledOne(es, p, q);
    assert [q][..0] == [] && Handled(es, p, []) == es;
    SerialRefinement(Handled(es, p, [q]), p, f);
    SliceOfSplice(Existing(Run(es), p, q.faults), q.write);
  }

  /** Reads at consecutive offsets join into one: nothing is lost or repeated between them. */
  lemma SlicesJoin(data: Bytes, offset: nat, a: nat, b: nat)
    ensures Slice(data, offset, a) + Slice(data, offset + a, b) == Slice(data, offset, a + b)
  {
  }

  // ---- Directory paging

  /** What `list` returns of a child. */
  datatype FileEntry = FileEntry(path: FvfsPath, kind: Kind)

  /** What a reader of the directory sees of an entry. */
  datatype Item = Item(name: string, kind: Kind)

  /** An entry in a reply, with the offset at which the next request continues. */
  datatype DirEntry = DirEntry(item: Item, next: int)

  function ItemOf(e: FileEntry): Item {
    Item(FileName(e.path), e.kind)
  }

  function Listing(entries: seq<FileEntry>): seq<Item> {
    [Item(".", Directory), Item("..", Directory)] +
    seq(|entries|, i requires 0 <= i < |entries| => ItemOf(entries[i]))
  }

  lemma ListingParts(entries: seq<FileEntry>)
    ensures
      var listing := Listing(entries);
      && |listing| == |entries| + 2
      && listing[0] == Item(".", Directory) && listing[1] == Item("..", Directory)
      && forall i | 0 <= i < |entries| :: listing[i + 2] == Item(FileName(entries[i].path), entries[i].kind)
  {
    hide FileName;
  }

  /** Entries `from` up to `to` of the listing, each with its continuation offset. */
  function Page(listing: seq<Item>, from: nat, to: nat): (r: seq<DirEntry>)
    requires from <= to <= |listing|
    ensures |r| == to - from
  {
    seq(to - from, i requires 0 <= i < to - from => DirEntry(listing[from + i], from + i + 1))
  }

  lemma PageSnoc(listing: seq<Item>, from: nat, to: nat)
    requires from <= to < |listing|
    ensures Page(listing, from, to + 1) == Page(listing, from, to) + [DirEntry(listing[to], to + 1)]
  {
  }

  lemma PageNone(listing: seq<Item>, from: nat)
    requires from <= |listing|
    ensures Page(listing, from, from) == []
  {
  }

  function PageStart(listing: seq<Item>, offset: int): (from: nat)
    ensures from <= |listing|
  {
    if offset < 0 then 0 else Min(offset, |listing|)
  }

  /** The page a request gets when the reply has room for `room` entries. */
  function PageAt(listing: seq<Item>, offset: int, room: nat): seq<DirEntry> {
    var from := PageStart(listing, offset);
    Page(listing, from, Min(from + room, |listing|))
  }

  /** A reply buffer: `Add` refuses an entry, and says so, once it is full. */
  class ReplyDirectory {
    var entries: seq<DirEntry>
    const room: nat

    constructor (room: nat)
      ensures entries == [] && this.room == room
    {
      entries := [];
      this.room := room;
    }

    method Add(next: int, item: Item) returns (full: bool)
      modifies this
      ensures full == (|old(entries)| >= room)
      ensures entries == if full then old(entries) else old(entries) + [DirEntry(item, next)]
    {
      full := |entries| >= room;
      if !full {
        entries := entries + [DirEntry(item, next)];
      }
    }
  }

  /** `readdir`: "." and "..", then the entries, skipping those before the offset, until the reply is full. */
  method ReadDir(entries: seq<FileEntry>, offset: int, reply: ReplyDirectory)
    requires reply.entries == []
    modifies reply
    ensures reply.entries == PageAt(Listing(entries), offset, reply.room)
  {
    hide Page, Listing;
    ghost var listing := Listing(entries);
    ListingParts(entries);
    ghost var from := PageStart(listing, offset);
    PageNone(listing, from);
    var idx := 0;
    if offset <= idx {
      var full := reply.Add(idx + 1, Item(".", Directory));
      if full {
        return;
      }
      PageSnoc(listing, from, idx);
    }
    idx := idx + 1;
    if offset <= idx {
      var full := reply.Add(idx + 1, Item("..", Directory));
      if full {
        return;
      }
      PageSnoc(listing, from, idx);
    }
    idx := idx + 1;
    for i := 0 to |entries|
      invariant idx == i + 2 && |reply.entries| <= reply.room
      invariant reply.entries == if from <= idx then Page(listing, from, idx) else []
    {
      if offset > idx {
        idx := idx + 1;
      } else {
        var full := reply.Add(idx + 1, ItemOf(entries[i]));
        if full {
          return;
        }
        PageSnoc(listing, from, idx);
        idx := idx + 1;
      }
    }
  }

  /** The offset a client continues from: that of the last entry it got. */
  function NextOffset(page: seq<DirEntry>, offset: int): int {
    if page == [] then offset else page[|page| - 1].next
  }

  /** Where a client stands after asking for pages with the given room, from the start. */
  function OffsetAfter(listing: seq<Item>, rooms: seq<nat>): int {
    if rooms == [] then 0
    else
      var offset := OffsetAfter(listing, rooms[..|rooms| - 1]);
      NextOffset(PageAt(listing, offset, rooms[|rooms| - 1]), offset)
  }

  /** All that it has been given by then. */
  function ItemsAfter(listing: seq<Item>, rooms: seq<nat>): seq<Item> {
    if rooms == [] then []
    else
      var n := |rooms| - 1;
      ItemsAfter(listing, rooms[..n]) + ItemsOf(PageAt(listing, OffsetAfter(listing, rooms[..n]), rooms[n]))
  }

  function ItemsOf(page: seq<DirEntry>): seq<Item> {
    seq(|page|, i requires 0 <= i < |page| => page[i].item)
  }

  /**
   Whatever the pages' sizes, what a client has been given is a prefix of the listing, each entry once and
   in order, and a page with room for an entry comes back empty only when the listing is complete.
   */
  lemma {:induction false} PagesConcatenate(entries: seq<FileEntry>, rooms: seq<nat>)
    ensures
      var listing, offset := Listing(entries), OffsetAfter(Listing(entries), rooms);
      && 0 <= offset <= |listing|
      && ItemsAfter(listing, rooms) == listing[..offset]
      && (forall room: nat | room > 0 :: PageAt(listing, offset, room) == [] <==> ItemsAfter(listing, rooms) == listing)
  {
    hide Listing, PageAt, ItemsOf;
    var listing := Listing(entries);
    if rooms == [] {
      assert listing[..0] == [];
    } else {
      var n := |rooms| - 1;
      PagesConcatenate(entries, rooms[..n]);
      PageAdvances(listing, OffsetAfter(listing, rooms[..n]), rooms[n]);
    }
    forall room: nat | room > 0
      ensures PageAt(listing, OffsetAfter(listing, rooms), room) == [] <==> ItemsAfter(listing, rooms) == listing
    {
      PageAdvances(listing, OffsetAfter(listing, rooms), room);
    }
  }

  /** One page: it continues the listing where the last one stopped, and is empty only at its end or without room. */
  lemma PageAdvances(listing: seq<Item>, from: nat, room: nat)
    requires from <= |listing|
    ensures
      var page := PageAt(listing, from, room);
      var next := NextOffset(page, from);
      && from <= next <= |listing| && listing[..from] + ItemsOf(page) == listing[..next]
      && (page == [] <==> room == 0 || from == |listing|)
      && (listing[..from] == listing <==> from == |listing|)
  {
    var page := PageAt(listing, from, room);
    assert ItemsOf(page) == listing[from..from + |page|];
    assert listing[..|listing|] == listing;
  }

  /** As many non-empty pages as there are entries, or more, give the whole listing. */
  lemma {:induction false} PagesComplete(entries: seq<FileEntry>, rooms: seq<nat>)
    requires forall k | 0 <= k < |rooms| :: rooms[k] > 0
    ensures OffsetAfter(Listing(entries), rooms) >= Min(|rooms|, |Listing(entries)|)
    ensures |rooms| >= |Listing(entries)| ==> ItemsAfter(Listing(entries), rooms) == Listing(entries)
  {
    if rooms == [] {
    } else {
      var n := |rooms| - 1;
      PagesComplete(entries, rooms[..n]);
      PagesConcatenate(entries, rooms[..n]);
    }
    PagesConcatenate(entries, rooms);
  }
}
