/**
 Normalised absolute paths: the normaliser, `parent`, `file_name`, `join` and
 `is_prefix_of` of fvfs-core/src/types.rs, with the algebra they satisfy.
 */
module Paths {
  import opened Results

  // ---- Splitting at '/'

  /** The pieces of `s` between slashes; always at least one piece. */
  function Split(s: string): (parts: seq<string>)
    ensures |parts| > 0
  {
    if s == "" then [""]
    else
      var rest := Split(s[1..]);
      if s[0] == '/' then [""] + rest else [[s[0]] + rest[0]] + rest[1..]
  }

  lemma {:induction false} SplitConcat(x: string, y: string)
    ensures Split(x + "/" + y) == Split(x) + Split(y)
  {
    var s := x + "/" + y;
    if x == "" {
      assert s[1..] == y;
    } else {
      assert s[1..] == x[1..] + "/" + y;
      SplitConcat(x[1..], y);
    }
  }

  lemma {:induction false} SplitNoSlash(s: string)
    requires '/' !in s
    ensures Split(s) == [s]
  {
    if s == "" {
    } else {
      assert s[0] in s && forall x | x in s[1..] :: x in s;
      SplitNoSlash(s[1..]);
      assert [s[0]] + s[1..] == s;
    }
  }

  /** Pieces hold no slash, and hold between them exactly the other characters of `s`. */
  lemma {:induction false} SplitPieces(s: string)
    ensures forall c | c in Split(s) :: '/' !in c
    ensures forall x: char | x != '/' :: x in s <==> exists c :: c in Split(s) && x in c
  {
    if s == "" {
    } else {
      SplitPieces(s[1..]);
      var rest := Split(s[1..]);
      assert s == [s[0]] + s[1..];
      forall c | c in Split(s) ensures '/' !in c {
        if s[0] != '/' && c == Split(s)[0] {
          assert rest[0] in rest;
        }
      }
      forall x: char | x != '/' ensures x in s <==> exists c :: c in Split(s) && x in c {
        SplitPiecesChar(s, x);
      }
    }
  }

  lemma SplitPiecesChar(s: string, x: char)
    requires s != "" && x != '/'
    requires x in s[1..] <==> exists c :: c in Split(s[1..]) && x in c
    ensures x in s <==> exists c :: c in Split(s) && x in c
  {
    var rest := Split(s[1..]);
    assert s == [s[0]] + s[1..];
    if s[0] == '/' {
      assert forall c :: c in Split(s) <==> c == "" || c in rest;
    } else {
      var head := [s[0]] + rest[0];
      assert forall c :: c in Split(s) <==> c == head || c in rest[1..];
      assert forall c :: c in rest <==> c == rest[0] || c in rest[1..];
      assert x in head <==> x == s[0] || x in rest[0];
    }
  }

  // ---- Rendering a list of segments

  function RenderTail(cs: seq<string>): string {
    if cs == [] then "" else "/" + cs[0] + RenderTail(cs[1..])
  }

  function Render(cs: seq<string>): string {
    if cs == [] then "/" else RenderTail(cs)
  }

  predicate GoodSegment(c: string) {
    c != "" && c != "." && c != ".." && '/' !in c && '\0' !in c
  }

  predicate AllGood(cs: seq<string>) {
    forall c | c in cs :: GoodSegment(c)
  }

  lemma SplitSlash(rest: string)
    ensures Split("/" + rest) == [""] + Split(rest)
  {
    assert ("/" + rest)[1..] == rest;
  }

  /** A segment and what follows it, which is nothing or starts with a slash. */
  lemma SplitAfterSlash(head: string, tail: string)
    requires '/' !in head && (tail == "" || tail[0] == '/')
    ensures Split("/" + head + tail) == ["", head] + Split(tail)[1..]
  {
    hide Split;
    SplitNoSlash(head);
    if tail == "" {
      SplitNoSlash("");
      assert "/" + head + tail == "/" + head;
      SplitSlash(head);
    } else {
      var rest := tail[1..];
      assert tail == "/" + rest && "/" + head + tail == "/" + (head + "/" + rest);
      SplitSlash(rest);
      SplitSlash(head + "/" + rest);
      SplitConcat(head, rest);
    }
  }

  lemma {:induction false} SplitRenderTail(cs: seq<string>)
    requires AllGood(cs)
    ensures Split(RenderTail(cs)) == [""] + cs
  {
    if cs == [] {
    } else {
      var head, tail := cs[0], RenderTail(cs[1..]);
      assert head in cs;
      SplitRenderTail(cs[1..]);
      SplitAfterSlash(head, tail);
      assert ["", head] + cs[1..] == [""] + cs;
    }
  }

  lemma {:induction false} RenderTailSplit(s: string)
    requires s != "" && s[0] == '/'
    ensures RenderTail(Split(s)[1..]) == s
  {
    RenderTailSplitAny(s[1..]);
    assert Split(s)[1..] == Split(s[1..]);
  }

  lemma RenderTailCons(c: string, cs: seq<string>)
    ensures RenderTail([c] + cs) == "/" + c + RenderTail(cs)
  {
    assert ([c] + cs)[1..] == cs;
  }

  lemma PrependToHead(c: char, head: string, tail: string, s: string)
    requires "/" + head + tail == "/" + s
    ensures "/" + ([c] + head) + tail == "/" + ([c] + s)
  {
    assert s == ("/" + s)[1..] == ("/" + head + tail)[1..] == head + tail;
  }

  lemma {:induction false} RenderTailSplitAny(s: string)
    ensures RenderTail(Split(s)) == "/" + s
  {
    hide RenderTail;
    if s == "" {
      RenderTailCons("", []);
      RenderTailNone();
      assert [""] + [] == [""];
    } else {
      RenderTailSplitAny(s[1..]);
      var rest := Split(s[1..]);
      assert s == [s[0]] + s[1..];
      if s[0] == '/' {
        RenderTailCons("", rest);
        assert "/" + "" + ("/" + s[1..]) == "/" + s;
      } else {
        RenderTailCons(rest[0], rest[1..]);
        assert rest == [rest[0]] + rest[1..];
        RenderTailCons([s[0]] + rest[0], rest[1..]);
        PrependToHead(s[0], rest[0], RenderTail(rest[1..]), s[1..]);
      }
    }
  }

  lemma RenderTailNone()
    ensures RenderTail([]) == ""
  {
  }

  // ---- The normaliser

  /** Walks the pieces left to right over a stack of segments. */
  function Resolve(parts: seq<string>, stack: seq<string>): Result<seq<string>> {
    if parts == [] then Ok(stack)
    else if parts[0] == "" || parts[0] == "." then Resolve(parts[1..], stack)
    else if parts[0] == ".." then Resolve(parts[1..], Pop(stack))
    else if '\0' in parts[0] then Err(InvalidPath)
    else Resolve(parts[1..], stack + [parts[0]])
  }

  function Pop(stack: seq<string>): seq<string> {
    if stack == [] then [] else stack[..|stack| - 1]
  }

  function Absolute(s: string): string {
    if s != "" && s[0] == '/' then s else "/" + s
  }

  function Normalize(s: string): Result<string> {
    if s == "" then Err(InvalidPath)
    else match Resolve(Split(Absolute(s)), [])
      case Ok(cs) => Ok(Render(cs))
      case Err(e) => Err(e)
  }

  /** A path in normal form: "/" or slash-led segments, none of them empty, "." or "..". */
  predicate Canonical(s: string) {
    s == "/" || (s != "" && s[0] == '/' && AllGood(Split(s)[1..]))
  }

  type FvfsPath = s: string | Canonical(s) witness "/"

  const ROOT: FvfsPath := "/"

  function Segments(p: FvfsPath): (cs: seq<string>)
    ensures AllGood(cs)
  {
    if p == "/" then [] else Split(p)[1..]
  }

  /** The loop of `normalize`, over a growing and shrinking vector of components. */
  method NormalizePath(raw: string) returns (r: Result<string>)
    ensures r == Normalize(raw)
  {
    if raw == "" {
      return Err(InvalidPath);
    }
    var s := if raw[0] == '/' then raw else "/" + raw;
    var parts := Split(s);
    var components: seq<string> := [];
    var i := 0;
    while i < |parts|
      invariant 0 <= i <= |parts|
      invariant Resolve(parts[i..], components) == Resolve(parts, [])
    {
      var part := parts[i];
      assert parts[i..][1..] == parts[i + 1..];
      if part == "" || part == "." {
      } else if part == ".." {
        if components != [] {
          components := components[..|components| - 1];
        }
      } else {
        if '\0' in part {
          return Err(InvalidPath);
        }
        components := components + [part];
      }
      i := i + 1;
    }
    r := Ok(Render(components));
  }

  lemma {:induction false} ResolveGood(parts: seq<string>, stack: seq<string>)
    requires AllGood(stack)
    requires forall c | c in parts :: '/' !in c
    ensures Resolve(parts, stack).Ok? ==> AllGood(Resolve(parts, stack).value)
    ensures Resolve(parts, stack).Ok? <==> forall c | c in parts :: '\0' !in c
  {
    if parts == [] {
    } else {
      var c := parts[0];
      assert forall d | d in parts :: d == c || d in parts[1..];
      if c == "" || c == "." {
        ResolveGood(parts[1..], stack);
      } else if c == ".." {
        ResolveGood(parts[1..], Pop(stack));
      } else if '\0' !in c {
        ResolveGood(parts[1..], stack + [c]);
      }
    }
  }

  lemma {:induction false} ResolveConcat(a: seq<string>, b: seq<string>, stack: seq<string>)
    ensures Resolve(a + b, stack) ==
            match Resolve(a, stack) case Ok(mid) => Resolve(b, mid) case Err(e) => Err(e)
  {
    if a == [] {
      assert a + b == b;
    } else {
      assert (a + b)[1..] == a[1..] + b;
      var c := a[0];
      if c == "" || c == "." {
        ResolveConcat(a[1..], b, stack);
      } else if c == ".." {
        ResolveConcat(a[1..], b, Pop(stack));
      } else if '\0' !in c {
        ResolveConcat(a[1..], b, stack + [c]);
      }
    }
  }

  lemma {:induction false} ResolveGoodParts(cs: seq<string>, stack: seq<string>)
    requires AllGood(cs)
    ensures Resolve(cs, stack) == Ok(stack + cs)
  {
    if cs == [] {
      assert stack + cs == stack;
    } else {
      assert cs[0] in cs;
      ResolveGoodParts(cs[1..], stack + [cs[0]]);
      assert stack + [cs[0]] + cs[1..] == stack + cs;
    }
  }

  lemma RenderCanonical(cs: seq<string>)
    requires AllGood(cs)
    ensures Canonical(Render(cs)) && Segments(Render(cs)) == cs
  {
    if cs != [] {
      SplitRenderTail(cs);
      assert cs[0] in cs;
    }
  }

  lemma RenderSegments(p: FvfsPath)
    ensures Render(Segments(p)) == p
  {
    if p != "/" {
      RenderTailSplit(p);
    }
  }

  /** The normaliser accepts exactly the non-empty strings without NUL, and answers in normal form. */
  lemma NormalizeTotal(s: string)
    ensures Normalize(s).Ok? <==> s != "" && '\0' !in s
    ensures Normalize(s).Ok? ==> Canonical(Normalize(s).value)
  {
    if s != "" {
      var parts := Split(Absolute(s));
      SplitPieces(Absolute(s));
      ResolveGood(parts, []);
      assert '\0' in Absolute(s) <==> '\0' in s;
      if Resolve(parts, []).Ok? {
        RenderCanonical(Resolve(parts, []).value);
      }
    }
  }

  /** A path already in normal form is returned as it is: a stored path reads back unchanged. */
  lemma NormalizeFixesCanonical(p: FvfsPath)
    ensures Normalize(p) == Ok(p)
  {
    ResolveFromRoot(p);
    RenderSegments(p);
  }

  lemma NormalizeIdempotent(s: string)
    requires Normalize(s).Ok?
    ensures Normalize(Normalize(s).value) == Normalize(s)
  {
    NormalizeTotal(s);
    NormalizeFixesCanonical(Normalize(s).value);
  }

  lemma ResolveFromRoot(p: FvfsPath)
    ensures Resolve(Split(p), []) == Ok(Segments(p))
  {
    if p == "/" {
      assert Split("/") == ["", ""] by { assert Split("") == [""]; assert "/"[1..] == ""; }
      assert Resolve([""], []) == Ok([]);
    } else {
      assert Split(p)[0] == "";
      assert Resolve(Split(p), []) == Resolve(Split(p)[1..], []);
      ResolveGoodParts(Split(p)[1..], []);
      assert [] + Split(p)[1..] == Split(p)[1..];
    }
  }

  // ---- Parent, file name

  function LastSlash(s: string): (i: nat)
    requires '/' in s
    ensures i < |s| && s[i] == '/' && '/' !in s[i + 1..]
  {
    if s[|s| - 1] == '/' then |s| - 1
    else
      var i := LastSlash(s[..|s| - 1]);
      assert s[i + 1..] == s[..|s| - 1][i + 1..] + [s[|s| - 1]];
      i
  }

  /** The text before the last slash, and the root when there is none. */
  function DirName(p: FvfsPath): string
    requires p != "/"
  {
    CanonicalHasSlash(p);
    if LastSlash(p) == 0 then "/" else p[..LastSlash(p)]
  }

  lemma CanonicalHasSlash(p: FvfsPath)
    ensures '/' in p
  {
    assert p[0] == '/';
  }

  lemma SplitAtLastSlash(p: FvfsPath)
    requires p != "/" && '/' in p
    ensures Split(p) == Split(p[..LastSlash(p)]) + [p[LastSlash(p) + 1..]]
  {
    var i := LastSlash(p);
    assert p == p[..i] + "/" + p[i + 1..];
    SplitConcat(p[..i], p[i + 1..]);
    SplitNoSlash(p[i + 1..]);
  }

  lemma DirNameCanonical(p: FvfsPath)
    requires p != "/"
    ensures Canonical(DirName(p)) && |DirName(p)| < |p|
    ensures Segments(p) == Segments(DirName(p)) + [p[LastSlash(p) + 1..]]
    ensures LastSlash(p) != 0 ==> DirName(p) != "/"
  {
    CanonicalHasSlash(p);
    SplitAtLastSlash(p);
    var i := LastSlash(p);
    var dir, name := p[..i], p[i + 1..];
    assert name in Split(p)[1..] by { assert Split(p)[1..][|Split(p)| - 2] == name; }
    assert |p| >= i + 2;
    if i == 0 {
      assert Split(dir) == [""];
    } else {
      assert dir[0] == '/';
      assert Split(p)[1..] == Split(dir)[1..] + [name];
      forall c | c in Split(dir)[1..] ensures GoodSegment(c) { assert c in Split(p)[1..]; }
      assert Split(dir)[1] in Split(dir)[1..];
    }
  }

  function Parent(p: FvfsPath): (r: Option<FvfsPath>)
    ensures r.None? <==> p == "/"
    ensures r.Some? ==> |r.value| < |p|
  {
    if p == "/" then None
    else
      DirNameCanonical(p);
      var d: FvfsPath := DirName(p);
      Some(d)
  }

  function FileName(p: FvfsPath): string {
    if p == "/" then "/"
    else
      CanonicalHasSlash(p);
      p[LastSlash(p) + 1..]
  }

  lemma SegmentsOfParent(p: FvfsPath)
    requires p != "/"
    ensures Segments(p) == Segments(Parent(p).value) + [FileName(p)]
    ensures GoodSegment(FileName(p))
    ensures p == (if Parent(p).value == "/" then "" else Parent(p).value) + "/" + FileName(p)
  {
    hide Split, RenderTail, Segments, AllGood, Canonical, GoodSegment;
    DirNameCanonical(p);
    LastSegmentGood(p, Parent(p).value, FileName(p));
    CanonicalHasSlash(p);
    assert p == p[..LastSlash(p)] + "/" + p[LastSlash(p) + 1..];
  }

  lemma LastSegmentGood(p: FvfsPath, dir: FvfsPath, name: string)
    requires Segments(p) == Segments(dir) + [name]
    ensures GoodSegment(name)
  {
    hide Segments, GoodSegment;
    assert name in Segments(p);
  }

  lemma InSuffix(s: string, i: int, n: int)
    ensures 0 <= i < n < |s| ==> s[n] in s[i + 1..]
  {
    if 0 <= i < n < |s| {
      assert s[n] == s[i + 1..][n - i - 1];
    }
  }

  /** Putting a good name below a directory gives a path with that parent and that name. */
  lemma ChildPath(d: FvfsPath, name: string)
    requires GoodSegment(name)
    ensures
      var p := (if d == "/" then "" else d) + "/" + name;
      Canonical(p) && p != "/" && Parent(p) == Some(d) && FileName(p) == name
  {
    var dir := if d == "/" then "" else d;
    var p := dir + "/" + name;
    SplitConcat(dir, name);
    SplitNoSlash(name);
    assert Split(p)[1..] == Split(dir)[1..] + [name];
    assert p[0] == '/' && p[|dir|] == '/' && p[|dir| + 1..] == name;
    InSuffix(p, LastSlash(p), |dir|);
    InSuffix(p, |dir|, LastSlash(p));
    assert LastSlash(p) == |dir| && p[..|dir|] == dir;
  }

  /** A path other than the root has one leading slash and no trailing one. */
  lemma SlashesOfCanonical(p: FvfsPath)
    requires p != "/"
    ensures |p| >= 2 && p[1] != '/' && p[|p| - 1] != '/'
  {
    SegmentsOfParent(p);
    var name := FileName(p);
    assert p[|p| - 1] == name[|name| - 1];
    assert Split(p)[1..] == Split(p[1..]);
    assert Split(p)[1] in Split(p)[1..];
  }

  // ---- Join

  function Join(p: FvfsPath, segment: string): (r: Result<FvfsPath>)
  {
    var raw := if p == "/" then "/" + segment else p + "/" + segment;
    NormalizeTotal(raw);
    match Normalize(raw)
    case Ok(s) => Ok(s)
    case Err(e) => Err(e)
  }

  /** Joining resolves the new pieces on top of the segments of the base path. */
  lemma JoinResolves(p: FvfsPath, segment: string)
    ensures Join(p, segment) == match Resolve(Split(segment), Segments(p))
                                case Ok(cs) => Ok(Render(cs)) case Err(e) => Err(e)
  {
    var raw := if p == "/" then "/" + segment else p + "/" + segment;
    var dir := if p == "/" then "" else p;
    assert raw == dir + "/" + segment;
    SplitConcat(dir, segment);
    ResolveConcat(Split(dir), Split(segment), []);
    if p == "/" {
      assert Resolve([""], []) == Resolve([""][1..], []) == Ok([]);
    } else {
      ResolveFromRoot(p);
    }
    assert Absolute(raw) == raw;
  }

  /** Two joins in a row are one join of the two texts put together, errors included. */
  lemma JoinJoin(p: FvfsPath, a: string, b: string)
    ensures Join(p, a + "/" + b) ==
            match Join(p, a) case Ok(q) => Join(q, b) case Err(e) => Err(e)
  {
    SplitConcat(a, b);
    ResolveConcat(Split(a), Split(b), Segments(p));
    JoinResolves(p, a);
    JoinResolves(p, a + "/" + b);
    match Resolve(Split(a), Segments(p))
    case Err(_) =>
    case Ok(mid) =>
      SplitPieces(a);
      ResolveGood(Split(a), Segments(p));
      RenderCanonical(mid);
      JoinResolves(Render(mid), b);
  }

  /**
   Joining one piece without a slash: nothing and "." stay, ".." goes up and stays at the root, a piece with NUL
   is refused, and any other piece is put below. With `JoinJoin` this gives every join, and with
   `NormalizeIsJoin` every normal form.
   */
  lemma JoinPiece(p: FvfsPath, piece: string)
    requires '/' !in piece
    ensures piece == "" || piece == "." ==> Join(p, piece) == Ok(p)
    ensures piece == ".." ==> Join(p, piece) == Ok(if p == "/" then p else Parent(p).value)
    ensures '\0' in piece ==> Join(p, piece) == Err(InvalidPath)
    ensures GoodSegment(piece) ==>
              Join(p, piece).Ok? && Join(p, piece).value == (if p == "/" then "" else p) + "/" + piece
  {
    hide Split, Join, Parent, FileName, Segments, Render;
    SplitNoSlash(piece);
    JoinResolves(p, piece);
    RenderSegments(p);
    assert Resolve([piece][1..], Segments(p)) == Ok(Segments(p));
    if piece == ".." {
      ResolveUp(Segments(p));
      UpIsParent(p);
    } else if GoodSegment(piece) {
      ChildPath(p, piece);
      JoinParentFileName((if p == "/" then "" else p) + "/" + piece);
    }
  }

  lemma ResolveUp(stack: seq<string>)
    ensures Resolve([".."], stack) == Ok(if stack == [] then [] else stack[..|stack| - 1])
  {
    assert Resolve([".."][1..], Pop(stack)) == Ok(Pop(stack));
  }

  lemma UpIsParent(p: FvfsPath)
    ensures
      var cs := Segments(p);
      Render(if cs == [] then [] else cs[..|cs| - 1]) == if p == "/" then p else Parent(p).value
  {
    if p != "/" {
      hide Split, Render;
      SegmentsOfParent(p);
      assert Segments(p)[..|Segments(p)| - 1] == Segments(Parent(p).value);
      RenderSegments(Parent(p).value);
    }
  }

  /** Normalising a text is joining it to the root. */
  lemma NormalizeIsJoin(s: string)
    requires s != ""
    ensures Normalize(s) == Join("/", s)
  {
    var raw := "/" + s;
    assert Absolute(raw) == raw;
    SplitSlash(s);
    if s[0] == '/' {
      assert Resolve([""] + Split(s), []) == Resolve(([""] + Split(s))[1..], []);
      assert ([""] + Split(s))[1..] == Split(s);
    }
  }

  /** Joining a parent with its child's name restores the child. */
  lemma JoinParentFileName(p: FvfsPath)
    requires p != "/"
    ensures Join(Parent(p).value, FileName(p)) == Ok(p)
  {
    SegmentsOfParent(p);
    var name := FileName(p);
    SplitNoSlash(name);
    JoinResolves(Parent(p).value, name);
    ResolveGoodParts([name], Segments(Parent(p).value));
    RenderSegments(p);
  }

  // ---- Prefix and ancestry

  predicate IsPrefixOf(p: FvfsPath, other: FvfsPath) {
    || p == "/"
    || (p <= other && (|other| == |p| || other[|p|] == '/'))
  }

  /** `a` is reached from `p` by taking `parent` zero or more times. */
  predicate Ancestor(a: FvfsPath, p: FvfsPath)
    decreases |p|
  {
    a == p || (p != "/" && Ancestor(a, Parent(p).value))
  }

  lemma {:induction false} IsPrefixOfIffAncestor(p: FvfsPath, other: FvfsPath)
    ensures IsPrefixOf(p, other) <==> Ancestor(p, other)
    decreases |other|
  {
    if other == "/" {
      if p != "/" && p <= other { SegmentsOfParent(p); }
    } else {
      IsPrefixOfIffAncestor(p, Parent(other).value);
      PrefixOfParent(p, other);
    }
  }

  lemma PrefixOfParent(p: FvfsPath, other: FvfsPath)
    requires other != "/"
    ensures IsPrefixOf(p, other) <==> p == other || IsPrefixOf(p, Parent(other).value)
  {
    var up, name := Parent(other).value, FileName(other);
    SegmentsOfParent(other);
    if p != "/" && p != other {
      SegmentsOfParent(p);
      PrefixOfChild(p, if up == "/" then "" else up, name);
    }
  }

  lemma PrefixOfChild(p: string, dir: string, name: string)
    requires '/' !in name && p != "" && p != dir + "/" + name
    ensures
      var other := dir + "/" + name;
      (p <= other && (|other| == |p| || other[|p|] == '/')) <==>
      (p <= dir && (|dir| == |p| || dir[|p|] == '/'))
  {
    var other := dir + "/" + name;
    assert |dir| < |p| < |other| ==> other[|p|] == name[|p| - |dir| - 1];
    if p <= other && |p| < |other| && other[|p|] == '/' {
      assert p == other[..|p|] == dir[..|p|];
    }
    if p <= dir {
      assert p == dir[..|p|] == other[..|p|];
    }
  }

  /** All strict ancestors, up to the root. */
  function Ancestors(p: FvfsPath): (r: set<FvfsPath>)
    decreases |p|
  {
    if p == "/" then {} else {Parent(p).value} + Ancestors(Parent(p).value)
  }

  lemma {:induction false} AncestorsExact(p: FvfsPath, a: FvfsPath)
    ensures a in Ancestors(p) <==> a != p && Ancestor(a, p)
    ensures a in Ancestors(p) ==> |a| < |p|
    decreases |p|
  {
    if p != "/" {
      AncestorsExact(Parent(p).value, a);
    }
  }
}
