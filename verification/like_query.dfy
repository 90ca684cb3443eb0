/**
 The directory query of `MetadataStore::list_dir`: its escaped LIKE patterns, read
 against a recursive definition of SQLite's `LIKE ... ESCAPE '\'`.
 */
module LikeQuery {
  import opened Paths

  // ---- SQLite's LIKE

  /** SQLite's default LIKE ignores the case of ASCII letters. */
  function Fold(c: char): char {
    if 'A' <= c <= 'Z' then c - 'A' + 'a' else c
  }

  predicate FoldEq(a: string, b: string) {
    |a| == |b| && forall i | 0 <= i < |a| :: Fold(a[i]) == Fold(b[i])
  }

  predicate Like(pat: string, s: string)
    decreases |pat| + |s|
  {
    if pat == "" then s == ""
    else if pat[0] == '\\' then
      |pat| >= 2 && s != "" && Fold(pat[1]) == Fold(s[0]) && Like(pat[2..], s[1..])
    else if pat[0] == '%' then
      Like(pat[1..], s) || (s != "" && Like(pat, s[1..]))
    else if pat[0] == '_' then
      s != "" && Like(pat[1..], s[1..])
    else
      s != "" && Fold(pat[0]) == Fold(s[0]) && Like(pat[1..], s[1..])
  }

  // ---- escape_like: three replacements, one after the other

  function Replace(s: string, c: char, with: string): string {
    if s == "" then "" else (if s[0] == c then with else [s[0]]) + Replace(s[1..], c, with)
  }

  function EscapeLike(s: string): string {
    Replace(Replace(Replace(s, '\\', "\\\\"), '%', "\\%"), '_', "\\_")
  }

  /** Every special character behind a backslash, the others as they are. */
  function Escaped(s: string): string {
    if s == "" then ""
    else (if s[0] in "\\%_" then "\\" + [s[0]] else [s[0]]) + Escaped(s[1..])
  }

  lemma {:induction false} ReplaceConcat(a: string, b: string, c: char, with: string)
    ensures Replace(a + b, c, with) == Replace(a, c, with) + Replace(b, c, with)
  {
    if a == "" {
      assert a + b == b;
    } else {
      assert (a + b)[1..] == a[1..] + b;
      ReplaceConcat(a[1..], b, c, with);
    }
  }

  lemma ReplaceOne(x: char, c: char, with: string)
    ensures Replace([x], c, with) == if x == c then with else [x]
  {
    assert Replace([x][1..], c, with) == "";
  }

  lemma ReplaceTwo(x: char, y: char, c: char, with: string)
    requires x != c
    ensures Replace([x, y], c, with) == [x] + (if y == c then with else [y])
  {
    assert [x, y] == [x] + [y];
    ReplaceConcat([x], [y], c, with);
    ReplaceOne(x, c, with);
    ReplaceOne(y, c, with);
  }

  lemma EscapeOne(x: char)
    ensures EscapeLike([x]) == if x in "\\%_" then "\\" + [x] else [x]
  {
    ReplaceOne(x, '\\', "\\\\");
    if x == '\\' {
      ReplaceTwo('\\', '\\', '%', "\\%");
      ReplaceTwo('\\', '\\', '_', "\\_");
    } else {
      ReplaceOne(x, '%', "\\%");
      if x == '%' {
        ReplaceTwo('\\', '%', '_', "\\_");
      } else {
        ReplaceOne(x, '_', "\\_");
      }
    }
  }

  /** The replacements do not disturb one another: the order they run in is safe. */
  lemma {:induction false} EscapeLikeIsCharwise(s: string)
    ensures EscapeLike(s) == Escaped(s)
  {
    if s == "" {
    } else {
      var h, r := [s[0]], s[1..];
      assert s == h + r;
      ReplaceConcat(h, r, '\\', "\\\\");
      var h1, r1 := Replace(h, '\\', "\\\\"), Replace(r, '\\', "\\\\");
      ReplaceConcat(h1, r1, '%', "\\%");
      ReplaceConcat(Replace(h1, '%', "\\%"), Replace(r1, '%', "\\%"), '_', "\\_");
      EscapeOne(s[0]);
      EscapeLikeIsCharwise(r);
    }
  }

  // ---- What the patterns match

  /** A character, behind a backslash if it is special, matches itself up to case. */
  lemma LikeHead(c: char, pat: string, s: string)
    ensures Like((if c in "\\%_" then "\\" + [c] else [c]) + pat, s) <==>
            s != "" && Fold(c) == Fold(s[0]) && Like(pat, s[1..])
  {
    var head := if c in "\\%_" then "\\" + [c] else [c];
    assert (head + pat)[|head|..] == pat;
  }

  lemma FoldEqHead(x: string, s: string)
    requires x != "" && |x| <= |s|
    ensures FoldEq(x, s[..|x|]) <==> Fold(x[0]) == Fold(s[0]) && FoldEq(x[1..], s[1..][..|x| - 1])
  {
    if Fold(x[0]) == Fold(s[0]) && FoldEq(x[1..], s[1..][..|x| - 1]) {
      forall i | 0 <= i < |x| ensures Fold(x[i]) == Fold(s[..|x|][i]) {
        if i > 0 { assert x[i] == x[1..][i - 1] && s[i] == s[1..][..|x| - 1][i - 1]; }
      }
    }
  }

  lemma {:induction false} LikeEscaped(x: string, rest: string, s: string)
    ensures Like(Escaped(x) + rest, s) <==>
            |x| <= |s| && FoldEq(x, s[..|x|]) && Like(rest, s[|x|..])
  {
    hide Like, Fold;
    if x == "" {
      assert Escaped(x) + rest == rest;
      assert s[0..] == s;
    } else {
      hide FoldEq;
      var head := if x[0] in "\\%_" then "\\" + [x[0]] else [x[0]];
      assert Escaped(x) + rest == head + (Escaped(x[1..]) + rest);
      LikeHead(x[0], Escaped(x[1..]) + rest, s);
      if s != "" {
        LikeEscaped(x[1..], rest, s[1..]);
        if |x| <= |s| {
          FoldEqHead(x, s);
          assert s[1..][|x| - 1..] == s[|x|..];
        }
      }
    }
  }

  lemma {:induction false} LikeAnything(s: string)
    ensures Like("%", s)
  {
    if s == "" {
      assert Like("%"[1..], s);
    } else {
      LikeAnything(s[1..]);
    }
  }

  lemma {:induction false} LikeContainsSlash(s: string)
    ensures Like("%/%", s) <==> '/' in s
  {
    assert "%/%"[1..] == "/%" && "/%"[1..] == "%";
    assert Like("/%", s) <==> s != "" && s[0] == '/' by {
      if s != "" { LikeAnything(s[1..]); }
    }
    if s == "" {
    } else {
      assert s == [s[0]] + s[1..];
      LikeContainsSlash(s[1..]);
    }
  }

  // ---- list_dir

  function DirPrefix(d: FvfsPath): string {
    if d == "/" then "/" else d + "/"
  }

  /** The rows selected by `path LIKE prefix% AND path NOT LIKE prefix%/%`. */
  function ListDir(stored: set<FvfsPath>, d: FvfsPath): set<FvfsPath> {
    var prefix := EscapeLike(DirPrefix(d));
    set p | p in stored && Like(prefix + "%", p) && !Like(prefix + "%/%", p)
  }

  lemma MatchesPatterns(d: FvfsPath, p: FvfsPath)
    ensures
      var prefix := DirPrefix(d);
      (Like(EscapeLike(prefix) + "%", p) && !Like(EscapeLike(prefix) + "%/%", p)) <==>
      (|prefix| <= |p| && FoldEq(prefix, p[..|prefix|]) && '/' !in p[|prefix|..])
  {
    var prefix := DirPrefix(d);
    EscapeLikeIsCharwise(prefix);
    LikeEscaped(prefix, "%", p);
    LikeEscaped(prefix, "%/%", p);
    if |prefix| <= |p| {
      LikeAnything(p[|prefix|..]);
      LikeContainsSlash(p[|prefix|..]);
    }
  }

  lemma FoldEqAppendSlash(d: string, q: string)
    ensures FoldEq(d + "/", q) <==> |q| == |d| + 1 && q[|d|] == '/' && FoldEq(d, q[..|d|])
  {
    if |q| == |d| + 1 {
      assert forall i | 0 <= i < |d| :: (d + "/")[i] == d[i] && q[..|d|][i] == q[i];
    }
  }

  lemma ChildOfPrefix(p: FvfsPath, n: nat)
    requires 1 <= n < |p| && p[n] == '/' && '/' !in p[n + 1..]
    ensures p != "/" && Parent(p).value == p[..n]
  {
    CanonicalHasSlash(p);
    InSuffix(p, LastSlash(p), n);
    InSuffix(p, n, LastSlash(p));
  }

  /**
   For all stored names, whatever %, _ or \ they hold: a listing of `d` is the stored paths whose
   parent is `d` up to ASCII case, and the root's own row when `d` is the root.
   */
  lemma ListDirExact(stored: set<FvfsPath>, d: FvfsPath, p: FvfsPath)
    ensures p in ListDir(stored, d) <==>
            p in stored && (if p == "/" then d == "/" else FoldEq(d, Parent(p).value))
  {
    MatchesPatterns(d, p);
    if d == "/" {
      assert DirPrefix(d) == "/" && p[..1] == "/";
      RootListing(p);
    } else {
      SlashesOfCanonical(d);
      FoldListing(d, p);
    }
  }

  lemma RootListing(p: FvfsPath)
    ensures '/' !in p[1..] <==> (p == "/" || FoldEq("/", Parent(p).value))
  {
    if p != "/" {
      SegmentsOfParent(p);
      var up, name := Parent(p).value, FileName(p);
      if up == "/" {
        assert p[1..] == name;
      } else {
        SlashesOfCanonical(up);
        assert p[|up|] == '/' && p[1..][|up| - 1] == '/';
      }
    }
  }

  lemma FoldListing(d: FvfsPath, p: FvfsPath)
    requires |d| >= 2
    ensures (|d| + 1 <= |p| && FoldEq(d + "/", p[..|d| + 1]) && '/' !in p[|d| + 1..]) <==>
            p != "/" && FoldEq(d, Parent(p).value)
  {
    var n := |d|;
    if n + 1 <= |p| {
      FoldEqAppendSlash(d, p[..n + 1]);
      assert p[..n + 1][..n] == p[..n];
      if p[n] == '/' && '/' !in p[n + 1..] {
        ChildOfPrefix(p, n);
      }
    }
    if p != "/" && |Parent(p).value| == n {
      SegmentsOfParent(p);
      assert p[n + 1..] == FileName(p) && p[..n] == Parent(p).value;
    }
  }

  // ---- The order of a listing

  /** Text order, character by character. */
  predicate TextBefore(a: string, b: string) {
    b != "" && (a == "" || a[0] < b[0] || (a[0] == b[0] && TextBefore(a[1..], b[1..])))
  }

  /** Where two texts part decides: the one that ends there, or has the smaller character, comes first. */
  lemma {:induction false} TextOrderDecided(a: string, b: string, k: nat)
    requires k <= |a| && k < |b| && a[..k] == b[..k] && (k == |a| || a[k] != b[k])
    ensures TextBefore(a, b) <==> k == |a| || a[k] < b[k]
  {
    if k == 0 {
    } else {
      assert a[0] == a[..k][0] == b[..k][0] == b[0];
      assert a[1..][..k - 1] == a[..k][1..] == b[..k][1..] == b[1..][..k - 1];
      TextOrderDecided(a[1..], b[1..], k - 1);
    }
  }

  lemma {:induction false} TextTotal(a: string, b: string)
    ensures TextBefore(a, b) || a == b || TextBefore(b, a)
  {
    if a == "" || b == "" {
    } else if a[0] == b[0] {
      TextTotal(a[1..], b[1..]);
      assert a == [a[0]] + a[1..] && b == [b[0]] + b[1..];
    }
  }

  lemma {:induction false} TextTransitive(a: string, b: string, c: string)
    requires TextBefore(a, b) && TextBefore(b, c)
    ensures TextBefore(a, c)
  {
    if a == "" {
    } else if a[0] == b[0] == c[0] {
      TextTransitive(a[1..], b[1..], c[1..]);
    }
  }

  lemma {:induction false} TextStrict(a: string)
    ensures !TextBefore(a, a)
  {
    if a == "" {
    } else {
      TextStrict(a[1..]);
    }
  }

  lemma {:induction false} FirstExists(ps: set<FvfsPath>)
    requires ps != {}
    ensures exists m :: m in ps && forall p | p in ps && p != m :: TextBefore(m, p)
  {
    hide TextBefore;
    var x :| x in ps;
    var rest := ps - {x};
    if rest == {} {
      assert ps == {x};
    } else {
      FirstExists(rest);
      var m :| m in rest && forall p | p in rest && p != m :: TextBefore(m, p);
      TextTotal(x, m);
      if TextBefore(x, m) {
        forall p | p in ps && p != x ensures TextBefore(x, p) {
          if p != m { TextTransitive(x, m, p); }
        }
        assert x in ps;
      } else {
        assert m in ps && forall p | p in ps && p != m :: TextBefore(m, p);
      }
    }
  }

  /** `list_dir`: the rows the two patterns select, in the order of their paths, none twice. */
  method ListDirectory(stored: set<FvfsPath>, d: FvfsPath) returns (listed: seq<FvfsPath>)
    ensures forall p :: p in listed <==> p in ListDir(stored, d)
    ensures forall i, j | 0 <= i < j < |listed| :: listed[i] != listed[j] && TextBefore(listed[i], listed[j])
  {
    hide TextBefore;
    listed := [];
    var todo := ListDir(stored, d);
    while todo != {}
      invariant todo <= ListDir(stored, d)
      invariant forall p :: p in listed <==> p in ListDir(stored, d) && p !in todo
      invariant forall i, j | 0 <= i < j < |listed| :: TextBefore(listed[i], listed[j])
      invariant forall p, q | p in listed && q in todo :: TextBefore(p, q)
      decreases |todo|
    {
      FirstExists(todo);
      var m :| m in todo && forall p | p in todo && p != m :: TextBefore(m, p);
      listed, todo := listed + [m], todo - {m};
    }
    forall i, j | 0 <= i < j < |listed| ensures listed[i] != listed[j] {
      TextStrict(listed[i]);
    }
  }

  /** The case folding is visible: a listing of one directory can show another's child. */
  lemma ListDirCrossesCase() returns (d: FvfsPath, p: FvfsPath)
    ensures p in ListDir({p}, d) && p != "/" && Parent(p).value != d
  {
    ChildPath(ROOT, "a");
    ChildPath(ROOT, "A");
    d := "" + "/" + "a";
    var other: FvfsPath := "" + "/" + "A";
    ChildPath(other, "x");
    p := other + "/" + "x";
    ListDirExact({p}, d, p);
    assert d[1] == 'a' && other[1] == 'A';
  }
}
