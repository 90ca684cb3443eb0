/**
 How paths are encoded in the backends: S3 object keys and the listing prefix of
 fvfs-core/src/backend/s3.rs, and file-system paths of fvfs-core/src/backend/local.rs.
 */
module ObjectKeys {
  import opened Results
  import opened Paths

  // ---- Trimming slashes

  function TrimStart(s: string): (r: string)
    ensures r == "" || r[0] != '/'
  {
    if s != "" && s[0] == '/' then TrimStart(s[1..]) else s
  }

  function TrimEnd(s: string): (r: string)
    ensures r == "" || r[|r| - 1] != '/'
    ensures r <= s
  {
    if s != "" && s[|s| - 1] == '/' then TrimEnd(s[..|s| - 1]) else s
  }

  predicate BareSlashes(s: string) {
    forall c | c in s :: c == '/'
  }

  lemma SlashesAppend(a: string, b: string)
    requires BareSlashes(a) && BareSlashes(b)
    ensures BareSlashes(a + b)
  {
  }

  /** Trimming takes slashes off the front and nothing else. */
  lemma {:induction false} TrimStartTakesSlashes(s: string)
    ensures
      var n := |s| - |TrimStart(s)|;
      0 <= n <= |s| && TrimStart(s) == s[n..] && BareSlashes(s[..n])
  {
    hide BareSlashes;
    if s != "" && s[0] == '/' {
      TrimStartTakesSlashes(s[1..]);
      var n := |s| - |TrimStart(s)|;
      OneSlash();
      SlashesAppend("/", s[1..][..n - 1]);
      assert "/" + s[1..][..n - 1] == s[..n];
    } else {
      NoSlash();
      assert s[..0] == "" && s[0..] == s;
    }
  }

  /** And off the end. */
  lemma {:induction false} TrimEndTakesSlashes(s: string)
    ensures TrimEnd(s) == s[..|TrimEnd(s)|] && BareSlashes(s[|TrimEnd(s)|..])
  {
    hide BareSlashes;
    var r := TrimEnd(s);
    if s != "" && s[|s| - 1] == '/' {
      var init := s[..|s| - 1];
      TrimEndTakesSlashes(init);
      OneSlash();
      SlashesAppend(init[|r|..], "/");
      assert init[|r|..] + "/" == s[|r|..];
    } else {
      NoSlash();
      assert s[|s|..] == "" && s[..|s|] == s;
    }
  }

  lemma OneSlash()
    ensures BareSlashes("/")
  {
  }

  lemma NoSlash()
    ensures BareSlashes("")
  {
  }

  lemma {:induction false} TrimEndEmpty(s: string)
    ensures TrimEnd(s) == "" <==> BareSlashes(s)
  {
    if s == "" {
    } else {
      var init := s[..|s| - 1];
      assert s == init + [s[|s| - 1]] && s[|s| - 1] in s;
      assert forall c | c in init :: c in s;
      if s[|s| - 1] == '/' { TrimEndEmpty(init); }
    }
  }

  /** The path below the root, without its leading slash. */
  function Relative(p: FvfsPath): (r: string)
    ensures "/" + r == p
    ensures r == TrimStart(p)
    ensures r == "" <==> p == "/"
  {
    CanonicalHasSlash(p);
    if p != "/" then SlashesOfCanonical(p); p[1..] else ""
  }

  // ---- S3 keys

  function S3Key(prefix: string, p: FvfsPath): string {
    var rel := TrimStart(p);
    if prefix == "" then rel
    else TrimEnd(prefix) + (if rel == "" then "" else "/" + rel)
  }

  lemma KeyOfNonRoot(prefix: string, p: FvfsPath)
    requires p != "/"
    ensures S3Key(prefix, p) == if prefix == "" then Relative(p) else TrimEnd(prefix) + p
  {
    assert "/" + Relative(p) == p;
  }

  /** Removes the prefix where it is there, and leaves the key as it is otherwise. */
  function StripPrefix(key: string, x: string): string {
    if x <= key then key[|x|..] else key
  }

  /** How `list` turns a key back into a path. */
  function PathOfKey(prefix: string, key: string): FvfsPath {
    var rel := if prefix == "" then key else TrimStart(StripPrefix(key, TrimEnd(prefix)));
    NormalizeTotal("/" + rel);
    match Normalize("/" + rel)
    case Ok(p) => p
    case Err(_) => UnknownCanonical(); "/unknown"
  }

  lemma UnknownCanonical()
    ensures Canonical("/unknown")
  {
    ChildPath(ROOT, "unknown");
    assert "" + "/" + "unknown" == "/unknown";
  }

  /** Every path comes back from its key, whatever prefix is configured. */
  lemma KeyRoundTrip(prefix: string, p: FvfsPath)
    ensures PathOfKey(prefix, S3Key(prefix, p)) == p
  {
    var rel := Relative(p);
    var key := S3Key(prefix, p);
    NormalizeFixesCanonical(p);
    if prefix != "" {
      var base := TrimEnd(prefix);
      assert key[|base|..] == if rel == "" then "" else "/" + rel;
      if rel != "" {
        assert ("/" + rel)[1..] == rel;
        assert TrimStart("/" + rel) == TrimStart(rel) == rel;
      }
    }
  }

  lemma KeysInjective(prefix: string, p: FvfsPath, q: FvfsPath)
    requires S3Key(prefix, p) == S3Key(prefix, q)
    ensures p == q
  {
    KeyRoundTrip(prefix, p);
    KeyRoundTrip(prefix, q);
  }

  // ---- Listing

  /** The key prefix `list` hands to S3. */
  function ListPrefix(prefix: string, p: FvfsPath): string {
    var keyPrefix := S3Key(prefix, p);
    if keyPrefix == "/" || keyPrefix == "" then prefix else TrimEnd(keyPrefix) + "/"
  }

  lemma {:induction false} TrimEndNoop(s: string)
    requires s != "" && s[|s| - 1] != '/'
    ensures TrimEnd(s) == s
  {
  }

  /** `p + "/"` starts `q` exactly when `p` is a strict ancestor of `q`. */
  lemma StrictAncestorText(p: FvfsPath, q: FvfsPath)
    requires p != "/"
    ensures p + "/" <= q <==> p != q && Ancestor(p, q)
  {
    IsPrefixOfIffAncestor(p, q);
    if p + "/" <= q {
      assert q[..|p|] == (p + "/")[..|p|] == p && q[|p|] == '/';
    }
    if p != q && IsPrefixOf(p, q) {
      assert q[..|q|] == q;
      assert q[..|p| + 1] == p + "/";
    }
  }

  lemma PrefixShift(base: string, a: string, b: string)
    ensures base + a <= base + b <==> a <= b
  {
    if base + a <= base + b {
      assert a == (base + a)[|base|..] == (base + b)[..|base + a|][|base|..] == b[..|a|];
    }
    if a <= b {
      assert (base + b)[..|base + a|] == base + b[..|a|];
    }
  }

  /**
   The listing prefix selects the keys of the strict descendants and no others, unless the root is
   listed with a configured prefix of two or more bare slashes; then it selects nothing.
   */
  lemma ListingExact(prefix: string, p: FvfsPath, q: FvfsPath)
    requires q != "/"
    ensures (ListPrefix(prefix, p) <= S3Key(prefix, q) <==> p != q && Ancestor(p, q)) <==>
            !(p == "/" && BareSlashes(prefix) && |prefix| >= 2)
  {
    hide Ancestor, ListPrefix, S3Key, BareSlashes;
    RootIsAncestor(q);
    if p == "/" {
      RootListing(prefix, q);
    } else {
      DirectoryListing(prefix, p, q);
    }
  }

  /** The exception happens: with the prefix "//" a listing of the root misses every object. */
  lemma BareSlashesListNothing(q: FvfsPath)
    requires q != "/"
    ensures Ancestor(ROOT, q) && !(ListPrefix("//", ROOT) <= S3Key("//", q))
  {
    hide Ancestor, ListPrefix, S3Key;
    RootIsAncestor(q);
    ListingExact("//", ROOT, q);
  }

  lemma DirectoryListing(prefix: string, p: FvfsPath, q: FvfsPath)
    requires p != "/" && q != "/"
    ensures ListPrefix(prefix, p) <= S3Key(prefix, q) <==> p != q && Ancestor(p, q)
  {
    hide Ancestor, ListPrefix, S3Key, TrimEnd, Relative, TrimStart;
    BelowRootListing(prefix, p);
    StrictAncestorText(p, q);
    KeyOfNonRoot(prefix, q);
    if prefix == "" {
      PrefixShift("/", Relative(p) + "/", Relative(q));
      assert "/" + (Relative(p) + "/") == p + "/";
    } else {
      PrefixShift(TrimEnd(prefix), p + "/", q);
    }
  }

  lemma {:induction false} RootIsAncestor(q: FvfsPath)
    ensures Ancestor("/", q)
    decreases |q|
  {
    if q != "/" { RootIsAncestor(Parent(q).value); }
  }

  lemma RootListing(prefix: string, q: FvfsPath)
    requires q != "/"
    ensures ListPrefix(prefix, "/") <= S3Key(prefix, q) <==> !(BareSlashes(prefix) && |prefix| >= 2)
  {
    TrimEndEmpty(prefix);
    if prefix == "" {
      assert TrimStart("/") == "" by { assert Relative(ROOT) == ""; }
    } else if TrimEnd(prefix) == "" {
      BareRootListing(prefix, q);
    } else {
      NamedRootListing(prefix, q);
    }
  }

  lemma BareKeys(prefix: string, q: FvfsPath)
    requires q != "/" && prefix != "" && TrimEnd(prefix) == ""
    ensures ListPrefix(prefix, "/") == prefix && S3Key(prefix, q) == q
  {
    assert TrimStart("/") == "" by { assert Relative(ROOT) == ""; }
    KeyOfNonRoot(prefix, q);
    hide TrimStart, TrimEnd, Canonical;
  }

  lemma BareRootListing(prefix: string, q: FvfsPath)
    requires q != "/" && prefix != "" && TrimEnd(prefix) == "" && BareSlashes(prefix)
    ensures ListPrefix(prefix, "/") <= S3Key(prefix, q) <==> |prefix| < 2
  {
    hide TrimStart, TrimEnd, ListPrefix, S3Key, Canonical;
    BareKeys(prefix, q);
    SlashesOfCanonical(q);
    assert prefix[0] in prefix;
    assert q[0] == '/' by { StartsWithSlash(q); }
    if |prefix| >= 2 {
      assert prefix[1] in prefix;
      assert prefix[1] != q[1];
    } else {
      assert prefix == "/" == q[..1];
    }
  }

  lemma StartsWithSlash(q: FvfsPath)
    ensures q != "" && q[0] == '/'
  {
  }

  lemma NamedRootListing(prefix: string, q: FvfsPath)
    requires q != "/" && prefix != "" && TrimEnd(prefix) != ""
    ensures ListPrefix(prefix, "/") <= S3Key(prefix, q)
  {
    var base, rel := TrimEnd(prefix), Relative(q);
    assert TrimStart("/") == "" by { assert Relative(ROOT) == ""; }
    hide TrimStart, TrimEnd, Canonical, BareSlashes;
    assert S3Key(prefix, "/") == base + "" == base;
    TrimEndNoop(base);
    assert ListPrefix(prefix, "/") == base + "/";
    assert S3Key(prefix, q) == base + ("/" + rel);
    PrefixShift(base, "/", "/" + rel);
  }

  lemma ListPrefixOfKey(prefix: string, p: FvfsPath)
    requires var key := S3Key(prefix, p); key != "" && key[|key| - 1] != '/'
    ensures ListPrefix(prefix, p) == S3Key(prefix, p) + "/"
  {
    hide S3Key, TrimEnd;
    TrimEndNoop(S3Key(prefix, p));
  }

  lemma BelowRootListing(prefix: string, p: FvfsPath)
    requires p != "/"
    ensures ListPrefix(prefix, p) ==
            if prefix == "" then Relative(p) + "/" else TrimEnd(prefix) + (p + "/")
  {
    hide ListPrefix, S3Key, TrimStart, TrimEnd, Relative, Canonical;
    SlashesOfCanonical(p);
    KeyOfNonRoot(prefix, p);
    if prefix == "" {
      EndsLike("/", Relative(p));
      ListPrefixOfKey(prefix, p);
    } else {
      EndsLike(TrimEnd(prefix), p);
      ListPrefixOfKey(prefix, p);
      Associate(TrimEnd(prefix), p);
    }
  }

  lemma Associate(a: string, b: string)
    ensures a + b + "/" == a + (b + "/")
  {
  }

  lemma EndsLike(a: string, b: string)
    requires b != ""
    ensures a + b != "" && (a + b)[|a + b| - 1] == b[|b| - 1]
  {
  }

  // ---- Disk paths

  /** `PathBuf::join`: an absolute right-hand side would replace the root. */
  function PathBufJoin(root: string, rel: string): string {
    if rel != "" && rel[0] == '/' then rel
    else if root == "" || root[|root| - 1] == '/' then root + rel
    else root + "/" + rel
  }

  function FsPath(root: string, p: FvfsPath): string {
    PathBufJoin(root, TrimStart(p))
  }

  /** Disk paths stay below the root: the root comes first and no ".." follows it. */
  lemma FsPathUnderRoot(root: string, p: FvfsPath)
    ensures root <= FsPath(root, p)
    ensures p != "/" ==> AllGood(Split(Relative(p))) && Segments(p) == Split(Relative(p))
    ensures FsPath(root, p) == PathBufJoin(root, "") + Relative(p)
  {
    var rel := Relative(p);
    if p != "/" {
      assert Split(p)[1..] == Split(p[1..]);
    }
  }

  lemma FsPathInjective(root: string, p: FvfsPath, q: FvfsPath)
    requires FsPath(root, p) == FsPath(root, q)
    ensures p == q
  {
    FsPathUnderRoot(root, p);
    FsPathUnderRoot(root, q);
    var base := PathBufJoin(root, "");
    assert Relative(p) == (base + Relative(p))[|base|..];
    assert Relative(q) == (base + Relative(q))[|base|..];
  }

  /** Under a canonical root, the disk path normalises to a descendant of the root. */
  lemma FsPathResolves(root: FvfsPath, p: FvfsPath)
    ensures Join(root, Relative(p)).Ok?
    ensures Normalize(FsPath(root, p)) == Join(root, Relative(p))
    ensures Segments(Join(root, Relative(p)).value) == Segments(root) + Segments(p)
  {
    FsPathUnderRoot(root, p);
    var rel := Relative(p);
    JoinResolves(root, rel);
    if p == "/" {
      assert Resolve([""], Segments(root)) == Resolve([""][1..], Segments(root)) == Ok(Segments(root));
      assert Segments(root) + [] == Segments(root);
    } else {
      ResolveGoodParts(Split(rel), Segments(root));
    }
    RenderCanonical(Segments(root) + Segments(p));
    if root != "/" { SlashesOfCanonical(root); }
    assert FsPath(root, p) == if root == "/" then "/" + rel else root + "/" + rel;
  }
}
