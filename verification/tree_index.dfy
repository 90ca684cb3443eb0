/** The index as a tree: when every ancestor of an indexed path is indexed too. */
module TreeIndex {
  import opened Paths
  import opened Protocol
  import opened SerialRuns

  ghost predicate Closed(ks: set<FvfsPath>) {
    forall p | p in ks && p != "/" :: Parent(p).value in ks
  }

  ghost predicate Childless(ks: set<FvfsPath>, p: FvfsPath) {
    forall q | q in ks && q != "/" :: Parent(q).value != p
  }

  /** `delete` takes non-empty directories too; the index stays a tree exactly when the row was childless. */
  lemma DeleteKeepsClosed(ks: set<FvfsPath>, p: FvfsPath)
    requires Closed(ks)
    ensures Closed(ks - {p}) <==> p !in ks || Childless(ks, p)
  {
    if p in ks && !Childless(ks, p) {
      var q :| q in ks && q != "/" && Parent(q).value == p;
      assert q in ks - {p};
    }
    if p !in ks {
      assert ks - {p} == ks;
    }
  }

  /** The same of a delete after any run, whatever backend calls fail. */
  lemma DeleteStepKeepsTree(es: seq<Event>, p: FvfsPath, f: Faults)
    requires Closed(Run(es).db.rows.Keys)
    ensures Closed(Run(es + [DeleteEv(p, f)]).db.rows.Keys) <==>
            p !in Run(es).db.rows || Childless(Run(es).db.rows.Keys, p)
  {
    hide Run, Closed, Childless, Inv;
    RunInvariant(es);
    RunInvariant(es + [DeleteEv(p, f)]);
    SpecRunSnoc(es, DeleteEv(p, f));
    assert Abs(Run(es).db.rows).Keys == Run(es).db.rows.Keys;
    assert Abs(Run(es + [DeleteEv(p, f)]).db.rows).Keys == Run(es + [DeleteEv(p, f)]).db.rows.Keys;
    assert Run(es + [DeleteEv(p, f)]).db.rows.Keys == Run(es).db.rows.Keys - {p};
    DeleteKeepsClosed(Run(es).db.rows.Keys, p);
  }

  lemma {:induction false} AncestorsClosed(p: FvfsPath)
    ensures Closed(Ancestors(p))
    decreases |p|
  {
    if p != "/" {
      var up := Parent(p).value;
      AncestorsClosed(up);
      forall q | q in Ancestors(p) && q != "/" ensures Parent(q).value in Ancestors(p) {
        if q == up { assert Parent(q).value in Ancestors(up); }
      }
    }
  }

  /** Indexing a path with its ancestors keeps the tree. */
  lemma InsertKeepsClosed(ks: set<FvfsPath>, p: FvfsPath)
    requires Closed(ks)
    ensures Closed(ks + {p} + Ancestors(p))
  {
    AncestorsClosed(p);
    var all := ks + {p} + Ancestors(p);
    forall q | q in all && q != "/" ensures Parent(q).value in all {
      if q == p { assert Parent(p).value in Ancestors(p); }
    }
  }

  /** Every delete of the run that finds a row finds it childless. */
  ghost predicate DeletesChildless(es: seq<Event>) {
    forall i | 0 <= i < |es| && es[i].DeleteEv? ::
      es[i].path !in SpecRun(es[..i]) || Childless(SpecRun(es[..i]).Keys, es[i].path)
  }

  lemma SpecStepClosed(m: Tree, e: Event)
    requires Closed(m.Keys)
    requires e.DeleteEv? ==> e.path !in m || Childless(m.Keys, e.path)
    ensures Closed(SpecStep(m, e).Keys)
  {
    match e
    case WriteEv(p, d, putFails) =>
      if !putFails {
        InsertKeepsClosed(m.Keys, p);
        assert SpecStep(m, e).Keys == m.Keys + {p} + Ancestors(p);
      }
    case MkdirEv(p) =>
      InsertKeepsClosed(m.Keys, p);
      assert SpecStep(m, e).Keys == m.Keys + {p} + Ancestors(p);
    case DeleteEv(p, _) =>
      DeleteKeepsClosed(m.Keys, p);
      assert SpecStep(m, e).Keys == m.Keys - {p};
    case _ =>
  }

  lemma {:induction false} SpecRunClosed(es: seq<Event>)
    requires DeletesChildless(es)
    ensures Closed(SpecRun(es).Keys)
  {
    if es == [] {
    } else {
      var n := |es| - 1;
      forall i | 0 <= i < n && es[..n][i].DeleteEv?
        ensures es[..n][i].path !in SpecRun(es[..n][..i])
             || Childless(SpecRun(es[..n][..i]).Keys, es[..n][i].path)
      {
        assert es[..n][..i] == es[..i] && es[..n][i] == es[i];
      }
      SpecRunClosed(es[..n]);
      SpecStepClosed(SpecRun(es[..n]), es[n]);
    }
  }

  lemma {:induction false} ClosedHasAncestors(ks: set<FvfsPath>, a: FvfsPath, p: FvfsPath)
    requires Closed(ks) && p in ks && Ancestor(a, p)
    ensures a in ks
    decreases |p|
  {
    if a != p { ClosedHasAncestors(ks, a, Parent(p).value); }
  }

  /** Runs that delete only childless rows keep every ancestor of every row indexed. */
  lemma AncestorsStayIndexed(es: seq<Event>, p: FvfsPath, a: FvfsPath)
    requires DeletesChildless(es) && p in Run(es).db.rows && IsPrefixOf(a, p)
    ensures a in Run(es).db.rows
  {
    RunInvariant(es);
    SpecRunClosed(es);
    IsPrefixOfIffAncestor(a, p);
    assert Abs(Run(es).db.rows).Keys == Run(es).db.rows.Keys;
    ClosedHasAncestors(SpecRun(es).Keys, a, p);
  }
}
