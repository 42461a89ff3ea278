/**
 * The per-file decision of `merge`: which of the split point's, the current
 * commit's and the given commit's versions the merged commit records, and
 * the text written for a conflict.
 */
module MergeRules {
  import opened Options
  import opened Commits
  import opened Trees

  /** What the file loop of a merge does with one name. */
  datatype Action =
    | TakeGiven   // check out the given version and stage it
    | Conflict    // write conflict markers and stage the result
    | Remove      // `rm` the name
    | Keep        // leave the current version alone

  /**
   * The six ordered cases of the file loop (lines 879-941), on the blob ids
   * of one name in the split point `s`, the current commit `c` and the
   * given commit `g` (`None` where the commit does not track the name).
   * The first matching case wins; a name matching none is kept.
   */
  function Classify(s: Option<Id>, c: Option<Id>, g: Option<Id>): (a: Action)
    ensures a == TakeGiven <==> c == s && g.Some? && g != s
    ensures a == Remove <==> s.Some? && c == s && g.None?
    ensures a == Conflict <==> s.Some? && c != s && g != s && c != g
  {
    if s.Some? && g.Some? && c.Some? && s.value == c.value && g.value != c.value then TakeGiven
    else if s.Some? && g.Some? && c.Some? && g.value != c.value && s.value != c.value && s.value != g.value then Conflict
    else if s.Some? && g.Some? && c.None? && s.value != g.value then Conflict
    else if s.Some? && g.None? && c.Some? && s.value != c.value then Conflict
    else if s.None? && c.None? && g.Some? then TakeGiven
    else if s.Some? && c.Some? && s.value == c.value && g.None? then Remove
    else Keep
  }

  /** The decision for name `f` of the three trees. */
  function Act(s: Tree, c: Tree, g: Tree, f: FileName): (a: Action)
    ensures a == TakeGiven ==> f in g && Get(c, f) == Get(s, f)
    ensures a == Remove ==> f in s && f !in g && Get(c, f) == Get(s, f)
    ensures a == Conflict ==> f in s && Get(c, f) != Get(s, f) && Get(g, f) != Get(s, f) && Get(c, f) != Get(g, f)
    ensures f !in s && f !in c && f !in g ==> a == Keep
  {
    Classify(Get(s, f), Get(c, f), Get(g, f))
  }

  /** The text `mergeIsConflict` writes: both versions between conflict markers. */
  function ConflictText(cur: Content, other: Content): (r: Content)
    ensures |r| == |cur| + |other| + 29
    ensures r[..13] == "<<<<<<< HEAD\n" && r[|r| - 8..] == ">>>>>>>\n"
    ensures r[13..13 + |cur|] == cur && r[13 + |cur|..21 + |cur|] == "=======\n"
    ensures r[21 + |cur|..|r| - 8] == other
  {
    "<<<<<<< HEAD\n" + cur + "=======\n" + other + ">>>>>>>\n"
  }

  /** Conflict texts determine both sides: distinct inputs give distinct blobs. */
  lemma ConflictTextInjective(c1: Content, o1: Content, c2: Content, o2: Content)
    requires |c1| == |c2|
    requires ConflictText(c1, o1) == ConflictText(c2, o2)
    ensures c1 == c2 && o1 == o2
  {
    var r := ConflictText(c1, o1);
    assert c1 == r[13..13 + |c1|] == c2;
    assert o1 == r[21 + |c1|..|r| - 8] == o2;
  }

  /** A side's text: the blob of the name in that tree, or empty when the tree does not track it. */
  function SideText(blobs: Blobs, t: Tree, f: FileName): Content {
    if f in t && t[f] in blobs then blobs[t[f]] else ""
  }

  /** Writing more blobs does not change a side's text for a tree whose blobs were already stored. */
  lemma SideTextStable(before: Blobs, after: Blobs, t: Tree, f: FileName)
    requires TreeIn(t, before) && Extends(after, before)
    ensures SideText(after, t, f) == SideText(before, t, f)
  {
  }

  /** The conflict text for name `f`, current side first. */
  function ConflictBlob(blobs: Blobs, c: Tree, g: Tree, f: FileName): Content {
    ConflictText(SideText(blobs, c, f), SideText(blobs, g, f))
  }

  /** The blob id the merge commit records for `f`. */
  function MergedAt(h: Hasher, blobs: Blobs, s: Tree, c: Tree, g: Tree, f: FileName): (r: Option<Id>)
    ensures r == Get(c, f) || r == Get(g, f) || (Act(s, c, g, f) == Conflict && r == Some(h.ofText(ConflictBlob(blobs, c, g, f))))
    ensures f in c && f in g ==> r.Some?
  {
    match Act(s, c, g, f)
    case TakeGiven => Get(g, f)
    case Conflict => Some(h.ofText(ConflictBlob(blobs, c, g, f)))
    case Remove => None
    case Keep => Get(c, f)
  }

  /** The tree of the merge commit, name by name. */
  function MergedTree(h: Hasher, blobs: Blobs, s: Tree, c: Tree, g: Tree): (t: Tree)
    ensures forall f :: Get(t, f) == MergedAt(h, blobs, s, c, g, f)
  {
    map f | f in s.Keys + c.Keys + g.Keys && MergedAt(h, blobs, s, c, g, f).Some? :: MergedAt(h, blobs, s, c, g, f).value
  }

  /** Where both sides agree (both absent included), the merge keeps that version. */
  lemma MergeKeepsAgreement(h: Hasher, blobs: Blobs, s: Tree, c: Tree, g: Tree, f: FileName)
    requires Get(c, f) == Get(g, f)
    ensures MergedAt(h, blobs, s, c, g, f) == Get(c, f)
  {
  }

  /** Where only the given branch changed the name since the split point, its version (or deletion) wins. */
  lemma MergeTakesGivenChange(h: Hasher, blobs: Blobs, s: Tree, c: Tree, g: Tree, f: FileName)
    requires Get(c, f) == Get(s, f)
    ensures MergedAt(h, blobs, s, c, g, f) == Get(g, f)
  {
  }

  /** Where only the current branch changed the name since the split point, its version stays. */
  lemma MergeKeepsCurrentChange(h: Hasher, blobs: Blobs, s: Tree, c: Tree, g: Tree, f: FileName)
    requires Get(g, f) == Get(s, f)
    ensures MergedAt(h, blobs, s, c, g, f) == Get(c, f)
  {
  }

  /**
   * A name both branches changed differently conflicts when the split point
   * tracked it; when the split point did not, the current version is kept
   * silently.
   */
  lemma DivergentChanges(h: Hasher, blobs: Blobs, s: Tree, c: Tree, g: Tree, f: FileName)
    requires Get(c, f) != Get(s, f) && Get(g, f) != Get(s, f) && Get(c, f) != Get(g, f)
    ensures f in s ==> MergedAt(h, blobs, s, c, g, f) == Some(h.ofText(ConflictBlob(blobs, c, g, f)))
    ensures f !in s ==> MergedAt(h, blobs, s, c, g, f) == Get(c, f)
  {
  }

  /** A merge of a branch with an unchanged copy of itself changes nothing. */
  lemma MergeWithSplitIsIdentity(h: Hasher, blobs: Blobs, s: Tree, c: Tree)
    ensures MergedTree(h, blobs, s, c, s) == c
  {
    forall f
      ensures Get(MergedTree(h, blobs, s, c, s), f) == Get(c, f)
    {
      MergeKeepsCurrentChange(h, blobs, s, c, s, f);
    }
    GetExtensional(MergedTree(h, blobs, s, c, s), c);
  }

  /** When the current side is the split point itself, the merge yields the given tree. */
  lemma MergeFromSplitTakesGiven(h: Hasher, blobs: Blobs, s: Tree, g: Tree)
    ensures MergedTree(h, blobs, s, s, g) == g
  {
    forall f
      ensures Get(MergedTree(h, blobs, s, s, g), f) == Get(g, f)
    {
      MergeTakesGivenChange(h, blobs, s, s, g, f);
    }
    GetExtensional(MergedTree(h, blobs, s, s, g), g);
  }

  /** What the file loop leaves staged for addition under `f`, starting from an empty stage. */
  function StagedAt(h: Hasher, blobs: Blobs, s: Tree, c: Tree, g: Tree, f: FileName): Option<Id> {
    match Act(s, c, g, f)
    case TakeGiven => MergedAt(h, blobs, s, c, g, f)
    case Conflict => MergedAt(h, blobs, s, c, g, f)
    case Remove => None
    case Keep => None
  }

  /** The working file the file loop leaves under `f`, starting from the working files `w`. */
  function MergedWorkAt(blobs: Blobs, s: Tree, c: Tree, g: Tree, w: WorkTree, f: FileName): Option<Content> {
    match Act(s, c, g, f)
    case TakeGiven => Some(SideText(blobs, g, f))
    case Conflict => Some(ConflictBlob(blobs, c, g, f))
    case Remove => None
    case Keep => Get(w, f)
  }

  /**
   * The stage the file loop builds, committed on top of the current tree,
   * is the merged tree: the loop's staging and the commit's tree update
   * together compute the three-way merge.
   */
  lemma MergeStageCommits(h: Hasher, blobs: Blobs, s: Tree, c: Tree, g: Tree, added: Tree, removed: seq<FileName>)
    requires forall f :: Get(added, f) == StagedAt(h, blobs, s, c, g, f)
    requires forall f :: f in removed <==> Act(s, c, g, f) == Remove
    ensures NewTree(c, added, removed) == MergedTree(h, blobs, s, c, g)
  {
    forall f
      ensures Get(NewTree(c, added, removed), f) == Get(MergedTree(h, blobs, s, c, g), f)
    {
      NewTreeAt(c, added, removed, f);
      assert Get(added, f) == StagedAt(h, blobs, s, c, g, f);
    }
    GetExtensional(NewTree(c, added, removed), MergedTree(h, blobs, s, c, g));
  }

  /**
   * One pass of the file loop of a merge for the name `f`: the stage
   * (`added`, `removed`) and the working files `w` before, and after
   * (primed). Blob texts are read from `blobs`.
   */
  ghost predicate Stepped(h: Hasher, blobs: Blobs, s: Tree, c: Tree, g: Tree, f: FileName,
                          added: Tree, removed: seq<FileName>, w: WorkTree,
                          added': Tree, removed': seq<FileName>, w': WorkTree)
  {
    match Act(s, c, g, f)
    case TakeGiven =>
      added' == added[f := Get(g, f).value] && removed' == removed && w' == w[f := SideText(blobs, g, f)]
    case Conflict =>
      var text := ConflictBlob(blobs, c, g, f);
      added' == added[f := h.ofText(text)] && removed' == removed && w' == w[f := text]
    case Remove =>
      added' == added && removed' == removed + [f] && w' == (if f in w then w - {f} else w)
    case Keep =>
      added' == added && removed' == removed && w' == w
  }

  /** One pass changes the stage and the working files at `f` only, and there as the decision for `f` says. */
  lemma SteppedAt(h: Hasher, blobs: Blobs, s: Tree, c: Tree, g: Tree, f: FileName,
                  added: Tree, removed: seq<FileName>, w: WorkTree,
                  added': Tree, removed': seq<FileName>, w': WorkTree)
    requires f !in added
    requires Stepped(h, blobs, s, c, g, f, added, removed, w, added', removed', w')
    ensures forall x | x != f :: Get(added', x) == Get(added, x) && (x in removed' <==> x in removed) && Get(w', x) == Get(w, x)
    ensures Get(added', f) == StagedAt(h, blobs, s, c, g, f)
    ensures f in removed' <==> f in removed || Act(s, c, g, f) == Remove
    ensures Get(w', f) == MergedWorkAt(blobs, s, c, g, w, f)
  {
    match Act(s, c, g, f)
    case TakeGiven =>
    case Conflict =>
    case Remove =>
      assert forall x :: x in removed' <==> x in removed || x == f;
    case Keep =>
  }

  /** The names outside `todo` are staged for addition as decided, and the others not at all. */
  ghost predicate AddedDecided(h: Hasher, blobs: Blobs, s: Tree, c: Tree, g: Tree, todo: set<FileName>, added: Tree) {
    forall f :: Get(added, f) == if f in todo then None else StagedAt(h, blobs, s, c, g, f)
  }

  /** Exactly the names outside `todo` decided for removal are listed for removal. */
  ghost predicate RemovedDecided(s: Tree, c: Tree, g: Tree, todo: set<FileName>, removed: seq<FileName>) {
    forall f :: f in removed <==> f !in todo && Act(s, c, g, f) == Remove
  }

  /** The working files outside `todo` are as decided, and the others as they were in `w0`. */
  ghost predicate WorkDecided(blobs: Blobs, s: Tree, c: Tree, g: Tree, w0: WorkTree, todo: set<FileName>, w: WorkTree) {
    forall f :: Get(w, f) == if f in todo then Get(w0, f) else MergedWorkAt(blobs, s, c, g, w0, f)
  }

  /** `conflict` says whether some name of `all` outside `todo` conflicted. */
  ghost predicate ConflictDecided(s: Tree, c: Tree, g: Tree, all: set<FileName>, todo: set<FileName>, conflict: bool) {
    conflict <==> exists f | f in all && f !in todo :: Act(s, c, g, f) == Conflict
  }

  /**
   * The file loop has decided every name of `all` outside `todo`, starting
   * from an empty stage and the working files `w0`.
   */
  ghost predicate Decided(h: Hasher, blobs: Blobs, s: Tree, c: Tree, g: Tree, w0: WorkTree, all: set<FileName>, todo: set<FileName>,
                          added: Tree, removed: seq<FileName>, w: WorkTree, conflict: bool)
  {
    && AddedDecided(h, blobs, s, c, g, todo, added)
    && RemovedDecided(s, c, g, todo, removed)
    && WorkDecided(blobs, s, c, g, w0, todo, w)
    && ConflictDecided(s, c, g, all, todo, conflict)
  }

  lemma AddedDecidedStep(h: Hasher, blobs: Blobs, s: Tree, c: Tree, g: Tree, todo: set<FileName>, f: FileName, added: Tree, added': Tree)
    requires AddedDecided(h, blobs, s, c, g, todo, added)
    requires forall x | x != f :: Get(added', x) == Get(added, x)
    requires Get(added', f) == StagedAt(h, blobs, s, c, g, f)
    ensures AddedDecided(h, blobs, s, c, g, todo - {f}, added')
  {
  }

  lemma RemovedDecidedStep(s: Tree, c: Tree, g: Tree, todo: set<FileName>, f: FileName, removed: seq<FileName>, removed': seq<FileName>)
    requires RemovedDecided(s, c, g, todo, removed) && f in todo
    requires forall x | x != f :: x in removed' <==> x in removed
    requires f in removed' <==> Act(s, c, g, f) == Remove
    ensures RemovedDecided(s, c, g, todo - {f}, removed')
  {
  }

  lemma WorkDecidedStep(blobs: Blobs, s: Tree, c: Tree, g: Tree, w0: WorkTree, todo: set<FileName>, f: FileName, w: WorkTree, w': WorkTree)
    requires WorkDecided(blobs, s, c, g, w0, todo, w) && f in todo
    requires forall x | x != f :: Get(w', x) == Get(w, x)
    requires Get(w', f) == MergedWorkAt(blobs, s, c, g, w, f)
    ensures WorkDecided(blobs, s, c, g, w0, todo - {f}, w')
  {
    assert Get(w, f) == Get(w0, f);
  }

  lemma ConflictDecidedStep(s: Tree, c: Tree, g: Tree, all: set<FileName>, todo: set<FileName>, f: FileName, conflict: bool)
    requires ConflictDecided(s, c, g, all, todo, conflict) && f in todo && todo <= all
    ensures ConflictDecided(s, c, g, all, todo - {f}, conflict || Act(s, c, g, f) == Conflict)
  {
    if Act(s, c, g, f) == Conflict {
      assert f in all && f !in todo - {f};
    } else if conflict {
      var x :| x in all && x !in todo && Act(s, c, g, x) == Conflict;
      assert x !in todo - {f};
    }
  }

  /** Deciding one more name keeps the loop's account of the stage and the working files. */
  lemma DecideOne(h: Hasher, blobs: Blobs, s: Tree, c: Tree, g: Tree, w0: WorkTree, all: set<FileName>, todo: set<FileName>, f: FileName,
                  added: Tree, removed: seq<FileName>, w: WorkTree, conflict: bool,
                  added': Tree, removed': seq<FileName>, w': WorkTree)
    requires f in todo && todo <= all
    requires Decided(h, blobs, s, c, g, w0, all, todo, added, removed, w, conflict)
    requires Stepped(h, blobs, s, c, g, f, added, removed, w, added', removed', w')
    ensures Decided(h, blobs, s, c, g, w0, all, todo - {f}, added', removed', w', conflict || Act(s, c, g, f) == Conflict)
  {
    assert Get(added, f) == None && f !in removed;
    SteppedAt(h, blobs, s, c, g, f, added, removed, w, added', removed', w');
    AddedDecidedStep(h, blobs, s, c, g, todo, f, added, added');
    RemovedDecidedStep(s, c, g, todo, f, removed, removed');
    WorkDecidedStep(blobs, s, c, g, w0, todo, f, w, w');
    ConflictDecidedStep(s, c, g, all, todo, f, conflict);
  }

  /**
   * What the whole file loop leaves, from the working files `w0`: every
   * name staged and written as decided, and `conflict` telling whether
   * some name conflicted.
   */
  ghost predicate AllDecided(h: Hasher, blobs: Blobs, s: Tree, c: Tree, g: Tree, w0: WorkTree,
                             added: Tree, removed: seq<FileName>, w: WorkTree, conflict: bool)
  {
    && (forall f :: Get(added, f) == StagedAt(h, blobs, s, c, g, f))
    && (forall f :: f in removed <==> Act(s, c, g, f) == Remove)
    && (forall f :: Get(w, f) == MergedWorkAt(blobs, s, c, g, w0, f))
    && (conflict <==> exists f :: Act(s, c, g, f) == Conflict)
  }

  /** Before the first pass nothing is decided: the stage is empty and the files and the blobs are as they were. */
  lemma NothingDecided(h: Hasher, blobs: Blobs, s: Tree, c: Tree, g: Tree, w0: WorkTree, all: set<FileName>)
    requires all == s.Keys + c.Keys + g.Keys
    ensures Decided(h, blobs, s, c, g, w0, all, all, map[], [], w0, false)
    ensures BlobsDecided(h, blobs, s, c, g, all, all, blobs)
  {
    forall f | f !in all
      ensures StagedAt(h, blobs, s, c, g, f) == None && Act(s, c, g, f) != Remove
      ensures MergedWorkAt(blobs, s, c, g, w0, f) == Get(w0, f)
    {
      assert Act(s, c, g, f) == Keep;
    }
    assert all - all == {};
  }

  /** Once no name is left, the loop's account is the whole decision for every name. */
  lemma DecidedAll(h: Hasher, blobs: Blobs, s: Tree, c: Tree, g: Tree, w0: WorkTree,
                   added: Tree, removed: seq<FileName>, w: WorkTree, conflict: bool)
    requires Decided(h, blobs, s, c, g, w0, s.Keys + c.Keys + g.Keys, {}, added, removed, w, conflict)
    ensures AllDecided(h, blobs, s, c, g, w0, added, removed, w, conflict)
  {
    if exists f :: Act(s, c, g, f) == Conflict {
      var f :| Act(s, c, g, f) == Conflict;
      assert f in s.Keys + c.Keys + g.Keys;
    }
  }

  /** The ids of the conflict blobs the file loop stores for the names of `done`. */
  ghost function ConflictIds(h: Hasher, blobs: Blobs, s: Tree, c: Tree, g: Tree, done: set<FileName>): set<Id> {
    set f | f in done && Act(s, c, g, f) == Conflict :: h.ofText(ConflictBlob(blobs, c, g, f))
  }

  /** The blob store `b` holds the ids of `b0` and, besides them, exactly the ids of the conflict blobs of the names of `all` outside `todo`. */
  ghost predicate BlobsDecided(h: Hasher, b0: Blobs, s: Tree, c: Tree, g: Tree, all: set<FileName>, todo: set<FileName>, b: Blobs) {
    b.Keys == b0.Keys + ConflictIds(h, b0, s, c, g, all - todo)
  }

  /** Handling one more name adds its conflict blob's id, when it conflicts, and nothing else. */
  lemma ConflictIdsStep(h: Hasher, blobs: Blobs, s: Tree, c: Tree, g: Tree, done: set<FileName>, f: FileName)
    ensures ConflictIds(h, blobs, s, c, g, done + {f}) ==
      ConflictIds(h, blobs, s, c, g, done) + if Act(s, c, g, f) == Conflict then {h.ofText(ConflictBlob(blobs, c, g, f))} else {}
  {
    var before, after := ConflictIds(h, blobs, s, c, g, done), ConflictIds(h, blobs, s, c, g, done + {f});
    forall k | k in after
      ensures k in before || (Act(s, c, g, f) == Conflict && k == h.ofText(ConflictBlob(blobs, c, g, f)))
    {
      var x :| x in done + {f} && Act(s, c, g, x) == Conflict && k == h.ofText(ConflictBlob(blobs, c, g, x));
      if x != f {
        assert x in done;
      }
    }
  }

  /** A pass stores the conflict blob of its name when, and only when, the name conflicts. */
  lemma BlobsDecidedStep(h: Hasher, b0: Blobs, s: Tree, c: Tree, g: Tree, all: set<FileName>, todo: set<FileName>, f: FileName, b: Blobs, b': Blobs)
    requires f in todo && todo <= all && BlobsDecided(h, b0, s, c, g, all, todo, b)
    requires b'.Keys == b.Keys + if Act(s, c, g, f) == Conflict then {h.ofText(ConflictBlob(b0, c, g, f))} else {}
    ensures BlobsDecided(h, b0, s, c, g, all, todo - {f}, b')
  {
    assert all - (todo - {f}) == (all - todo) + {f};
    ConflictIdsStep(h, b0, s, c, g, all - todo, f);
  }

  /** stage.txt, `saved`, is still `saved0` unless some name of `all` outside `todo` was removed: only `rm` writes it. */
  ghost predicate SavedDecided<T>(s: Tree, c: Tree, g: Tree, all: set<FileName>, todo: set<FileName>, saved0: T, saved: T) {
    saved == saved0 || exists f | f in all && f !in todo :: Act(s, c, g, f) == Remove
  }

  /** The file loop leaves the stage empty exactly when every name is kept. */
  lemma StagedNothingIffKept(h: Hasher, blobs: Blobs, s: Tree, c: Tree, g: Tree, added: Tree, removed: seq<FileName>)
    requires forall f :: Get(added, f) == StagedAt(h, blobs, s, c, g, f)
    requires forall f :: f in removed <==> Act(s, c, g, f) == Remove
    ensures (forall f :: f !in added && f !in removed) <==> forall f :: Act(s, c, g, f) == Keep
  {
    if forall f :: f !in added && f !in removed {
      forall f
        ensures Act(s, c, g, f) == Keep
      {
        assert Get(added, f) == None;
      }
    } else {
      var f :| !(f !in added && f !in removed);
      assert Get(added, f) == StagedAt(h, blobs, s, c, g, f);
      assert Act(s, c, g, f) != Keep;
    }
  }
}
