/**
 * Trees (file name to blob id), the blob store, and the tree-level steps the
 * commands share: the tree a commit records, the working files a checkout
 * leaves, and the untracked-file guard.
 */
module Trees {
  import opened Options
  import opened Commits

  /** The blobs directory: blob id to file text. */
  type Blobs = map<Id, Content>
  /** The plain files of the working directory: name to text. */
  type WorkTree = map<FileName, Content>

  /** A lookup that may miss. */
  function Get<V>(m: map<FileName, V>, f: FileName): Option<V> {
    if f in m then Some(m[f]) else None
  }

  /** Two maps that agree at every name are equal. */
  lemma GetExtensional<V>(m1: map<FileName, V>, m2: map<FileName, V>)
    requires forall f :: Get(m1, f) == Get(m2, f)
    ensures m1 == m2
  {
    assert forall f :: f in m1 <==> Get(m1, f).Some?;
    assert m1.Keys == m2.Keys;
    forall f | f in m1
      ensures m1[f] == m2[f]
    {
      assert Get(m1, f) == Get(m2, f);
    }
  }

  /** Every blob id in the tree names a stored blob. */
  ghost predicate TreeIn(t: Tree, blobs: Blobs) {
    forall f | f in t :: t[f] in blobs
  }

  /** Every stored blob is filed under the hash of its text. */
  ghost predicate ContentAddressed(h: Hasher, blobs: Blobs) {
    forall k | k in blobs :: h.ofText(blobs[k]) == k
  }

  /** Storing a blob under `k` adds `k` to the ids and no other. */
  lemma StoredIds(b: Blobs, k: Id, text: Content)
    ensures b[k := text].Keys == b.Keys + {k}
  {
  }

  /**
   * Under an injective hash, a content-addressed store is fixed by its ids:
   * two such stores with the same ids hold the same texts.
   */
  lemma SameIdsSameStore(h: Hasher, b1: Blobs, b2: Blobs)
    requires IdealHash(h) && ContentAddressed(h, b1) && ContentAddressed(h, b2) && b1.Keys == b2.Keys
    ensures b1 == b2
  {
    forall k | k in b1
      ensures b1[k] == b2[k]
    {
      assert h.ofText(b1[k]) == h.ofText(b2[k]);
    }
  }

  /** The tree a new commit records: the parent's tree overwritten by `added`, then every name in `removed` dropped. */
  function NewTree(base: Tree, added: Tree, removed: seq<FileName>): (t: Tree)
    ensures forall f | f in removed :: f !in t
    ensures forall f | f in added && f !in removed :: f in t && t[f] == added[f]
    ensures forall f | f in t :: f in added || (f in base && t[f] == base[f])
  {
    map f | f in base.Keys + added.Keys && f !in removed :: if f in added then added[f] else base[f]
  }

  /**
   * Name by name: a removed name is gone even when it is also staged for
   * addition; otherwise the staged version wins over the parent's.
   */
  lemma NewTreeAt(base: Tree, added: Tree, removed: seq<FileName>, f: FileName)
    ensures Get(NewTree(base, added, removed), f)
      == if f in removed then None else if f in added then Some(added[f]) else Get(base, f)
  {
  }

  /** `after` keeps every blob of `before` under the same id. */
  predicate Extends(after: Blobs, before: Blobs) {
    forall k | k in before :: k in after && after[k] == before[k]
  }

  /** A new commit's tree refers only to blobs that the parent's tree or the stage refers to. */
  lemma NewTreeIn(base: Tree, added: Tree, removed: seq<FileName>, blobs: Blobs)
    requires TreeIn(base, blobs) && TreeIn(added, blobs)
    ensures TreeIn(NewTree(base, added, removed), blobs)
  {
  }

  /** The loop of `commit` (lines 230-237): overwrite with the staged additions, then drop each removal. */
  method ApplyStage(base: Tree, added: Tree, removed: seq<FileName>) returns (t: Tree)
    ensures t == NewTree(base, added, removed)
  {
    t := base + added;
    for i := 0 to |removed|
      invariant forall f :: Get(t, f) == if f in removed[..i] then None else Get(base + added, f)
    {
      assert removed[..i + 1] == removed[..i] + [removed[i]];
      t := t - {removed[i]};
    }
    assert removed[..|removed|] == removed;
    forall f
      ensures Get(t, f) == Get(NewTree(base, added, removed), f)
    {
      NewTreeAt(base, added, removed, f);
    }
    GetExtensional(t, NewTree(base, added, removed));
  }

  /** The working files after checking out `tree`: exactly its names, each with its blob's text. */
  function Materialized(tree: Tree, blobs: Blobs): WorkTree
    requires TreeIn(tree, blobs)
  {
    map f | f in tree :: blobs[tree[f]]
  }

  /** Some plain working file is untracked by the current tree yet present in the target tree. */
  predicate UntrackedInWay(work: WorkTree, cur: Tree, target: Tree) {
    exists f | f in work :: f !in cur && f in target
  }

  /** The guard loop over the working directory shared by checkout of a branch, reset and merge. */
  method FindUntracked(work: WorkTree, cur: Tree, target: Tree) returns (blocked: bool)
    ensures blocked <==> UntrackedInWay(work, cur, target)
  {
    var listed := work.Keys;
    while listed != {}
      invariant listed <= work.Keys
      invariant forall f | f in work && f !in listed :: !(f !in cur && f in target)
      decreases listed
    {
      var f :| f in listed;
      if f !in cur && f in target {
        return true;
      }
      listed := listed - {f};
    }
    return false;
  }
}
