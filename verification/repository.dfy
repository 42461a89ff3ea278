/**
 * The repository: working directory, blob and commit stores, branch refs,
 * HEAD and the staging area, with one method per command.
 */
module Repo {
  import opened Options
  import opened Strings
  import opened Commits
  import opened Graph
  import opened Trees
  import opened Stage
  import opened MergeRules

  /** How a command ends: normally, with one of its printed error lines, or with an exception. */
  datatype Status =
    | Done
    | AlreadyInitialized
    | FileDoesNotExist
    | NoMessage
    | NoChanges
    | FileNotInCommit
    | NoSuchBranch
    | AlreadyOnBranch
    | UntrackedInTheWay
    | NoSuchCommit
    | NothingToRemove
    | BranchExists
    | CannotRemoveCurrent
    | BranchNotFound
    | UncommittedChanges
    | MergeWithSelf
    | GivenIsAncestor
    | FastForwarded
    | IncorrectOperands
    | Crashed   // an uncaught exception: an out-of-range substring, or reading a file that does not exist

  /** The line each status prints. */
  function Message(st: Status): string {
    match st
    case Done => ""
    case AlreadyInitialized => "A Gitlet version-control system already exists in the current directory."
    case FileDoesNotExist => "File does not exist."
    case NoMessage => "Please enter a commit message."
    case NoChanges => "No changes added to the commit."
    case FileNotInCommit => "File does not exist in that commit."
    case NoSuchBranch => "No such branch exists."
    case AlreadyOnBranch => "No need to checkout the current branch."
    case UntrackedInTheWay => "There is an untracked file in the way; delete it, or add and commit it first."
    case NoSuchCommit => "No commit with that id exists."
    case NothingToRemove => "No reason to remove the file."
    case BranchExists => "A branch with that name already exists."
    case CannotRemoveCurrent => "Cannot remove the current branch."
    case BranchNotFound => "A branch with that name does not exist."
    case UncommittedChanges => "You have uncommitted changes."
    case MergeWithSelf => "Cannot merge a branch with itself."
    case GivenIsAncestor => "Given branch is an ancestor of the current branch."
    case FastForwarded => "Current branch fast-forwarded."
    case IncorrectOperands => "Incorrect operands."
    case Crashed => ""
  }

  const ConflictNotice: string := "Encountered a merge conflict."
  const MainBranch: string := "main"

  /** What `commit` reads out of a message for the second parent. */
  datatype SecondParent = NoSecond | FromBranch(name: string) | BadMessage

  /**
   * A message starting with "Merged" names the branch between index 7 and
   * the first " into "; `substring(7, k)` throws when that " into " starts
   * before index 7 or is missing.
   */
  function ParseMergeMessage(m: string): (p: SecondParent)
    ensures p == NoSecond <==> !StartsWith(m, "Merged")
    ensures p.FromBranch? ==> 7 <= IndexOf(m, " into ") && p.name == m[7..IndexOf(m, " into ")]
    ensures p.FromBranch? ==> exists k: nat | 7 <= k :: OccursAt(m, " into ", k) && p.name == m[7..k]
    ensures StartsWith(m, "Merged") && IndexOf(m, " into ") >= 7 ==> p == FromBranch(m[7..IndexOf(m, " into ")])
    ensures StartsWith(m, "Merged") && IndexOf(m, " into ") < 7 ==> p == BadMessage
  {
    if !StartsWith(m, "Merged") then NoSecond
    else
      var k := IndexOf(m, " into ");
      if k < 7 then BadMessage else FromBranch(m[7..k])
  }

  /** The message of a merge's automatic commit. */
  function MergeMessage(given: string, current: string): (m: string)
    ensures StartsWith(m, "Merged") && |m| == 14 + |given| + |current|
    ensures m[7..7 + |given|] == given && OccursAt(m, " into ", 7 + |given|)
    ensures m[13 + |given|..|m| - 1] == current
  {
    "Merged " + given + " into " + current + "."
  }

  /** The automatic merge message names the given branch, as long as the name has no space and is not "into". */
  lemma MergeMessageNamesBranch(given: string, current: string)
    requires ' ' !in given && given != "into"
    ensures ParseMergeMessage(MergeMessage(given, current)) == FromBranch(given)
  {
    var m := MergeMessage(given, current);
    var k := 7 + |given|;
    assert m[..6] == "Merged";
    assert m[7..k] == given;
    assert m[k..k + 6] == " into ";
    forall j: nat | j < k
      ensures !OccursAt(m, " into ", j)
    {
      if j < 6 {
        assert m[j] == "Merged"[j] != ' ';
      } else if j == 6 {
        if |given| >= 5 {
          assert m[6..12][5] == given[4] != ' ';
        } else if |given| == 4 {
          var i :| 0 <= i < 4 && given[i] != "into"[i];
          assert m[6..12][i + 1] == given[i] != " into "[i + 1];
        } else {
          assert m[6..12][1 + |given|] == ' ' != " into "[1 + |given|];
        }
      } else {
        assert m[j] == given[j - 7] != ' ';
      }
    }
    IndexOfIsFirst(m, " into ", k);
  }

  /** A branch named "into" breaks the merge commit: its message makes `substring(7, 6)` throw. */
  lemma BranchNamedIntoBreaksMerge()
    ensures ParseMergeMessage(MergeMessage("into", "main")) == BadMessage
  {
    var m := MergeMessage("into", "main");
    assert m[..6] == "Merged";
    assert m[6..12] == " into ";
    forall j: nat | j < 6
      ensures !OccursAt(m, " into ", j)
    {
      assert m[j..j + 6][0] == m[j] == "Merged"[j] != ' ';
    }
    IndexOfIsFirst(m, " into ", 6);
  }

  /**
   * The stage after `add name` whose text hashes to `id`: when the current
   * commit already records `id`, the name leaves the addition map and two
   * occurrences leave the removal list; otherwise it is staged as `id` and
   * one occurrence leaves the removal list.
   */
  function StageAdd(s: Snapshot, cur: Tree, name: FileName, id: Id): (r: Snapshot)
    ensures name !in r.added <==> name in cur && cur[name] == id
    ensures name in r.added ==> r.added[name] == id
    ensures forall f | f != name :: Get(r.added, f) == Get(s.added, f)
    ensures multiset(r.removed) == multiset(s.removed) - if name in cur && cur[name] == id then multiset{name, name} else multiset{name}
    ensures forall f | f != name :: f in r.removed <==> f in s.removed
  {
    RemoveFirstKeepsOthers(s.removed, name);
    RemoveFirstKeepsOthers(RemoveFirst(s.removed, name), name);
    RemoveFirstCounts(s.removed, name);
    RemoveFirstTwiceCounts(s.removed, name);
    if name in cur && cur[name] == id then
      Snapshot(s.added - {name}, RemoveFirst(RemoveFirst(s.removed, name), name))
    else
      Snapshot(s.added[name := id], RemoveFirst(s.removed, name))
  }

  /** The stage after `rm name`: unstaged for addition, and listed for removal when the current commit tracks it. */
  function StageRm(s: Snapshot, cur: Tree, name: FileName): (r: Snapshot)
    ensures name !in r.added
    ensures name in r.removed <==> name in cur || name in s.removed
    ensures |r.removed| == if name in cur then |s.removed| + 1 else |s.removed|
    ensures forall f | f != name :: Get(r.added, f) == Get(s.added, f) && (f in r.removed <==> f in s.removed)
  {
    Snapshot(if name in s.added then s.added - {name} else s.added,
             if name in cur then s.removed + [name] else s.removed)
  }

  /**
   * When the name is listed for removal at most once, `add` takes it off the
   * removal list and leaves every other name listed as it was.
   */
  lemma AddUnlistsRemoval(s: Snapshot, cur: Tree, name: FileName, id: Id)
    requires multiset(s.removed)[name] <= 1
    ensures var r := StageAdd(s, cur, name, id);
      && name !in r.removed
      && forall f | f != name :: f in r.removed <==> f in s.removed
  {
    var r := StageAdd(s, cur, name, id);
    var once := RemoveFirst(s.removed, name);
    RemoveFirstCounts(s.removed, name);
    RemoveFirstCounts(once, name);
    assert multiset(once)[name] == 0;
    if name in cur && cur[name] == id {
      assert r.removed == RemoveFirst(once, name) == once;
    } else {
      assert r.removed == once;
    }
    forall f | f != name
      ensures f in once <==> f in s.removed
    {
      assert multiset(once)[f] == multiset(s.removed)[f];
    }
  }

  /**
   * Adding a file that is listed for removal at most once makes the next
   * commit record exactly the added text, and leaves every other name's
   * fate as it was.
   */
  lemma AddThenCommitRecords(s: Snapshot, cur: Tree, name: FileName, id: Id)
    requires multiset(s.removed)[name] <= 1
    ensures var r := StageAdd(s, cur, name, id);
      && Get(NewTree(cur, r.added, r.removed), name) == Some(id)
      && forall f | f != name :: Get(NewTree(cur, r.added, r.removed), f) == Get(NewTree(cur, s.added, s.removed), f)
  {
    var r := StageAdd(s, cur, name, id);
    AddUnlistsRemoval(s, cur, name, id);
    NewTreeAt(cur, r.added, r.removed, name);
    forall f | f != name
      ensures Get(NewTree(cur, r.added, r.removed), f) == Get(NewTree(cur, s.added, s.removed), f)
    {
      NewTreeAt(cur, r.added, r.removed, f);
      NewTreeAt(cur, s.added, s.removed, f);
    }
  }

  /**
   * Duplicate removals outlive `add`: remove a tracked file twice, write
   * new text under its name and add it, and the next commit still drops
   * the name although the new text is staged.
   */
  lemma RepeatedRemovalSurvivesAdd(name: FileName, tracked: Id, id: Id)
    requires tracked != id
    ensures var r := StageAdd(Snapshot(map[], [name, name]), map[name := tracked], name, id);
      && Get(r.added, name) == Some(id)
      && name in r.removed
      && Get(NewTree(map[name := tracked], r.added, r.removed), name) == None
  {
    var r := StageAdd(Snapshot(map[], [name, name]), map[name := tracked], name, id);
    assert [name, name][1..] == [name];
    assert r.removed == [name];
    NewTreeAt(map[name := tracked], r.added, r.removed, name);
  }

  /** After `rm`, the next commit does not record the name, and every other name's fate is unchanged. */
  lemma RmThenCommitForgets(s: Snapshot, cur: Tree, name: FileName)
    ensures var r := StageRm(s, cur, name);
      && name !in NewTree(cur, r.added, r.removed)
      && forall f | f != name :: Get(NewTree(cur, r.added, r.removed), f) == Get(NewTree(cur, s.added, s.removed), f)
  {
    var r := StageRm(s, cur, name);
    NewTreeAt(cur, r.added, r.removed, name);
    forall f | f != name
      ensures Get(NewTree(cur, r.added, r.removed), f) == Get(NewTree(cur, s.added, s.removed), f)
    {
      NewTreeAt(cur, r.added, r.removed, f);
      NewTreeAt(cur, s.added, s.removed, f);
    }
  }

  /** Writing a blob under the hash of its text keeps the store content-addressed and changes no stored blob. */
  lemma StoreBlob(h: Hasher, blobs: Blobs, text: Content)
    requires IdealHash(h) && ContentAddressed(h, blobs)
    ensures ContentAddressed(h, blobs[h.ofText(text) := text])
    ensures forall k | k in blobs :: blobs[h.ofText(text) := text][k] == blobs[k]
  {
    var k := h.ofText(text);
    if k in blobs {
      assert h.ofText(blobs[k]) == h.ofText(text);
    }
  }

  /**
   * Filing a sealed commit whose parents are stored keeps the store well
   * formed, under a ranking that extends the old one; a commit already
   * filed under the same id is this very commit.
   */
  lemma FileCommit(h: Hasher, store: Store, rank: Ranking, c: Commit) returns (rank': Ranking)
    requires IdealHash(h) && StoreOk(h, store, rank) && Sealed(h, c)
    requires 1 <= |c.parents| <= 2 && forall p | p in c.parents :: p in store
    ensures c.id in store ==> store[c.id] == c
    ensures StoreOk(h, store[c.id := c], rank')
  {
    if c.id in store {
      var d := store[c.id];
      if d.Fields() != c.Fields() {
        DistinctFieldsDistinctIds(h, d, c);
      }
      assert d == c;
      rank' := rank;
    } else {
      var top := rank[c.parents[0]];
      if |c.parents| == 2 && rank[c.parents[1]] > top {
        top := rank[c.parents[1]];
      }
      rank' := rank[c.id := top + 1];
      var store' := store[c.id := c];
      forall k | k in store'
        ensures k in rank' && store'[k].id == k && |store'[k].parents| <= 2
        ensures forall p | p in store'[k].parents :: p in store' && p in rank' && rank'[p] < rank'[k]
      {
        if k == c.id {
          forall p | p in c.parents
            ensures p in store' && p in rank' && rank'[p] < rank'[k]
          {
            assert p == c.parents[0] || p == c.parents[1];
          }
        } else {
          assert store'[k] == store[k] && rank'[k] == rank[k];
        }
      }
      assert WellFormed(store', rank');
      assert Root(h).id != c.id;
    }
  }

  /** Every stored commit's tree refers to stored blobs. */
  ghost predicate TreesStored(store: Store, blobs: Blobs) {
    forall k | k in store :: TreeIn(store[k].blobmap, blobs)
  }

  /** Filing a commit whose tree refers to stored blobs keeps every tree's blobs stored. */
  lemma TreesStoredExtend(store: Store, blobs: Blobs, c: Commit)
    requires TreesStored(store, blobs) && TreeIn(c.blobmap, blobs)
    ensures TreesStored(store[c.id := c], blobs)
  {
  }

  /** `listing` is the commits directory: exactly the stored ids. */
  ghost predicate Lists(listing: seq<Id>, store: Store) {
    && (forall i | 0 <= i < |listing| :: listing[i] in store)
    && (forall k | k in store :: k in listing)
  }

  /** A stored id given in full resolves to itself. */
  lemma ResolveStoredId(h: Hasher, store: Store, rank: Ranking, listing: seq<Id>, id: Id)
    requires IdealHash(h) && StoreOk(h, store, rank) && Lists(listing, store) && id in store
    ensures Resolve(listing, id) == (true, id)
  {
    forall i | 0 <= i < |listing| && Contains(listing[i], id)
      ensures listing[i] == id
    {
      FullIdMatchesOnlyItself(h, store[listing[i]], store[id]);
    }
    ScanKeepsFullId(listing, false, id);
  }

  /** Under a content-addressed store, each file a checkout writes hashes to the id its tree records. */
  lemma MaterializedMatchesTree(h: Hasher, blobs: Blobs, t: Tree)
    requires ContentAddressed(h, blobs) && TreeIn(t, blobs)
    ensures Materialized(t, blobs).Keys == t.Keys
    ensures forall f | f in t :: h.ofText(Materialized(t, blobs)[f]) == t[f]
  {
  }

  /** The parents of a new commit on top of `cur`, or None when reading the second parent throws. */
  function ParentsOf(cur: Id, message: string, branches: map<string, Id>): (r: Option<seq<Id>>)
    ensures !StartsWith(message, "Merged") ==> r == Some([cur])
    ensures r.Some? ==> 1 <= |r.value| <= 2 && r.value[0] == cur
    ensures r.Some? ==> (|r.value| == 2 <==> StartsWith(message, "Merged"))
    ensures r.Some? && |r.value| == 2 ==> r.value[1] in branches.Values
    ensures r.None? <==>
      (StartsWith(message, "Merged") && (IndexOf(message, " into ") < 7 || message[7..IndexOf(message, " into ")] !in branches))
  {
    match ParseMergeMessage(message)
    case NoSecond => Some([cur])
    case FromBranch(b) => if b in branches then Some([cur, branches[b]]) else None
    case BadMessage => None
  }


  /**
   * What a repository keeps on disk: the plain files of the working
   * directory and, under .gitlet, the blobs directory, the commits
   * directory, the branch refs, HEAD.txt (the current branch's name) and
   * stage.txt. `rank` is a proof device only: a height for each commit,
   * larger than its parents' heights.
   */
  datatype Disk = Disk(work: WorkTree, blobs: Blobs, commits: Store, branches: map<string, Id>,
                       head: string, saved: Snapshot, ghost rank: Ranking)

  /**
   * What every command keeps: hashing as assumed, both stores consistent,
   * every branch pointing at a stored commit, and a saved stage that refers
   * to stored blobs.
   */
  ghost predicate DiskOk(h: Hasher, d: Disk) {
    && IdealHash(h)
    && StoreOk(h, d.commits, d.rank)
    && ContentAddressed(h, d.blobs)
    && TreesStored(d.commits, d.blobs)
    && d.head in d.branches
    && (forall b | b in d.branches :: d.branches[b] in d.commits)
    && TreeIn(d.saved.added, d.blobs)
  }

  /** `d` differs from `d0` at most in the working files, the blobs and stage.txt. */
  ghost predicate FilesOnly(d0: Disk, d: Disk) {
    d.commits == d0.commits && d.branches == d0.branches && d.head == d0.head && d.rank == d0.rank
  }

  /** `getCurrentCommit`: the id the current branch points at. */
  function CurrentId(d: Disk): (r: Id)
    requires d.head in d.branches
    ensures (forall b | b in d.branches :: d.branches[b] in d.commits) ==> r in d.commits
  {
    d.branches[d.head]
  }

  /** The file map of the current commit. */
  function CurrentTree(d: Disk): Tree
    requires d.head in d.branches && d.branches[d.head] in d.commits
  {
    d.commits[d.branches[d.head]].blobmap
  }

  /**
   * How the commit that ends a three-way merge of split tree `s`, current
   * tree `c` (commit `cur` on branch `hd`) and given tree `g` (branch
   * `given`) comes out, from blobs `b0`, commits `store0` and branches
   * `refs`; `d` and `staged` are the disk and the stage afterwards.
   */
  ghost predicate Filed(h: Hasher, b0: Blobs, s: Tree, c: Tree, g: Tree, store0: Store, refs: map<string, Id>,
                        cur: Id, hd: string, given: string, now: string, st: Status, d: Disk, staged: Snapshot)
  {
    var m := MergeMessage(given, hd);
    var p := ParentsOf(cur, m, refs);
    && (st == Done || st == NoChanges || st == Crashed)
    && (st == NoChanges <==> forall f :: Act(s, c, g, f) == Keep)
    && (st == Crashed ==> p.None?)
    && (st != Done ==> d.commits == store0 && d.branches == refs)
    && (st == Done ==>
          && p.Some?
          && var nc := Make(h, m, p.value, MergedTree(h, b0, s, c, g), now);
          && d.commits == store0[nc.id := nc] && d.branches == refs[hd := nc.id]
          && staged == EmptyStage && d.saved == EmptyStage)
  }

  /**
   * The whole outcome of a three-way merge from disk `d0` with split tree
   * `s`, current tree `c` and given tree `g`: the commit it files, the
   * blobs it keeps and the conflict blobs it adds, what stage.txt holds,
   * whether it reports a conflict, and the working file under every name.
   */
  ghost predicate ThreeWay(h: Hasher, d0: Disk, s: Tree, c: Tree, g: Tree, given: string, now: string,
                           st: Status, conflict: bool, d: Disk, staged: Snapshot)
    requires d0.head in d0.branches
  {
    && Filed(h, d0.blobs, s, c, g, d0.commits, d0.branches, CurrentId(d0), d0.head, given, now, st, d, staged)
    && d.head == d0.head && Extends(d.blobs, d0.blobs)
    && BlobsDecided(h, d0.blobs, s, c, g, s.Keys + c.Keys + g.Keys, {}, d.blobs)
    && (st != Done ==> SavedDecided(s, c, g, s.Keys + c.Keys + g.Keys, {}, d0.saved, d.saved))
    && (st == NoChanges ==> d.saved == d0.saved)
    && (conflict <==> st != Crashed && exists f :: Act(s, c, g, f) == Conflict)
    && (forall f :: Get(d.work, f) == MergedWorkAt(d0.blobs, s, c, g, d0.work, f))
  }

  /**
   * A repository on disk. Each command runs in a fresh process that first
   * loads stage.txt into `stage` (see `Open`); only some commands write the
   * stage back to `disk.saved`.
   */
  class Repository {
    /** SHA-1. */
    const sha1: Hasher
    /** The working directory and the .gitlet directory. */
    var disk: Disk
    /** The staging object of the running command. */
    const stage: Staging

    /** What every command keeps: a consistent disk, and an in-memory stage that refers to stored blobs. */
    ghost predicate Valid()
      reads this`disk, stage
    {
      DiskOk(sha1, disk) && TreeIn(stage.added, disk.blobs)
    }

    /**
     * `init` in a directory without a repository: the root commit, branch
     * "main" pointing at it and current, and an empty saved stage.
     */
    constructor Init(h: Hasher, files: WorkTree)
      requires IdealHash(h)
      ensures Valid() && fresh(stage) && sha1 == h
      ensures disk == Disk(files, map[], map[Root(h).id := Root(h)], map[MainBranch := Root(h).id], MainBranch, EmptyStage, disk.rank)
      ensures stage.Snap() == EmptyStage
    {
      sha1 := h;
      var first := Root(h);
      disk := Disk(files, map[], map[first.id := first], map[MainBranch := first.id], MainBranch, EmptyStage, map[first.id := 0]);
      stage := new Staging();
    }

    /** `init` where a repository already exists: the message, and nothing changes. */
    method InitExisting() returns (st: Status)
      ensures st == AlreadyInitialized
    {
      st := AlreadyInitialized;
    }

    /** The `Repository()` constructor each command starts with: loads stage.txt into the stage. */
    method Open()
      requires Valid()
      modifies stage
      ensures Valid() && stage.Snap() == disk.saved
    {
      stage.Load(disk.saved);
    }

    /** `add`: lines 149-196. */
    method Add(name: FileName) returns (st: Status)
      requires Valid()
      modifies this`disk, stage
      ensures Valid()
      ensures name !in old(disk).work ==> st == FileDoesNotExist && disk == old(disk) && unchanged(stage)
      ensures name in old(disk).work ==> var d, id := old(disk), sha1.ofText(old(disk).work[name]);
        && st == Done
        && stage.Snap() == StageAdd(old(stage.Snap()), CurrentTree(d), name, id)
        && disk == d.(blobs := d.blobs[id := d.work[name]], saved := stage.Snap())
    {
      if name !in disk.work {
        return FileDoesNotExist;
      }
      var text := disk.work[name];
      var blobid := sha1.ofText(text);
      StageForAdd(CurrentTree(disk), name, blobid);
      disk := disk.(saved := stage.Snap());
      blobid := WriteBlob(text);
      st := Done;
    }

    /** The stage edits of `add` (lines 160-184), for a file whose text hashes to `id`. */
    method StageForAdd(cur: Tree, name: FileName, id: Id)
      modifies stage
      ensures stage.Snap() == StageAdd(old(stage.Snap()), cur, name, id)
    {
      var commitContains := false;
      if name in cur && cur[name] == id {
        commitContains := true;
        stage.DropAdded(name);
        stage.DropRemoved(name);
      }
      if !commitContains {
        stage.Add(name, id);
      }
      stage.DropRemoved(name);
    }

    /** Writes `text` to the blobs directory under its hash; a stored blob keeps its text. */
    method WriteBlob(text: Content) returns (id: Id)
      requires IdealHash(sha1) && ContentAddressed(sha1, disk.blobs)
      modifies this`disk
      ensures ContentAddressed(sha1, disk.blobs) && Extends(disk.blobs, old(disk).blobs)
      ensures id == sha1.ofText(text) && disk == old(disk).(blobs := old(disk).blobs[id := text])
    {
      id := sha1.ofText(text);
      StoreBlob(sha1, disk.blobs, text);
      disk := disk.(blobs := disk.blobs[id := text]);
    }

    /** `commit`: lines 214-265. */
    method Commit(message: string, now: string) returns (st: Status)
      requires Valid()
      modifies this`disk, stage
      ensures Valid()
      ensures st != Done ==> disk == old(disk) && unchanged(stage)
      ensures message == "" ==> st == NoMessage
      ensures message != "" && old(stage.IsClear()) ==> st == NoChanges
      ensures message != "" && !old(stage.IsClear()) ==>
        var d := old(disk);
        var p := ParentsOf(CurrentId(d), message, d.branches);
        && (p.None? ==> st == Crashed)
        && (p.Some? ==>
              var c := Make(sha1, message, p.value, NewTree(CurrentTree(d), old(stage.added), old(stage.removed)), now);
              && st == Done
              && stage.Snap() == EmptyStage
              && disk == d.(commits := d.commits[c.id := c], branches := d.branches[d.head := c.id], saved := EmptyStage, rank := disk.rank))
    {
      if message == "" {
        return NoMessage;
      }
      if stage.IsClear() {
        return NoChanges;
      }
      var commitId := CurrentId(disk);
      var currentBlobs := ApplyStage(disk.commits[commitId].blobmap, stage.added, stage.removed);
      NewTreeIn(CurrentTree(disk), stage.added, stage.removed, disk.blobs);
      var parent := [commitId];
      if StartsWith(message, "Merged") {
        var intoIndex := IndexOf(message, " into ");
        if intoIndex < 7 {
          return Crashed;
        }
        var branchname := message[7..intoIndex];
        if branchname !in disk.branches {
          return Crashed;
        }
        parent := [commitId, disk.branches[branchname]];
        assert ParseMergeMessage(message) == FromBranch(branchname);
      } else {
        assert ParseMergeMessage(message) == NoSecond;
      }
      assert ParentsOf(commitId, message, disk.branches) == Some(parent);
      var newCommit := Make(sha1, message, parent, currentBlobs, now);
      stage.Clear();
      disk := disk.(saved := stage.Snap());
      Record(newCommit);
      st := Done;
    }

    /** Files a new commit under its id and moves the current branch to it. */
    method Record(c: Commit)
      requires DiskOk(sha1, disk) && Sealed(sha1, c) && TreeIn(c.blobmap, disk.blobs)
      requires 1 <= |c.parents| <= 2 && forall p | p in c.parents :: p in disk.commits
      modifies this`disk
      ensures DiskOk(sha1, disk)
      ensures disk == old(disk).(commits := old(disk).commits[c.id := c], branches := old(disk).branches[old(disk).head := c.id], rank := disk.rank)
    {
      ghost var rank' := FileCommit(sha1, disk.commits, disk.rank, c);
      TreesStoredExtend(disk.commits, disk.blobs, c);
      disk := disk.(commits := disk.commits[c.id := c], branches := disk.branches[disk.head := c.id], rank := rank');
    }

    /** `rm`: lines 513-544. */
    method Rm(name: FileName) returns (st: Status)
      requires Valid()
      modifies this`disk, stage
      ensures Valid()
      ensures var cur := CurrentTree(old(disk));
        name !in cur && name !in old(stage.added) ==> st == NothingToRemove && disk == old(disk) && unchanged(stage)
      ensures var d, cur := old(disk), CurrentTree(old(disk));
        name in cur || name in old(stage.added) ==>
        && st == Done
        && stage.Snap() == StageRm(old(stage.Snap()), cur, name)
        && disk == d.(work := if name in cur && name in d.work then d.work - {name} else d.work, saved := stage.Snap())
    {
      var isStagedOrTracked := false;
      var curr := CurrentTree(disk);
      if name in curr {
        isStagedOrTracked := true;
        stage.Remove(name);
        if name in disk.work {
          disk := disk.(work := disk.work - {name});
        }
      }
      if name in stage.added {
        isStagedOrTracked := true;
        stage.DropAdded(name);
      }
      if !isStagedOrTracked {
        return NothingToRemove;
      }
      disk := disk.(saved := stage.Snap());
      st := Done;
    }

    /** `checkout -- name`: lines 275-295. The restored file hashes to the id the current commit records. */
    method CheckoutFileName(name: FileName) returns (st: Status)
      requires Valid()
      modifies this`disk
      ensures Valid()
      ensures name !in CurrentTree(old(disk)) ==> st == FileNotInCommit && disk == old(disk)
      ensures var d := old(disk);
        name in CurrentTree(d) ==> var id := CurrentTree(d)[name];
        && st == Done
        && disk == d.(work := d.work[name := d.blobs[id]])
        && sha1.ofText(disk.work[name]) == id
    {
      var curr := CurrentTree(disk);
      if name !in curr {
        return FileNotInCommit;
      }
      disk := disk.(work := disk.work[name := disk.blobs[curr[name]]]);
      st := Done;
    }

    /**
     * `checkout id -- name`: lines 396-432. The id is resolved by the
     * scan of the commits directory; the resolved commit's version of the
     * file is written to the working directory.
     */
    method CheckoutCommitFile(listing: seq<Id>, prefix: string, name: FileName) returns (st: Status)
      requires Valid() && Lists(listing, disk.commits)
      modifies this`disk
      ensures Valid()
      ensures !Resolve(listing, prefix).0 ==> st == NoSuchCommit && disk == old(disk)
      ensures var d := old(disk);
        Resolve(listing, prefix).0 ==> var id := Resolve(listing, prefix).1;
        && id in d.commits
        && (name !in d.commits[id].blobmap ==> st == FileNotInCommit && disk == d)
        && (name in d.commits[id].blobmap ==>
              && st == Done
              && disk == d.(work := d.work[name := d.blobs[d.commits[id].blobmap[name]]])
              && sha1.ofText(disk.work[name]) == d.commits[id].blobmap[name])
    {
      var hasid, commitid := ResolveId(listing, prefix);
      if !hasid {
        return NoSuchCommit;
      }
      ScanMatches(listing, false, prefix);
      var checkCom := disk.commits[commitid];
      if name !in checkCom.blobmap {
        return FileNotInCommit;
      }
      disk := disk.(work := disk.work[name := disk.blobs[checkCom.blobmap[name]]]);
      st := Done;
    }

    /**
     * `checkout`: lines 440-464. Dispatches on the argument count (the
     * command name included): `checkout -- name`, `checkout id -- name`
     * and `checkout branch`; a misplaced "--" prints the operands error,
     * and any other count does nothing.
     */
    method Checkout(listing: seq<Id>, args: seq<string>) returns (st: Status)
      requires Valid() && Lists(listing, disk.commits)
      modifies this`disk, stage
      ensures Valid()
      ensures |args| !in {2, 3, 4} ==> st == Done && disk == old(disk) && unchanged(stage)
      ensures |args| == 3 && args[1] != "--" ==> st == IncorrectOperands && disk == old(disk) && unchanged(stage)
      ensures |args| == 4 && args[2] != "--" ==> st == IncorrectOperands && disk == old(disk) && unchanged(stage)
      ensures var d := old(disk);
        |args| == 3 && args[1] == "--" ==> var name := args[2];
        && unchanged(stage)
        && (name !in CurrentTree(d) ==> st == FileNotInCommit && disk == d)
        && (name in CurrentTree(d) ==> st == Done && disk == d.(work := d.work[name := d.blobs[CurrentTree(d)[name]]]))
      ensures var d := old(disk);
        |args| == 4 && args[2] == "--" ==> var name := args[3];
        && unchanged(stage)
        && (!Resolve(listing, args[1]).0 ==> st == NoSuchCommit && disk == d)
        && (Resolve(listing, args[1]).0 ==> var id := Resolve(listing, args[1]).1;
              && id in d.commits
              && (name !in d.commits[id].blobmap ==> st == FileNotInCommit && disk == d)
              && (name in d.commits[id].blobmap ==> st == Done && disk == d.(work := d.work[name := d.blobs[d.commits[id].blobmap[name]]])))
      ensures var d := old(disk);
        |args| == 2 ==> var name := args[1];
        && (st != Done ==> disk == d && unchanged(stage))
        && (name !in d.branches ==> st == NoSuchBranch)
        && (name in d.branches && name == d.head ==> st == AlreadyOnBranch)
        && (name in d.branches && name != d.head ==> var target := d.commits[d.branches[name]].blobmap;
              && (UntrackedInWay(d.work, CurrentTree(d), target) ==> st == UntrackedInTheWay)
              && (!UntrackedInWay(d.work, CurrentTree(d), target) ==>
                    st == Done && disk == d.(work := Materialized(target, d.blobs), head := name) && stage.Snap() == EmptyStage))
    {
      st := Done;
      if |args| == 3 {
        if args[1] == "--" {
          st := CheckoutFileName(args[2]);
        } else {
          return IncorrectOperands;
        }
      }
      if |args| == 4 {
        if args[2] == "--" {
          st := CheckoutCommitFile(listing, args[1], args[3]);
        } else {
          return IncorrectOperands;
        }
      } else if |args| == 2 {
        st := CheckoutBranch(args[1]);
      }
    }

    /**
     * The delete and write loops of `checkoutBranch` and `reset`: afterwards
     * the working files are exactly `target`'s. The loops run over a copy of
     * the working directory, which is then written back.
     */
    method Materialize(target: Tree)
      requires TreeIn(target, disk.blobs)
      modifies this`disk
      ensures disk == old(disk).(work := Materialized(target, old(disk).blobs))
    {
      var start, blobs := disk.work, disk.blobs;
      var work := start;
      var directoryblob := work.Keys;
      while directoryblob != {}
        invariant directoryblob <= start.Keys
        invariant work == map f | f in start && (f in directoryblob || f in target) :: start[f]
        decreases directoryblob
      {
        var f :| f in directoryblob;
        if f !in target {
          work := work - {f};
        }
        directoryblob := directoryblob - {f};
      }
      var blobstoadd := target.Keys;
      while blobstoadd != {}
        invariant blobstoadd <= target.Keys
        invariant forall f :: f in work <==> f in target && (f in start || f !in blobstoadd)
        invariant forall f | f in work && f !in blobstoadd :: work[f] == blobs[target[f]]
        decreases blobstoadd
      {
        var f :| f in blobstoadd;
        work := work[f := blobs[target[f]]];
        blobstoadd := blobstoadd - {f};
      }
      assert work.Keys == target.Keys;
      assert work == Materialized(target, blobs);
      disk := disk.(work := work);
    }

    /** `checkout branch`: lines 307-386. The cleared stage is not written back. */
    method CheckoutBranch(name: string) returns (st: Status)
      requires Valid()
      modifies this`disk, stage
      ensures Valid()
      ensures st != Done ==> disk == old(disk) && unchanged(stage)
      ensures name !in old(disk).branches ==> st == NoSuchBranch
      ensures name in old(disk).branches && name == old(disk).head ==> st == AlreadyOnBranch
      ensures var d := old(disk);
        name in d.branches && name != d.head ==> var target := d.commits[d.branches[name]].blobmap;
        && (UntrackedInWay(d.work, CurrentTree(d), target) ==> st == UntrackedInTheWay)
        && (!UntrackedInWay(d.work, CurrentTree(d), target) ==>
              && st == Done
              && disk == d.(work := Materialized(target, d.blobs), head := name)
              && stage.Snap() == EmptyStage)
    {
      if name !in disk.branches {
        return NoSuchBranch;
      }
      if name == disk.head {
        return AlreadyOnBranch;
      }
      var branchcom := disk.commits[disk.branches[name]];
      var curr := CurrentTree(disk);
      var blocked := FindUntracked(disk.work, curr, branchcom.blobmap);
      if blocked {
        return UntrackedInTheWay;
      }
      Materialize(branchcom.blobmap);
      stage.Clear();
      disk := disk.(head := name);
      st := Done;
    }

    /** `branch`: lines 654-669. */
    method Branch(name: string) returns (st: Status)
      requires Valid()
      modifies this`disk
      ensures Valid()
      ensures name in old(disk).branches ==> st == BranchExists && disk == old(disk)
      ensures name !in old(disk).branches ==> st == Done && disk == old(disk).(branches := old(disk).branches[name := CurrentId(old(disk))])
    {
      if name in disk.branches {
        return BranchExists;
      }
      disk := disk.(branches := disk.branches[name := CurrentId(disk)]);
      st := Done;
    }

    /** `rm-branch`: lines 677-692. Commits are kept. */
    method RmBranch(name: string) returns (st: Status)
      requires Valid()
      modifies this`disk
      ensures Valid()
      ensures name == old(disk).head ==> st == CannotRemoveCurrent && disk == old(disk)
      ensures name != old(disk).head && name !in old(disk).branches ==> st == BranchNotFound && disk == old(disk)
      ensures name != old(disk).head && name in old(disk).branches ==> st == Done && disk == old(disk).(branches := old(disk).branches - {name})
    {
      if name == disk.head {
        return CannotRemoveCurrent;
      }
      if name !in disk.branches {
        return BranchNotFound;
      }
      disk := disk.(branches := disk.branches - {name});
      st := Done;
    }

    /**
     * `reset`: lines 705-784. The argument must be contained in some stored
     * id, but it is then read and stored as given, so an abbreviation
     * throws.
     */
    method Reset(listing: seq<Id>, arg: string) returns (st: Status)
      requires Valid() && Lists(listing, disk.commits)
      modifies this`disk, stage
      ensures Valid()
      ensures st != Done ==> disk == old(disk) && unchanged(stage)
      ensures (forall i | 0 <= i < |listing| :: !Contains(listing[i], arg)) ==> st == NoSuchCommit
      ensures (exists i | 0 <= i < |listing| :: Contains(listing[i], arg)) && arg !in old(disk).commits ==> st == Crashed
      ensures var d := old(disk);
        arg in d.commits ==> var target := d.commits[arg].blobmap;
        && (UntrackedInWay(d.work, CurrentTree(d), target) ==> st == UntrackedInTheWay)
        && (!UntrackedInWay(d.work, CurrentTree(d), target) ==>
              && st == Done
              && disk == d.(work := Materialized(target, d.blobs), branches := d.branches[d.head := arg], saved := EmptyStage)
              && stage.Snap() == EmptyStage)
    {
      var hasid := AnyContains(listing, arg);
      if !hasid {
        return NoSuchCommit;
      }
      if arg !in disk.commits {
        return Crashed;
      }
      var resetcommit := disk.commits[arg];
      var curr := CurrentTree(disk);
      var blocked := FindUntracked(disk.work, curr, resetcommit.blobmap);
      if blocked {
        return UntrackedInTheWay;
      }
      Materialize(resetcommit.blobmap);
      stage.Clear();
      disk := disk.(saved := stage.Snap(), branches := disk.branches[disk.head := arg]);
      st := Done;
    }

    /**
     * `mergeIsConflict`: lines 1001-1042. Both sides' texts (empty where a
     * side does not track the name) go between conflict markers; the result
     * is stored as a blob, staged, and written over the working file.
     */
    method MergeIsConflict(c: Tree, g: Tree, f: FileName)
      requires Valid() && TreeIn(c, disk.blobs) && TreeIn(g, disk.blobs)
      modifies this`disk, stage
      ensures Valid()
      ensures var d, text := old(disk), ConflictBlob(old(disk).blobs, c, g, f);
        && disk == d.(blobs := d.blobs[sha1.ofText(text) := text], work := d.work[f := text])
        && stage.added == old(stage.added)[f := sha1.ofText(text)] && stage.removed == old(stage.removed)
      ensures disk.blobs.Keys == old(disk).blobs.Keys + {sha1.ofText(ConflictBlob(old(disk).blobs, c, g, f))}
    {
      var curFileContent := "";
      var branchFileContent := "";
      if f in c {
        curFileContent := disk.blobs[c[f]];
      }
      if f in g {
        branchFileContent := disk.blobs[g[f]];
      }
      var newcontents := ConflictText(curFileContent, branchFileContent);
      StoredIds(disk.blobs, sha1.ofText(newcontents), newcontents);
      var blobid := WriteBlob(newcontents);
      stage.Add(f, blobid);
      disk := disk.(work := disk.work[f := newcontents]);
    }

    /** The first and fifth cases of the file loop: check out the given commit's version of `f` and stage it. */
    method MergeTakeGiven(listing: seq<Id>, g: Tree, gid: Id, f: FileName)
      requires Valid() && Lists(listing, disk.commits)
      requires gid in disk.commits && g == disk.commits[gid].blobmap && f in g
      modifies this`disk, stage
      ensures Valid()
      ensures disk == old(disk).(work := old(disk).work[f := old(disk).blobs[g[f]]])
      ensures stage.added == old(stage.added)[f := g[f]] && stage.removed == old(stage.removed)
    {
      ResolveStoredId(sha1, disk.commits, disk.rank, listing, gid);
      var _ := CheckoutCommitFile(listing, gid, f);
      stage.Add(f, g[f]);
    }

    /**
     * One pass of the loop of `mergeGoingThroughFiles` (lines 879-941) for
     * the name `f`, with split tree `s`, current tree `c` and given tree
     * `g` of commit `gid`. Blobs stored since `blobs0` do not change the
     * texts read.
     */
    method MergeFile(listing: seq<Id>, ghost blobs0: Blobs, s: Tree, c: Tree, g: Tree, gid: Id, f: FileName) returns (conflicted: bool)
      requires Valid() && Lists(listing, disk.commits)
      requires gid in disk.commits && g == disk.commits[gid].blobmap && c == CurrentTree(disk)
      requires TreeIn(c, blobs0) && TreeIn(g, blobs0) && Extends(disk.blobs, blobs0)
      requires f !in stage.added && f !in stage.removed
      modifies this`disk, stage
      ensures Valid()
      ensures FilesOnly(old(disk), disk)
      ensures Extends(disk.blobs, blobs0)
      ensures disk.blobs.Keys == old(disk).blobs.Keys + if Act(s, c, g, f) == Conflict then {sha1.ofText(ConflictBlob(blobs0, c, g, f))} else {}
      ensures disk.saved == if Act(s, c, g, f) == Remove then stage.Snap() else old(disk).saved
      ensures conflicted <==> Act(s, c, g, f) == Conflict
      ensures Stepped(sha1, blobs0, s, c, g, f, old(stage.added), old(stage.removed), old(disk).work, stage.added, stage.removed, disk.work)
    {
      SideTextStable(blobs0, disk.blobs, c, f);
      SideTextStable(blobs0, disk.blobs, g, f);
      conflicted := false;
      match Act(s, c, g, f)
      case TakeGiven =>
        MergeTakeGiven(listing, g, gid, f);
      case Conflict =>
        MergeIsConflict(c, g, f);
        conflicted := true;
      case Remove =>
        var _ := Rm(f);
      case Keep =>
    }

    /**
     * What holds on every pass of the file loop of a merge that started from
     * disk `d0`, with current tree `c` and given tree `g` of commit `gid`:
     * only the files, the blobs and stage.txt have changed, and no blob the
     * two trees refer to.
     */
    ghost predicate Merging(listing: seq<Id>, d0: Disk, c: Tree, g: Tree, gid: Id)
      reads this`disk, stage
    {
      && Valid() && Lists(listing, disk.commits)
      && FilesOnly(d0, disk) && Extends(disk.blobs, d0.blobs)
      && gid in disk.commits && g == disk.commits[gid].blobmap
      && disk.head in disk.branches && c == CurrentTree(disk)
      && TreeIn(c, d0.blobs) && TreeIn(g, d0.blobs)
    }

    /** A pass of the file loop for a name still to do, with the loop's account carried over. */
    method MergeNext(listing: seq<Id>, ghost d0: Disk, s: Tree, c: Tree, g: Tree, gid: Id,
                     ghost all: set<FileName>, ghost todo: set<FileName>, f: FileName, isconflict: bool) returns (isconflict': bool)
      requires Merging(listing, d0, c, g, gid)
      requires f in todo && todo <= all
      requires Decided(sha1, d0.blobs, s, c, g, d0.work, all, todo, stage.added, stage.removed, disk.work, isconflict)
      requires BlobsDecided(sha1, d0.blobs, s, c, g, all, todo, disk.blobs)
      requires SavedDecided(s, c, g, all, todo, d0.saved, disk.saved)
      modifies this`disk, stage
      ensures Merging(listing, d0, c, g, gid)
      ensures Decided(sha1, d0.blobs, s, c, g, d0.work, all, todo - {f}, stage.added, stage.removed, disk.work, isconflict')
      ensures BlobsDecided(sha1, d0.blobs, s, c, g, all, todo - {f}, disk.blobs)
      ensures SavedDecided(s, c, g, all, todo - {f}, d0.saved, disk.saved)
    {
      ghost var added, removed, w, b := stage.added, stage.removed, disk.work, disk.blobs;
      assert Get(added, f) == None && f !in removed;
      var conflicted := MergeFile(listing, d0.blobs, s, c, g, gid, f);
      BlobsDecidedStep(sha1, d0.blobs, s, c, g, all, todo, f, b, disk.blobs);
      assert Act(s, c, g, f) == Remove ==> f in all && f !in todo - {f};
      DecideOne(sha1, d0.blobs, s, c, g, d0.work, all, todo, f, added, removed, w, isconflict, stage.added, stage.removed, disk.work);
      isconflict' := isconflict || conflicted;
    }

    /**
     * `mergeGoingThroughFiles`: lines 872-944. Starting from an empty
     * stage, every name of the three trees is decided once; afterwards the
     * stage, the working files and the blob store hold what the decisions
     * call for, and stage.txt has changed only if some name was removed.
     */
    method MergeGoingThroughFiles(listing: seq<Id>, s: Tree, c: Tree, g: Tree, gid: Id) returns (isconflict: bool)
      requires Merging(listing, disk, c, g, gid)
      requires stage.Snap() == EmptyStage
      modifies this`disk, stage
      ensures Merging(listing, old(disk), c, g, gid)
      ensures AllDecided(sha1, old(disk).blobs, s, c, g, old(disk).work, stage.added, stage.removed, disk.work, isconflict)
      ensures BlobsDecided(sha1, old(disk).blobs, s, c, g, s.Keys + c.Keys + g.Keys, {}, disk.blobs)
      ensures SavedDecided(s, c, g, s.Keys + c.Keys + g.Keys, {}, old(disk).saved, disk.saved)
    {
      ghost var d0 := disk;
      var allfiles := s.Keys + c.Keys + g.Keys;
      var todo := allfiles;
      isconflict := false;
      NothingDecided(sha1, d0.blobs, s, c, g, d0.work, allfiles);
      while todo != {}
        invariant todo <= allfiles
        invariant Merging(listing, d0, c, g, gid)
        invariant Decided(sha1, d0.blobs, s, c, g, d0.work, allfiles, todo, stage.added, stage.removed, disk.work, isconflict)
        invariant BlobsDecided(sha1, d0.blobs, s, c, g, allfiles, todo, disk.blobs)
        invariant SavedDecided(s, c, g, allfiles, todo, d0.saved, disk.saved)
        decreases todo
      {
        var f :| f in todo;
        isconflict := MergeNext(listing, d0, s, c, g, gid, allfiles, todo, f, isconflict);
        todo := todo - {f};
      }
      DecidedAll(sha1, d0.blobs, s, c, g, d0.work, stage.added, stage.removed, disk.work, isconflict);
    }

    /**
     * `merge`: lines 791-858. After the guards, a given branch that is an
     * ancestor stops the merge, a current branch that is the split point is
     * replaced by a checkout of the given branch, and otherwise the file
     * loop runs and its stage is committed with the merge message.
     */
    method Merge(listing: seq<Id>, given: string, now: string) returns (st: Status, conflict: bool)
      requires Valid() && Lists(listing, disk.commits)
      modifies this`disk, stage
      ensures Valid()
      ensures !old(stage.IsClear()) ==> st == UncommittedChanges && disk == old(disk) && unchanged(stage)
      ensures old(stage.IsClear()) && given == old(disk).head ==> st == MergeWithSelf && disk == old(disk) && unchanged(stage)
      ensures old(stage.IsClear()) && given != old(disk).head && given !in old(disk).branches ==>
        st == BranchNotFound && disk == old(disk) && unchanged(stage)
      ensures var d := old(disk);
        old(stage.IsClear()) && given != d.head && given in d.branches ==>
        var cur, gid := CurrentId(d), d.branches[given];
        var c, g := CurrentTree(d), d.commits[gid].blobmap;
        var split := SplitPoint(d.commits, d.rank, cur, gid);
        && split in d.commits
        && (UntrackedInWay(d.work, c, g) ==> st == UntrackedInTheWay && disk == d && unchanged(stage))
        && (!UntrackedInWay(d.work, c, g) && split == gid ==> st == GivenIsAncestor && disk == d && unchanged(stage))
        && (!UntrackedInWay(d.work, c, g) && split != gid && split == cur ==>
              && st == FastForwarded && !conflict
              && disk == d.(work := Materialized(g, d.blobs), head := given)
              && stage.Snap() == EmptyStage)
        && (!UntrackedInWay(d.work, c, g) && split != gid && split != cur ==>
              ThreeWay(sha1, d, d.commits[split].blobmap, c, g, given, now, st, conflict, disk, stage.Snap()))
    {
      conflict := false;
      if !stage.IsClear() {
        return UncommittedChanges, false;
      }
      if given == disk.head {
        return MergeWithSelf, false;
      }
      if given !in disk.branches {
        return BranchNotFound, false;
      }
      st, conflict := MergeBranch(listing, given, now);
    }

    /** `merge` once the guards on the stage and the branch name have passed (lines 805-857). */
    method MergeBranch(listing: seq<Id>, given: string, now: string) returns (st: Status, conflict: bool)
      requires Valid() && Lists(listing, disk.commits)
      requires stage.IsClear() && given != disk.head && given in disk.branches
      modifies this`disk, stage
      ensures Valid()
      ensures var d := old(disk);
        var cur, gid := CurrentId(d), d.branches[given];
        var c, g := CurrentTree(d), d.commits[gid].blobmap;
        var split := SplitPoint(d.commits, d.rank, cur, gid);
        && split in d.commits
        && (UntrackedInWay(d.work, c, g) ==> st == UntrackedInTheWay && disk == d && unchanged(stage))
        && (!UntrackedInWay(d.work, c, g) && split == gid ==> st == GivenIsAncestor && disk == d && unchanged(stage))
        && (!UntrackedInWay(d.work, c, g) && split != gid && split == cur ==>
              && st == FastForwarded && !conflict
              && disk == d.(work := Materialized(g, d.blobs), head := given)
              && stage.Snap() == EmptyStage)
        && (!UntrackedInWay(d.work, c, g) && split != gid && split != cur ==>
              ThreeWay(sha1, d, d.commits[split].blobmap, c, g, given, now, st, conflict, disk, stage.Snap()))
    {
      conflict := false;
      var branchcomid := disk.branches[given];
      var curr := CurrentTree(disk);
      var g := disk.commits[branchcomid].blobmap;
      var blocked := FindUntracked(disk.work, curr, g);
      SplitPointNeverEmpty(sha1, disk.commits, disk.rank, CurrentId(disk), branchcomid);
      SplitPointIsCommonAncestor(disk.commits, disk.rank, CurrentId(disk), branchcomid);
      if blocked {
        return UntrackedInTheWay, false;
      }
      var splitpointid := MergeSplitPoint(disk.commits, disk.rank, CurrentId(disk), branchcomid);
      if splitpointid == branchcomid {
        return GivenIsAncestor, false;
      }
      st, conflict := MergeFromSplit(listing, given, branchcomid, splitpointid, curr, g, now);
    }

    /** The end of `merge` once the split point is known and is not the given commit (lines 833-857). */
    method MergeFromSplit(listing: seq<Id>, given: string, gid: Id, split: Id, c: Tree, g: Tree, now: string) returns (st: Status, conflict: bool)
      requires Valid() && Lists(listing, disk.commits) && stage.IsClear()
      requires given in disk.branches && given != disk.head && gid == disk.branches[given]
      requires g == disk.commits[gid].blobmap && c == CurrentTree(disk)
      requires split in disk.commits && split != gid && !UntrackedInWay(disk.work, c, g)
      modifies this`disk, stage
      ensures Valid()
      ensures var d := old(disk);
        split == CurrentId(d) ==>
        && st == FastForwarded && !conflict
        && disk == d.(work := Materialized(g, d.blobs), head := given)
        && stage.Snap() == EmptyStage
      ensures var d := old(disk);
        split != CurrentId(d) ==> ThreeWay(sha1, d, d.commits[split].blobmap, c, g, given, now, st, conflict, disk, stage.Snap())
    {
      if split == CurrentId(disk) {
        var _ := CheckoutBranch(given);
        return FastForwarded, false;
      }
      st, conflict := MergeThreeWay(listing, given, gid, disk.commits[split].blobmap, c, g, now);
    }

    /** The file loop and the commit of `merge` (lines 842-857), for a split point that is neither tip. */
    method MergeThreeWay(listing: seq<Id>, given: string, gid: Id, s: Tree, c: Tree, g: Tree, now: string) returns (st: Status, conflict: bool)
      requires Valid() && Lists(listing, disk.commits) && stage.Snap() == EmptyStage
      requires given in disk.branches && gid == disk.branches[given] && g == disk.commits[gid].blobmap && c == CurrentTree(disk)
      modifies this`disk, stage
      ensures Valid()
      ensures ThreeWay(sha1, old(disk), s, c, g, given, now, st, conflict, disk, stage.Snap())
    {
      ghost var d0 := disk;
      var isconflict := MergeGoingThroughFiles(listing, s, c, g, gid);
      MergeStageCommits(sha1, d0.blobs, s, c, g, stage.added, stage.removed);
      StagedNothingIffKept(sha1, d0.blobs, s, c, g, stage.added, stage.removed);
      ghost var d1 := disk;
      assert d1.commits == d0.commits && d1.branches == d0.branches && d1.head == d0.head;
      st := MergeCommit(d0.blobs, s, c, g, given, now);
      assert Filed(sha1, d0.blobs, s, c, g, d0.commits, d0.branches, CurrentId(d0), d0.head, given, now, st, disk, stage.Snap());
      conflict := isconflict && st != Crashed;
    }

    /** The commit that ends a merge, as the file loop has left the stage. */
    method MergeCommit(ghost b0: Blobs, ghost s: Tree, ghost c: Tree, ghost g: Tree, given: string, now: string) returns (st: Status)
      requires Valid() && c == CurrentTree(disk)
      requires NewTree(c, stage.added, stage.removed) == MergedTree(sha1, b0, s, c, g)
      requires (forall f :: f !in stage.added && f !in stage.removed) <==> forall f :: Act(s, c, g, f) == Keep
      modifies this`disk, stage
      ensures Valid()
      ensures var d := old(disk);
        Filed(sha1, b0, s, c, g, d.commits, d.branches, CurrentId(d), d.head, given, now, st, disk, stage.Snap())
      ensures disk == old(disk).(commits := disk.commits, branches := disk.branches, saved := disk.saved, rank := disk.rank)
      ensures st != Done ==> disk == old(disk) && stage.Snap() == old(stage.Snap())
    {
      st := Commit(MergeMessage(given, disk.head), now);
    }
  }
}
