/**
 * The commit store seen as a graph: the first-parent history that `log`
 * walks, the split-point search of `merge`, the abbreviated-id scan of
 * `checkout` and `reset`, and the message filter of `find`.
 */
module Graph {
  import opened Options
  import opened Strings
  import opened Commits

  /** The commits directory: id to commit. */
  type Store = map<Id, Commit>
  /** A ghost height for each stored commit, larger than its parents'. */
  type Ranking = map<Id, nat>

  /** Every commit is filed under its own id and its (at most two) parents are stored below it. */
  ghost predicate WellFormed(store: Store, rank: Ranking) {
    forall k | k in store ::
      && k in rank
      && store[k].id == k
      && |store[k].parents| <= 2
      && forall p | p in store[k].parents :: p in store && p in rank && rank[p] < rank[k]
  }

  /** A repository's store: well formed, every id a hash of its commit, and the root the only parentless commit. */
  ghost predicate StoreOk(h: Hasher, store: Store, rank: Ranking) {
    && WellFormed(store, rank)
    && (forall k | k in store :: Sealed(h, store[k]))
    && Root(h).id in store && store[Root(h).id] == Root(h)
    && (forall k | k in store && store[k].parents == [] :: k == Root(h).id)
  }

  /** The commits `log` visits from `id`: first parents only, down to a parentless commit. */
  ghost function History(store: Store, rank: Ranking, id: Id): (r: seq<Id>)
    requires WellFormed(store, rank) && id in store
    decreases rank[id]
    ensures |r| >= 1 && r[0] == id
  {
    var ps := store[id].parents;
    if ps == [] then [id] else [id] + History(store, rank, ps[0])
  }

  /** The history starts at `id`, steps to each commit's first parent, and ends at a parentless commit. */
  lemma {:induction false} HistoryIsFirstParentChain(store: Store, rank: Ranking, id: Id)
    requires WellFormed(store, rank) && id in store
    ensures var r := History(store, rank, id);
      && |r| >= 1 && r[0] == id
      && (forall i | 0 <= i < |r| :: r[i] in store)
      && (forall i | 0 <= i < |r| - 1 :: store[r[i]].parents != [] && r[i + 1] == store[r[i]].parents[0])
      && store[r[|r| - 1]].parents == []
    decreases rank[id]
  {
    var ps := store[id].parents;
    if ps != [] {
      HistoryIsFirstParentChain(store, rank, ps[0]);
      var tail := History(store, rank, ps[0]);
      var r := History(store, rank, id);
      assert r == [id] + tail;
      forall i | 0 <= i < |r| - 1
        ensures store[r[i]].parents != [] && r[i + 1] == store[r[i]].parents[0]
      {
        if i > 0 {
          assert r[i] == tail[i - 1] && r[i + 1] == tail[i];
        }
      }
    }
  }

  /** The walk of `log`: the ids of the commits it prints, in order. */
  method Log(store: Store, ghost rank: Ranking, head: Id) returns (ids: seq<Id>)
    requires WellFormed(store, rank) && head in store
    ensures ids == History(store, rank, head)
  {
    ids := [];
    var curr := store[head];
    while curr.parents != []
      invariant curr.id in store && store[curr.id] == curr
      invariant ids + History(store, rank, curr.id) == History(store, rank, head)
      decreases rank[curr.id]
    {
      assert History(store, rank, curr.id) == [curr.id] + History(store, rank, curr.parents[0]);
      ids := ids + [curr.id];
      curr := store[curr.parents[0]];
    }
    ids := ids + [curr.id];
  }

  /** Under StoreOk every history ends at the shared root commit. */
  lemma HistoryEndsAtRoot(h: Hasher, store: Store, rank: Ranking, id: Id)
    requires StoreOk(h, store, rank) && id in store
    ensures var r := History(store, rank, id); r[|r| - 1] == Root(h).id
  {
    HistoryIsFirstParentChain(store, rank, id);
  }

  /** Every commit a commit descends from, through all parents, itself included. */
  ghost function Ancestors(store: Store, rank: Ranking, id: Id): set<Id>
    requires WellFormed(store, rank) && id in store
    decreases rank[id]
  {
    var ps := store[id].parents;
    {id}
      + (if |ps| >= 1 then Ancestors(store, rank, ps[0]) else {})
      + (if |ps| >= 2 then Ancestors(store, rank, ps[1]) else {})
  }

  /** The parent ids met along the first-parent chain from `id`: each first parent, then a second parent if any. */
  ghost function ParentIdsAlong(store: Store, rank: Ranking, id: Id): seq<Id>
    requires WellFormed(store, rank) && id in store
    decreases rank[id]
  {
    var ps := store[id].parents;
    if ps == [] then []
    else [ps[0]] + (if |ps| == 2 then [ps[1]] else []) + ParentIdsAlong(store, rank, ps[0])
  }

  /** The list `currcommits` that the split-point search builds from the current tip. */
  ghost function Gathered(store: Store, rank: Ranking, id: Id): (r: seq<Id>)
    requires WellFormed(store, rank) && id in store
    ensures |r| >= 1 && r[0] == id
    ensures store[id].parents != [] ==> |r| >= 2 && r[1] == store[id].parents[0]
  {
    [id] + ParentIdsAlong(store, rank, id)
  }

  /** The second loop of the split-point search: walk first parents of `id`, stop at a gathered parent. */
  ghost function SplitSearch(store: Store, rank: Ranking, seen: seq<Id>, id: Id): (r: Id)
    requires WellFormed(store, rank) && id in store
    decreases rank[id]
    ensures r == "" || r in seen
  {
    var ps := store[id].parents;
    if ps == [] then ""
    else if ps[0] in seen then ps[0]
    else if |ps| == 2 && ps[1] in seen then ps[1]
    else SplitSearch(store, rank, seen, ps[0])
  }

  /** What `mergeSplitPoint` returns for the current tip `cur` and the given tip `given`. */
  ghost function SplitPoint(store: Store, rank: Ranking, cur: Id, given: Id): (r: Id)
    requires WellFormed(store, rank) && cur in store && given in store
    ensures r == "" || r in Gathered(store, rank, cur)
  {
    var seen := Gathered(store, rank, cur);
    if given in seen then given else SplitSearch(store, rank, seen, given)
  }

  /** The split-point search as written: two loops over first-parent chains. */
  method MergeSplitPoint(store: Store, ghost rank: Ranking, cur: Id, given: Id) returns (split: Id)
    requires WellFormed(store, rank) && cur in store && given in store
    ensures split == SplitPoint(store, rank, cur, given)
  {
    var currcommits := [cur];
    var curr := store[cur];
    while curr.parents != []
      invariant curr.id in store && store[curr.id] == curr
      invariant currcommits + ParentIdsAlong(store, rank, curr.id) == Gathered(store, rank, cur)
      decreases rank[curr.id]
    {
      var parentid := curr.parents[0];
      currcommits := currcommits + [parentid];
      if |curr.parents| == 2 {
        currcommits := currcommits + [curr.parents[1]];
      }
      curr := store[parentid];
    }
    assert currcommits == Gathered(store, rank, cur);
    if given in currcommits {
      return given;
    }
    var branchcom := store[given];
    while branchcom.parents != []
      invariant branchcom.id in store && store[branchcom.id] == branchcom
      invariant SplitSearch(store, rank, currcommits, branchcom.id) == SplitPoint(store, rank, cur, given)
      decreases rank[branchcom.id]
    {
      var parentid := branchcom.parents[0];
      if parentid in currcommits {
        return parentid;
      }
      if |branchcom.parents| == 2 && branchcom.parents[1] in currcommits {
        return branchcom.parents[1];
      }
      branchcom := store[parentid];
    }
    return "";
  }

  /** Every gathered id is a stored ancestor of the tip it was gathered from. */
  lemma {:induction false} GatheredAreAncestors(store: Store, rank: Ranking, id: Id)
    requires WellFormed(store, rank) && id in store
    ensures forall x | x in Gathered(store, rank, id) :: x in store && x in Ancestors(store, rank, id)
    decreases rank[id]
  {
    var ps := store[id].parents;
    if ps != [] {
      GatheredAreAncestors(store, rank, ps[0]);
      if |ps| == 2 {
        GatheredAreAncestors(store, rank, ps[1]);
      }
    }
  }

  /** A non-empty answer of the second loop is a stored ancestor of where it started. */
  lemma {:induction false} SplitSearchIsAncestor(store: Store, rank: Ranking, seen: seq<Id>, id: Id)
    requires WellFormed(store, rank) && id in store
    ensures var r := SplitSearch(store, rank, seen, id);
      r != "" ==> r in store && r in Ancestors(store, rank, id)
    decreases rank[id]
  {
    var ps := store[id].parents;
    if ps != [] {
      GatheredAreAncestors(store, rank, ps[0]);
      if |ps| == 2 {
        GatheredAreAncestors(store, rank, ps[1]);
      }
      SplitSearchIsAncestor(store, rank, seen, ps[0]);
    }
  }

  /**
   * The split point is a common ancestor of both tips, though not
   * necessarily the nearest one: only first-parent chains are walked.
   */
  lemma SplitPointIsCommonAncestor(store: Store, rank: Ranking, cur: Id, given: Id)
    requires WellFormed(store, rank) && cur in store && given in store
    ensures var r := SplitPoint(store, rank, cur, given);
      r != "" ==> r in store && r in Ancestors(store, rank, cur) && r in Ancestors(store, rank, given)
  {
    GatheredAreAncestors(store, rank, cur);
    GatheredAreAncestors(store, rank, given);
    SplitSearchIsAncestor(store, rank, Gathered(store, rank, cur), given);
  }

  /** The root commit is always among the gathered ids. */
  lemma {:induction false} RootIsGathered(h: Hasher, store: Store, rank: Ranking, id: Id)
    requires StoreOk(h, store, rank) && id in store
    ensures Root(h).id in Gathered(store, rank, id)
    decreases rank[id]
  {
    var ps := store[id].parents;
    if ps != [] {
      RootIsGathered(h, store, rank, ps[0]);
    }
  }

  /** Stored ids are never the empty text. */
  lemma StoredIdsNonEmpty(h: Hasher, store: Store, rank: Ranking, k: Id)
    requires IdealHash(h) && StoreOk(h, store, rank) && k in store
    ensures k != ""
  {
    CommitIdsNonEmpty(h, store[k].Fields());
  }

  /** Walking first parents from a non-root commit reaches a gathered id once the root is gathered. */
  lemma {:induction false} SearchReachesRoot(h: Hasher, store: Store, rank: Ranking, seen: seq<Id>, id: Id)
    requires IdealHash(h) && StoreOk(h, store, rank) && id in store
    requires Root(h).id in seen && id != Root(h).id
    ensures SplitSearch(store, rank, seen, id) != ""
    decreases rank[id]
  {
    var ps := store[id].parents;
    StoredIdsNonEmpty(h, store, rank, ps[0]);
    if |ps| == 2 {
      StoredIdsNonEmpty(h, store, rank, ps[1]);
    }
    if ps[0] !in seen && !(|ps| == 2 && ps[1] in seen) {
      SearchReachesRoot(h, store, rank, seen, ps[0]);
    }
  }

  /** In a repository every two tips share the root, so the split-point search never comes back empty. */
  lemma SplitPointNeverEmpty(h: Hasher, store: Store, rank: Ranking, cur: Id, given: Id)
    requires IdealHash(h) && StoreOk(h, store, rank) && cur in store && given in store
    ensures SplitPoint(store, rank, cur, given) != ""
  {
    RootIsGathered(h, store, rank, cur);
    var seen := Gathered(store, rank, cur);
    if given in seen {
      StoredIdsNonEmpty(h, store, rank, given);
    } else {
      SearchReachesRoot(h, store, rank, seen, given);
    }
  }

  /**
   * The abbreviated-id loop of `checkoutCommitFile`: a listed id that
   * contains the current pattern becomes both the match and the pattern
   * that later ids are compared with. Gives whether anything matched and
   * the final pattern.
   */
  function Scan(listing: seq<Id>, hasid: bool, pattern: string): (r: (bool, Id))
    ensures hasid ==> r.0
    ensures r.1 == pattern || r.1 in listing
    ensures !r.0 ==> r.1 == pattern
  {
    if listing == [] then (hasid, pattern)
    else if Contains(listing[0], pattern) then Scan(listing[1..], true, listing[0])
    else Scan(listing[1..], hasid, pattern)
  }

  /** The id an abbreviation resolves to, by the scan above started from the abbreviation. */
  function Resolve(listing: seq<Id>, prefix: string): (r: (bool, Id))
    ensures r.0 <==> exists i | 0 <= i < |listing| :: Contains(listing[i], prefix)
    ensures r.0 ==> r.1 in listing && Contains(r.1, prefix)
    ensures !r.0 ==> r.1 == prefix
  {
    ScanMatches(listing, false, prefix);
    Scan(listing, false, prefix)
  }

  /** No listed id occurs inside a different listed id. */
  ghost predicate Unnested(listing: seq<Id>) {
    forall i, j | 0 <= i < |listing| && 0 <= j < |listing| :: Contains(listing[i], listing[j]) ==> listing[i] == listing[j]
  }

  /**
   * The scan matches exactly when some listed id contains the pattern; its
   * answer is then a listed id containing the pattern, and otherwise the
   * pattern itself.
   */
  lemma {:induction false} ScanMatches(listing: seq<Id>, hasid: bool, pattern: string)
    ensures var (found, id) := Scan(listing, hasid, pattern);
      && (found <==> hasid || exists i | 0 <= i < |listing| :: Contains(listing[i], pattern))
      && (id == pattern || (id in listing && Contains(id, pattern)))
      && ((forall i | 0 <= i < |listing| :: !Contains(listing[i], pattern)) ==> id == pattern)
      && (found && !hasid ==> id in listing)
  {
    if listing != [] {
      var rest := listing[1..];
      if Contains(listing[0], pattern) {
        ScanMatches(rest, true, listing[0]);
        var id := Scan(rest, true, listing[0]).1;
        if id != listing[0] {
          ContainsTransitive(id, listing[0], pattern);
        }
      } else {
        ScanMatches(rest, hasid, pattern);
        if exists i | 0 <= i < |rest| :: Contains(rest[i], pattern) {
          var i :| 0 <= i < |rest| && Contains(rest[i], pattern);
          assert listing[i + 1] == rest[i];
        }
      }
    }
  }

  /** Once the pattern is a full id that no other listed id contains, the scan keeps it and matches exactly when it is listed. */
  lemma {:induction false} ScanKeepsFullId(listing: seq<Id>, hasid: bool, id: Id)
    requires forall i | 0 <= i < |listing| :: Contains(listing[i], id) ==> listing[i] == id
    ensures Scan(listing, hasid, id) == (hasid || id in listing, id)
  {
    if listing != [] {
      ScanKeepsFullId(listing[1..], hasid || listing[0] == id, id);
      ContainsSelfAndEmpty(id);
      assert listing == [listing[0]] + listing[1..];
    }
  }

  /** With unnested ids, an abbreviation resolves to the FIRST listed id that contains it. */
  lemma {:induction false} ResolveIsFirstMatch(listing: seq<Id>, prefix: string, k: nat)
    requires Unnested(listing)
    requires k < |listing| && Contains(listing[k], prefix)
    requires forall j | 0 <= j < k :: !Contains(listing[j], prefix)
    ensures Resolve(listing, prefix) == (true, listing[k])
  {
    var n := 0;
    while n < k
      invariant n <= k
      invariant Scan(listing[n..], false, prefix) == Resolve(listing, prefix)
    {
      assert listing[n..][1..] == listing[n + 1..];
      n := n + 1;
    }
    assert listing[k..][1..] == listing[k + 1..];
    ScanKeepsFullId(listing[k + 1..], true, listing[k]);
  }

  /** The loop of lines 404-409, as written. */
  method ResolveId(listing: seq<Id>, prefix: string) returns (hasid: bool, commitid: Id)
    ensures (hasid, commitid) == Resolve(listing, prefix)
  {
    hasid, commitid := false, prefix;
    for i := 0 to |listing|
      invariant Scan(listing[i..], hasid, commitid) == Resolve(listing, prefix)
    {
      assert listing[i..][1..] == listing[i + 1..];
      if Contains(listing[i], commitid) {
        hasid := true;
        commitid := listing[i];
      }
    }
  }

  /** The loop of `reset` (lines 711-715): only whether some listed id contains the argument. */
  method AnyContains(listing: seq<Id>, pattern: string) returns (hasid: bool)
    ensures hasid <==> exists i | 0 <= i < |listing| :: Contains(listing[i], pattern)
  {
    hasid := false;
    for i := 0 to |listing|
      invariant hasid <==> exists j | 0 <= j < i :: Contains(listing[j], pattern)
    {
      if Contains(listing[i], pattern) {
        hasid := true;
      }
    }
  }

  /** The ids `find` prints: every listed commit whose message equals `message`, in listing order. */
  function FindIds(store: Store, listing: seq<Id>, message: string): (r: seq<Id>)
    requires forall i | 0 <= i < |listing| :: listing[i] in store
    ensures forall x :: x in r <==> x in listing && x in store && store[x].message == message
    ensures |r| <= |listing|
  {
    if listing == [] then []
    else
      var rest := FindIds(store, listing[1..], message);
      if store[listing[0]].message == message then [listing[0]] + rest else rest
  }
}
