/**
 * The staging area: names staged for addition (with their blob ids) and the
 * list of names staged for removal, kept in memory by the repository and
 * saved to stage.txt after the commands that change it.
 */
module Stage {
  import opened Commits

  /** The serialized content of stage.txt. */
  datatype Snapshot = Snapshot(added: Tree, removed: seq<FileName>)

  const EmptyStage: Snapshot := Snapshot(map[], [])

  /**
   * `ArrayList.remove(Object)`: deletes the first occurrence of `x`, if any,
   * and keeps the order of the rest.
   */
  function RemoveFirst(s: seq<FileName>, x: FileName): (r: seq<FileName>)
    ensures x !in s ==> r == s
  {
    if s == [] then []
    else if s[0] == x then s[1..]
    else [s[0]] + RemoveFirst(s[1..], x)
  }

  /** Exactly one occurrence of `x` goes, when there is one; every other name keeps its count. */
  lemma {:induction false} RemoveFirstCounts(s: seq<FileName>, x: FileName)
    ensures multiset(RemoveFirst(s, x)) == multiset(s) - multiset{x}
  {
    if s != [] {
      assert s == [s[0]] + s[1..];
      assert multiset(s) == multiset{s[0]} + multiset(s[1..]);
      if s[0] != x {
        RemoveFirstCounts(s[1..], x);
        assert RemoveFirst(s, x) == [s[0]] + RemoveFirst(s[1..], x);
        assert multiset(RemoveFirst(s, x)) == multiset{s[0]} + multiset(RemoveFirst(s[1..], x));
      }
    }
  }

  /** Removing `x` twice takes two occurrences of it, as far as there are any, and nothing else. */
  lemma RemoveFirstTwiceCounts(s: seq<FileName>, x: FileName)
    ensures multiset(RemoveFirst(RemoveFirst(s, x), x)) == multiset(s) - multiset{x, x}
  {
    RemoveFirstCounts(s, x);
    RemoveFirstCounts(RemoveFirst(s, x), x);
    assert multiset(s) - multiset{x} - multiset{x} == multiset(s) - multiset{x, x};
  }

  /** Removing `x` only ever shrinks the list, and every other name stays listed as it was. */
  lemma RemoveFirstKeepsOthers(s: seq<FileName>, x: FileName)
    ensures multiset(RemoveFirst(s, x)) <= multiset(s)
    ensures forall f | f != x :: f in RemoveFirst(s, x) <==> f in s
  {
    RemoveFirstCounts(s, x);
    forall f | f != x
      ensures f in RemoveFirst(s, x) <==> f in s
    {
      assert multiset(RemoveFirst(s, x))[f] == multiset(s)[f];
    }
  }

  /** The list gets one shorter exactly when `x` occurs in it. */
  lemma RemoveFirstLength(s: seq<FileName>, x: FileName)
    ensures |RemoveFirst(s, x)| == if x in s then |s| - 1 else |s|
  {
    RemoveFirstCounts(s, x);
    assert |multiset(RemoveFirst(s, x))| == |RemoveFirst(s, x)|;
    assert x in s <==> x in multiset(s);
  }

  /** The occurrence removed is the first one, and the remaining names keep their order. */
  lemma {:induction false} RemoveFirstDeletesFirst(s: seq<FileName>, x: FileName, i: nat)
    requires i < |s| && s[i] == x && x !in s[..i]
    ensures RemoveFirst(s, x) == s[..i] + s[i + 1..]
  {
    if i > 0 {
      assert s[0] == s[..i][0];
      assert s[1..][..i - 1] == s[1..i];
      RemoveFirstDeletesFirst(s[1..], x, i - 1);
      assert s[..i] == [s[0]] + s[1..][..i - 1];
      assert s[i + 1..] == s[1..][i..];
    }
  }

  /** The in-memory staging object; its getters hand out the live map and list. */
  class Staging {
    var added: Tree
    var removed: seq<FileName>

    /** An empty stage. */
    constructor ()
      ensures added == map[] && removed == []
    {
      added := map[];
      removed := [];
    }

    /** What `save` serializes. */
    function Snap(): Snapshot
      reads this
    {
      Snapshot(added, removed)
    }

    /** Nothing is staged for any name. */
    function IsClear(): (r: bool)
      reads this
      ensures r <==> forall f :: f !in added && f !in removed
    {
      assert removed != [] ==> removed[0] in removed;
      added == map[] && removed == []
    }

    /** Stages `name` for addition as blob `id`, overwriting an earlier entry. */
    method Add(name: FileName, id: Id)
      modifies this
      ensures added == old(added)[name := id] && removed == old(removed)
    {
      added := added[name := id];
    }

    /** Stages `name` for removal; a name may be listed more than once. */
    method Remove(name: FileName)
      modifies this
      ensures removed == old(removed) + [name] && added == old(added)
    {
      removed := removed + [name];
    }

    /** Empties both parts. */
    method Clear()
      modifies this
      ensures added == map[] && removed == []
    {
      added := map[];
      removed := [];
    }

    /** `getAdded().remove(name)`. */
    method DropAdded(name: FileName)
      modifies this
      ensures added == old(added) - {name} && removed == old(removed)
    {
      added := added - {name};
    }

    /** `getRemoved().remove(name)`: only the first listed occurrence goes. */
    method DropRemoved(name: FileName)
      modifies this
      ensures removed == RemoveFirst(old(removed), name) && added == old(added)
    {
      removed := RemoveFirst(removed, name);
    }

    /** Deserializes a saved stage into this object. */
    method Load(s: Snapshot)
      modifies this
      ensures Snap() == s
    {
      added := s.added;
      removed := s.removed;
    }
  }
}
