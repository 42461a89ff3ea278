/**
 * The commit record: an immutable message, date text, ordered parent ids and
 * file-name-to-blob-id map, plus an id that is the hash of those four fields.
 */
module Commits {
  import opened Strings

  type Id = string
  type FileName = string
  type Content = string
  /** A commit's snapshot: file name to blob id. */
  type Tree = map<FileName, Id>

  /** The four fields that are serialized and hashed into a commit's id. */
  datatype Payload = Payload(message: string, time: string, parents: seq<Id>, blobmap: Tree)

  /** A commit; every field is final, so the datatype's fields are its getters. */
  datatype Commit = Commit(message: string, time: string, parents: seq<Id>, blobmap: Tree, id: Id)
  {
    /** What the constructor hashes: everything except the id, which is still unset. */
    function Fields(): Payload {
      Payload(message, time, parents, blobmap)
    }
  }

  /**
   * SHA-1, left abstract: `ofText` hashes a file's text (blob ids and the
   * conflict blob), `ofCommit` hashes a serialized commit.
   */
  datatype Hasher = Hasher(ofText: Content -> Id, ofCommit: Payload -> Id)

  /**
   * The properties of SHA-1 the commands silently rely on: distinct texts get
   * distinct blob ids, and a commit id never occurs inside the id of a
   * different commit (true of equal-length, collision-free hex ids), so a
   * full id given as an abbreviation matches only itself.
   */
  ghost predicate IdealHash(h: Hasher) {
    && (forall a, b :: h.ofText(a) == h.ofText(b) ==> a == b)
    && (forall p, q {:trigger Contains(h.ofCommit(p), h.ofCommit(q))} :: Contains(h.ofCommit(p), h.ofCommit(q)) ==> p == q)
  }

  /** The id was computed from the other fields. */
  predicate Sealed(h: Hasher, c: Commit) {
    c.id == h.ofCommit(c.Fields())
  }

  const InitialMessage: string := "initial commit"

  /** `new Date(0)` printed as "EEE MMM d HH:mm:ss yyyy Z" in a UTC default time zone with an English default locale. */
  const EpochDate: string := "Thu Jan 1 00:00:00 1970 +0000"

  /** The no-argument constructor: the root commit every repository starts from. */
  function Root(h: Hasher): (c: Commit)
    ensures c.message == InitialMessage && c.time == EpochDate
    ensures c.parents == [] && c.blobmap == map[]
    ensures Sealed(h, c)
  {
    var fields := Payload(InitialMessage, EpochDate, [], map[]);
    Commit(fields.message, fields.time, fields.parents, fields.blobmap, h.ofCommit(fields))
  }

  /**
   * The ordinary constructor: message, parents and map are stored as given,
   * the date text `now` comes from the clock.
   */
  function Make(h: Hasher, message: string, parents: seq<Id>, blobmap: Tree, now: string): (c: Commit)
    ensures c.message == message && c.parents == parents && c.blobmap == blobmap && c.time == now
    ensures Sealed(h, c)
  {
    var fields := Payload(message, now, parents, blobmap);
    Commit(message, now, parents, blobmap, h.ofCommit(fields))
  }

  /**
   * Two sealed commits with equal fields are the same commit, id included;
   * in particular every root commit with the same date text is `Root(h)`.
   */
  lemma EqualFieldsEqualIds(h: Hasher, c1: Commit, c2: Commit)
    requires Sealed(h, c1) && Sealed(h, c2)
    requires c1.Fields() == c2.Fields()
    ensures c1 == c2
  {
  }

  /** Under an ideal hash, changing any field changes the id. */
  lemma DistinctFieldsDistinctIds(h: Hasher, c1: Commit, c2: Commit)
    requires IdealHash(h)
    requires Sealed(h, c1) && Sealed(h, c2)
    requires c1.Fields() != c2.Fields()
    ensures c1.id != c2.id
  {
    ContainsSelfAndEmpty(c1.id);
  }

  /** Under an ideal hash no commit id is empty (the empty text occurs in every id). */
  lemma CommitIdsNonEmpty(h: Hasher, p: Payload)
    requires IdealHash(h)
    ensures h.ofCommit(p) != ""
  {
    var q := p.(message := p.message + "!");
    assert |q.message| != |p.message|;
    ContainsSelfAndEmpty(h.ofCommit(q));
  }

  /** Under an ideal hash a stored id contains a given commit id only when it is that id. */
  lemma FullIdMatchesOnlyItself(h: Hasher, c1: Commit, c2: Commit)
    requires IdealHash(h)
    requires Sealed(h, c1) && Sealed(h, c2)
    requires Contains(c1.id, c2.id)
    ensures c1 == c2
  {
  }
}
