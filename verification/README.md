# Gitlet in Dafny

A model of the core of gitlet, a small Git-like version-control system. It
keeps a working directory and a `.gitlet` directory holding:

- blobs, filed under the hash of their text;
- commits, filed under the hash of their message, date, parents and file map;
- one ref file per branch, plus `HEAD.txt`, which names the current branch;
- `stage.txt`, the staging area: names staged for addition with their blob
  ids, and a list of names staged for removal.

The modelled commands are `init`, `add`, `commit`, `rm`, `log`, `find`,
`checkout` (all three forms), `branch`, `rm-branch`, `reset` and `merge`,
with merge's split-point search, its per-file loop and its conflict file.

How it is laid out:

- `commit.dfy` (`Commits`): the immutable commit record, both of its
  constructors, and the hashing assumptions.
- `strings.dfy` (`Strings`): `startsWith`, `indexOf` and `contains`.
- `graph.dfy` (`Graph`): the commit store as a graph.
  - `log` walks the first-parent history.
  - The split-point search runs as two loops.
  - `checkout` and `reset` scan the commits directory for an abbreviation.
  - `find` filters by message.
- `trees.dfy` (`Trees`):
  - the tree a commit records from its parent's tree and the stage;
  - the working files a checkout leaves;
  - the untracked-file guard.
- `merge_rules.dfy` (`MergeRules`): the six ordered cases merge uses to
  decide each file, the conflict text, and the merged tree. It also proves
  that the loop's stage, once committed, is exactly the three-way merge.
- `staging.dfy` (`Stage`): the staging object as a class with the in-memory
  map and list it mutates.
- `repository.dfy` (`Repo`): the repository as a class.
  - `disk` holds the working files, both stores, the refs, HEAD and the
    saved stage. `stage` is the staging object of the running command.
  - Each command that changes the repository is a method. Its contract
    gives the status it ends with (the printed error line, or `Crashed` for
    an uncaught exception) and the new disk and stage. When the final commit
    of a merge throws, the merge methods leave stage.txt partly unstated
    (see "Left out").
  - `log` and `find` only read the store, so they are modelled in `Graph`:
    `Graph.Log` walks a store from a head, and `Graph.FindIds` is a
    function of the store and the listing.
  - Every command keeps `Valid()`:
    - the store is well formed and content-addressed;
    - every branch points at a stored commit;
    - every tree refers to stored blobs.

Some parts of the outside world become parameters:

- SHA-1 is an abstract `Hasher`. The properties the commands rely on are
  assumed through `IdealHash`:
  - distinct texts hash differently;
  - a commit id does not occur inside another commit's id.
- The clock is the `now` argument, already formatted as a date.
- The listing of the commits directory is the `listing` argument. It is
  required to hold exactly the stored ids, in an unspecified order.

## Model

| member | source | states |
|---|---|---|
| Commits.Root | gitlet/proj2/gitlet/Commit.java:48-55 | the initial commit has message "initial commit", the epoch date, no parents, an empty map, and an id that hashes those fields |
| Commits.Make | gitlet/proj2/gitlet/Commit.java:63-72 | a new commit keeps the given message, parents and map, takes the clock's date, and is sealed by the hash of those fields |
| Commits.EqualFieldsEqualIds | gitlet/proj2/gitlet/Commit.java:48-72 | two sealed commits with equal fields are equal, ids included; so every root with the same date text is the same commit with the same id |
| Commits.DistinctFieldsDistinctIds | gitlet/proj2/gitlet/Commit.java:63-72 | under an ideal hash, commits with different fields have different ids |
| Commits.CommitIdsNonEmpty | gitlet/proj2/gitlet/Commit.java:70 | under an ideal hash no commit id is the empty string, which the split-point search uses to mean "none" |
| Commits.FullIdMatchesOnlyItself | gitlet/proj2/gitlet/Repository.java:404-409 | under an ideal hash a stored id that contains another commit's id is that commit |
| Strings.IndexOf | gitlet/proj2/gitlet/Repository.java:241 | `indexOf` gives -1 exactly when the pattern occurs nowhere, and otherwise the first index where it occurs |
| Strings.IndexOfIsFirst | gitlet/proj2/gitlet/Repository.java:241 | an occurrence with no earlier occurrence is the one `indexOf` returns |
| Strings.ContainsSelfAndEmpty | gitlet/proj2/gitlet/Repository.java:404-409 | every id contains itself and the empty string, so a full id always matches |
| Strings.ContainsTransitive | gitlet/proj2/gitlet/Repository.java:404-409 | an abbreviation of an id contained in another id is contained in that other id |
| Graph.History | gitlet/proj2/gitlet/Repository.java:477-502 | the history `log` prints is never empty and starts at the head |
| Graph.HistoryIsFirstParentChain | gitlet/proj2/gitlet/Repository.java:477-502 | the history `log` prints starts at the head, steps to each commit's first parent, and ends at a parentless commit |
| Graph.Log | gitlet/proj2/gitlet/Repository.java:477-502 | the walk of `log` visits exactly the first-parent history, in order |
| Graph.HistoryEndsAtRoot | gitlet/proj2/gitlet/Repository.java:477-502 | in a repository every history ends at the shared initial commit |
| Graph.SplitSearch | gitlet/proj2/gitlet/Repository.java:972-989 | the second loop of the split-point search answers either "" or an id gathered by the first loop |
| Graph.SplitPoint | gitlet/proj2/gitlet/Repository.java:953-990 | the split point is "" or one of the ids gathered from the current tip |
| Graph.MergeSplitPoint | gitlet/proj2/gitlet/Repository.java:953-990 | the two loops return the split point of the current and given tips |
| Graph.Gathered | gitlet/proj2/gitlet/Repository.java:954-967 | the list the first loop builds starts with the current tip, followed by its first parent when it has one |
| Graph.GatheredAreAncestors | gitlet/proj2/gitlet/Repository.java:954-967 | every id the first loop gathers is a stored ancestor of the current tip |
| Graph.SplitSearchIsAncestor | gitlet/proj2/gitlet/Repository.java:972-987 | a non-empty answer of the second loop is a stored ancestor of the given tip |
| Graph.SplitPointIsCommonAncestor | gitlet/proj2/gitlet/Repository.java:953-990 | a non-empty split point is an ancestor of both tips |
| Graph.RootIsGathered | gitlet/proj2/gitlet/Repository.java:954-967 | the first loop always gathers the initial commit |
| Graph.StoredIdsNonEmpty | gitlet/proj2/gitlet/Repository.java:989 | no stored commit id is the empty string |
| Graph.SearchReachesRoot | gitlet/proj2/gitlet/Repository.java:972-987 | once the initial commit is gathered, the second loop never comes back empty |
| Graph.SplitPointNeverEmpty | gitlet/proj2/gitlet/Repository.java:953-990 | in a repository the split-point search always finds a commit |
| Graph.Scan | gitlet/proj2/gitlet/Repository.java:404-409 | a match once found stays found; the answer is the abbreviation itself or a listed id, and the abbreviation itself when nothing matched |
| Graph.Resolve | gitlet/proj2/gitlet/Repository.java:404-409 | an abbreviation resolves exactly when some listed id contains it, and then to a listed id that contains it; otherwise the answer is the abbreviation |
| Graph.ScanMatches | gitlet/proj2/gitlet/Repository.java:404-409 | the scan matches exactly when some listed id contains the abbreviation, and then answers a listed id that contains it |
| Graph.ScanKeepsFullId | gitlet/proj2/gitlet/Repository.java:404-409 | a full id that no other listed id contains resolves to itself exactly when it is listed |
| Graph.ResolveIsFirstMatch | gitlet/proj2/gitlet/Repository.java:404-409 | with unnested ids, an abbreviation resolves to the first listed id that contains it |
| Graph.ResolveId | gitlet/proj2/gitlet/Repository.java:404-409 | the loop as written computes the resolution of the abbreviation |
| Graph.AnyContains | gitlet/proj2/gitlet/Repository.java:711-715 | the loop of `reset` says whether some listed id contains the argument |
| Graph.FindIds | gitlet/proj2/gitlet/Repository.java:576-591 | `find` prints exactly the listed commits whose message equals the argument |
| Trees.NewTree | gitlet/proj2/gitlet/Repository.java:229-237 | a new commit's tree records no name staged for removal, records every other staged name with its staged blob, and otherwise keeps the parent's entries |
| Trees.NewTreeAt | gitlet/proj2/gitlet/Repository.java:229-237 | name by name, a new commit drops every name staged for removal, else records the staged version, else keeps the parent's |
| Trees.StoredIds | gitlet/proj2/gitlet/Repository.java:191-195 | writing a blob adds its id and no other |
| Trees.SameIdsSameStore | gitlet/proj2/gitlet/Repository.java:191-195 | two content-addressed stores with the same ids hold the same texts, so a contract on the ids fixes the whole store |
| Trees.NewTreeIn | gitlet/proj2/gitlet/Repository.java:229-237 | a new commit's tree refers only to stored blobs when its parent's tree and the stage do |
| Trees.ApplyStage | gitlet/proj2/gitlet/Repository.java:229-237 | the `putAll` and the removal loop compute the new commit's tree |
| Trees.FindUntracked | gitlet/proj2/gitlet/Repository.java:326-336 | the guard fires exactly when a working file untracked by the current commit is tracked by the target |
| MergeRules.Classify | gitlet/proj2/gitlet/Repository.java:877-941 | the given version is taken exactly when the current one equals the split's and the given one differs; removal happens exactly when the split and current agree and the given side lacks the name; a conflict happens exactly when the split tracks the name and all three versions differ |
| MergeRules.Act | gitlet/proj2/gitlet/Repository.java:877-941 | a name is taken from the given branch only when the current side matches the split and the given side tracks it; it is removed only when the split and current agree and the given side lacks it; it conflicts only when the split tracks it and all three versions differ; a name none of the trees tracks is kept |
| MergeRules.MergedAt | gitlet/proj2/gitlet/Repository.java:877-941 | the merged entry is the current or the given version, or the conflict blob for a conflicting name; a name both branches track is never dropped |
| MergeRules.ConflictText | gitlet/proj2/gitlet/Repository.java:1015-1019 | the conflict file is the HEAD marker, the current text, the separator, the given text and the end marker, at the stated offsets |
| MergeRules.ConflictTextInjective | gitlet/proj2/gitlet/Repository.java:1015-1019 | conflict files whose current texts have equal lengths are equal only when both texts are |
| MergeRules.SideTextStable | gitlet/proj2/gitlet/Repository.java:1003-1014 | writing more blobs during the loop does not change the texts a conflict reads |
| MergeRules.MergedTree | gitlet/proj2/gitlet/Repository.java:877-941 | the merged tree holds, name by name, the version the merge decides |
| MergeRules.MergeKeepsAgreement | gitlet/proj2/gitlet/Repository.java:877-941 | where both branches agree, that version is kept |
| MergeRules.MergeTakesGivenChange | gitlet/proj2/gitlet/Repository.java:877-941 | where only the given branch changed a name, its version or its deletion wins |
| MergeRules.MergeKeepsCurrentChange | gitlet/proj2/gitlet/Repository.java:877-941 | where only the current branch changed a name, its version stays |
| MergeRules.DivergentChanges | gitlet/proj2/gitlet/Repository.java:890-923 | divergent changes to a name the split tracked give the conflict blob; where the split did not track the name, the current version is kept silently |
| MergeRules.MergeWithSplitIsIdentity | gitlet/proj2/gitlet/Repository.java:877-941 | merging a given side equal to the split changes nothing |
| MergeRules.MergeFromSplitTakesGiven | gitlet/proj2/gitlet/Repository.java:877-941 | merging when the current side equals the split yields the given tree |
| MergeRules.MergeStageCommits | gitlet/proj2/gitlet/Repository.java:842-857 | the stage the file loop builds, committed on top of the current tree, is exactly the merged tree |
| MergeRules.SteppedAt | gitlet/proj2/gitlet/Repository.java:877-941 | one pass of the loop stages, unlists and writes its own name exactly as decided, and changes no other name |
| MergeRules.AddedDecidedStep | gitlet/proj2/gitlet/Repository.java:877-941 | after a pass, the additions stay as decided for every name already handled |
| MergeRules.RemovedDecidedStep | gitlet/proj2/gitlet/Repository.java:877-941 | after a pass, the removals stay as decided for every name already handled |
| MergeRules.WorkDecidedStep | gitlet/proj2/gitlet/Repository.java:877-941 | after a pass, the working files stay as decided for every name already handled |
| MergeRules.ConflictDecidedStep | gitlet/proj2/gitlet/Repository.java:877-941 | after a pass, the conflict flag says whether some handled name conflicted |
| MergeRules.DecideOne | gitlet/proj2/gitlet/Repository.java:877-941 | one pass keeps the loop's whole account for the names already handled |
| MergeRules.DecidedAll | gitlet/proj2/gitlet/Repository.java:877-943 | when no names are left, every name of the three trees is staged, removed and written as decided, and the flag says whether any conflicted |
| MergeRules.NothingDecided | gitlet/proj2/gitlet/Repository.java:872-876 | before the first pass the empty stage, the untouched files and the untouched blob store are the loop's account with every name still to do |
| MergeRules.ConflictIdsStep | gitlet/proj2/gitlet/Repository.java:1020-1028 | handling one more name adds its conflict blob's id exactly when it conflicts, and no other id |
| MergeRules.BlobsDecidedStep | gitlet/proj2/gitlet/Repository.java:1020-1028 | after a pass, the blob ids are the old ones plus exactly the conflict blobs of the handled names |
| MergeRules.StagedNothingIffKept | gitlet/proj2/gitlet/Repository.java:853-854 | the loop leaves nothing staged exactly when every name is kept, which is when the merge commit stops with "No changes added to the commit." |
| Stage.RemoveFirst | gitlet/proj2/gitlet/Repository.java:171 | removing a name that is not listed leaves the list unchanged |
| Stage.RemoveFirstCounts | gitlet/proj2/gitlet/Repository.java:186 | `ArrayList.remove` deletes one occurrence of the name and keeps every other name's count |
| Stage.RemoveFirstTwiceCounts | gitlet/proj2/gitlet/Repository.java:171-186 | the two removals `add` makes when the commit already records the blob delete two occurrences of the name and keep every other name's count |
| Stage.RemoveFirstKeepsOthers | gitlet/proj2/gitlet/Repository.java:186 | removing a name from the list only shrinks it, and every other name stays listed as it was |
| Stage.RemoveFirstLength | gitlet/proj2/gitlet/Repository.java:186 | the list gets one shorter exactly when the name was listed |
| Stage.RemoveFirstDeletesFirst | gitlet/proj2/gitlet/Repository.java:186 | it is the first occurrence that goes, and the rest keep their order |
| Stage.Staging.constructor | gitlet/proj2/gitlet/Staging.java:28-32 | a new stage is empty |
| Stage.Staging.IsClear | gitlet/proj2/gitlet/Staging.java:90-92 | the stage is clear exactly when no name is staged for addition or removal |
| Stage.Staging.Add | gitlet/proj2/gitlet/Staging.java:48-50 | stages the name as the blob, overwriting an earlier entry, and leaves the removals alone |
| Stage.Staging.Remove | gitlet/proj2/gitlet/Staging.java:56-58 | appends the name to the removals, so a name can be listed twice |
| Stage.Staging.Clear | gitlet/proj2/gitlet/Staging.java:63-66 | empties both parts |
| Stage.Staging.DropAdded | gitlet/proj2/gitlet/Staging.java:106-108 | removing through `getAdded()` unstages the name and nothing else |
| Stage.Staging.DropRemoved | gitlet/proj2/gitlet/Staging.java:114-116 | removing through `getRemoved()` deletes the first listed occurrence only |
| Stage.Staging.Load | gitlet/proj2/gitlet/Staging.java:38-41 | reading stage.txt restores the saved stage |
| Repo.ParseMergeMessage | gitlet/proj2/gitlet/Repository.java:240-246 | a message gets a second parent only when it starts with "Merged"; the branch name runs from index 7 to the first " into ", and an earlier or missing " into " throws |
| Repo.MergeMessage | gitlet/proj2/gitlet/Repository.java:853-854 | the merge message starts with "Merged", has the given branch at index 7 followed by " into ", and ends with the current branch and a period |
| Repo.MergeMessageNamesBranch | gitlet/proj2/gitlet/Repository.java:240-246 | the merge message yields the given branch again, as long as its name has no space and is not "into" |
| Repo.BranchNamedIntoBreaksMerge | gitlet/proj2/gitlet/Repository.java:240-246 | merging a branch named "into" builds a message that makes the commit throw |
| Repo.StageAdd | gitlet/proj2/gitlet/Repository.java:160-186 | `add` leaves the name unstaged exactly when the current commit records the same blob, and otherwise stages that blob; other names' entries are untouched; the removal list loses two occurrences of the name in the first case and one in the second (as far as there are any), and nothing else |
| Repo.StageRm | gitlet/proj2/gitlet/Repository.java:520-535 | `rm` unstages the name, lists it for removal once more when the current commit tracks it, and leaves other names alone |
| Repo.AddUnlistsRemoval | gitlet/proj2/gitlet/Repository.java:160-186 | for a name listed for removal at most once, `add` unlists it and leaves every other name's listing alone |
| Repo.AddThenCommitRecords | gitlet/proj2/gitlet/Repository.java:160-186 | after `add`, the next commit records the added blob under the name and nothing else changes |
| Repo.RepeatedRemovalSurvivesAdd | gitlet/proj2/gitlet/Repository.java:160-186 | a tracked name removed twice is still dropped by the next commit after new text is added under it |
| Repo.RmThenCommitForgets | gitlet/proj2/gitlet/Repository.java:513-544 | after `rm`, the next commit does not record the name and nothing else changes |
| Repo.ParentsOf | gitlet/proj2/gitlet/Repository.java:238-247 | a commit's first parent is the current commit; a message starting with "Merged" adds the named branch's commit as second parent; reading that branch throws exactly when " into " starts before index 7 or is missing, or the branch does not exist |
| Repo.CurrentId | gitlet/proj2/gitlet/Repository.java:1048-1053 | the current commit id names a stored commit whenever every branch does |
| Repo.StoreBlob | gitlet/proj2/gitlet/Repository.java:191-195 | writing a blob under its hash keeps the store content-addressed and changes no stored blob |
| Repo.FileCommit | gitlet/proj2/gitlet/Repository.java:249-264 | filing a new commit keeps the store well formed, and an id already filed belongs to this very commit |
| Repo.TreesStoredExtend | gitlet/proj2/gitlet/Repository.java:249-256 | filing a commit whose tree refers to stored blobs keeps every stored tree's blobs stored |
| Repo.ResolveStoredId | gitlet/proj2/gitlet/Repository.java:404-409 | a stored id given in full resolves to itself |
| Repo.MaterializedMatchesTree | gitlet/proj2/gitlet/Repository.java:346-362 | every file a checkout writes hashes to the blob id its tree records, and no other file is left |
| Repo.Repository.Init | gitlet/proj2/gitlet/Repository.java:97-132 | `init` creates the root commit, branch "main" pointing at it and current, no blobs and an empty saved stage |
| Repo.Repository.InitExisting | gitlet/proj2/gitlet/Repository.java:98-102 | `init` in an existing repository only reports it |
| Repo.Repository.Open | gitlet/proj2/gitlet/Repository.java:72-77 | each command starts with the saved stage in memory |
| Repo.Repository.Add | gitlet/proj2/gitlet/Repository.java:149-196 | a missing file changes nothing; otherwise the stage becomes the `add` edit, is saved, and the file's blob is stored under its hash |
| Repo.Repository.StageForAdd | gitlet/proj2/gitlet/Repository.java:160-186 | the stage edits of `add` produce the `add` stage |
| Repo.Repository.WriteBlob | gitlet/proj2/gitlet/Repository.java:191-195 | the blob is stored under the hash of its text, and every earlier blob is kept |
| Repo.Repository.Commit | gitlet/proj2/gitlet/Repository.java:214-265 | an empty message or a clear stage changes nothing; a bad merge message throws; otherwise the new commit holds the staged tree and the parents, is filed, and the current branch moves to it while the saved stage empties |
| Repo.Repository.Record | gitlet/proj2/gitlet/Repository.java:256-264 | the commit is filed, the current branch points at it, and the repository stays consistent |
| Repo.Repository.Rm | gitlet/proj2/gitlet/Repository.java:513-544 | a name neither tracked nor staged changes nothing; otherwise the stage becomes the `rm` edit and is saved, and a tracked working file is deleted |
| Repo.Repository.CheckoutFileName | gitlet/proj2/gitlet/Repository.java:275-295 | a name the current commit lacks changes nothing; otherwise the working file becomes the committed version, which hashes to the recorded id |
| Repo.Repository.CheckoutCommitFile | gitlet/proj2/gitlet/Repository.java:396-432 | an unmatched abbreviation or a missing name changes nothing; otherwise the resolved commit's version is written |
| Repo.Repository.Checkout | gitlet/proj2/gitlet/Repository.java:440-464 | dispatches on the argument count to the three checkouts; a misplaced "--" reports incorrect operands and any other count does nothing |
| Repo.Repository.Materialize | gitlet/proj2/gitlet/Repository.java:338-362 | after the delete and write loops the working files are exactly the target tree's |
| Repo.Repository.CheckoutBranch | gitlet/proj2/gitlet/Repository.java:307-386 | an unknown, current or blocked branch changes nothing; otherwise the working files become its tree, HEAD names it, and the in-memory stage empties |
| Repo.Repository.Branch | gitlet/proj2/gitlet/Repository.java:654-669 | an existing name changes nothing; otherwise a new branch points at the current commit |
| Repo.Repository.RmBranch | gitlet/proj2/gitlet/Repository.java:677-692 | the current or an unknown branch changes nothing; otherwise only that ref goes |
| Repo.Repository.Reset | gitlet/proj2/gitlet/Repository.java:705-784 | no matching id reports it; an abbreviation that is not a stored id throws; a blocking untracked file changes nothing; otherwise the working files become the commit's tree, the stage is emptied and saved, and the current branch points at the commit |
| Repo.Repository.MergeIsConflict | gitlet/proj2/gitlet/Repository.java:1001-1042 | the conflict file is stored as a blob under its hash, staged, and written over the working file; the blob ids gain that hash and no other |
| Repo.Repository.MergeTakeGiven | gitlet/proj2/gitlet/Repository.java:886-887 | the given commit's version is written and staged |
| Repo.Repository.MergeFile | gitlet/proj2/gitlet/Repository.java:879-941 | one pass reports a conflict exactly for a conflicting name and changes the stage and the working files as decided for it; the blob ids gain the conflict blob's id for a conflicting name and nothing otherwise; stage.txt is rewritten with the new stage exactly when the name is removed; commits, refs and HEAD are kept |
| Repo.Repository.MergeNext | gitlet/proj2/gitlet/Repository.java:877-942 | one more name handled keeps the loop's account: stage, working files, conflict flag, the blob ids (the old ones plus exactly the conflict blobs of the handled names) and stage.txt (unchanged unless a handled name was removed) |
| Repo.Repository.MergeGoingThroughFiles | gitlet/proj2/gitlet/Repository.java:872-944 | every name of the three trees is staged, removed and written as decided; the result says whether any conflicted; commits, refs and stored blobs are kept, and the only new blob ids are those of the conflict blobs; stage.txt is unchanged unless some name was removed |
| Repo.Repository.Merge | gitlet/proj2/gitlet/Repository.java:791-858 | each guard reports and changes nothing; a given ancestor changes nothing; a current split point checks out the given branch; otherwise the merge commit holds the three-way merged tree, each working file is as decided, the blob store gains exactly the conflict blobs, and the conflict notice appears exactly when a name conflicted |
| Repo.Repository.MergeBranch | gitlet/proj2/gitlet/Repository.java:808-857 | the same outcomes once the stage and branch-name guards have passed |
| Repo.Repository.MergeFromSplit | gitlet/proj2/gitlet/Repository.java:835-857 | a split point at the current commit fast-forwards by checkout; otherwise the three-way merge is committed |
| Repo.Repository.MergeThreeWay | gitlet/proj2/gitlet/Repository.java:842-857 | the merge commit holds the merged tree with both parents, or none is made when every name is kept (and then stage.txt is unchanged); the working files are as decided; the blob ids are the old ones plus exactly those of the conflict blobs |
| Repo.Repository.MergeCommit | gitlet/proj2/gitlet/Repository.java:853-854 | committing the loop's stage with the merge message files the merged tree, makes no commit when nothing changed, or throws on a bad message |

## Left out

- Output: the printed lines are modelled as `Status` values; the
  formatting of `log`, `global-log` and `status` is not modelled.
  `log`'s "Merge:" line prints the first parent twice; that is printing
  only and is not modelled.
- `global-log` and `status`: these print what the store and the stage
  hold and change nothing, so they are not modelled.
- `Main.java`'s dispatch of command-line arguments is not part of this
  model. Only `checkout`'s own argument dispatch is.
- SHA-1 and Java serialization: the hash is an abstract function assumed
  injective (`IdealHash`). Serialized bytes are not modelled.
- The clock: the date text is the `now` argument. Both date formats in
  `Commit.java` (lines 52-53 and 68-69) use the JVM's default time zone
  and default locale (for the day and month names). The root commit's
  date text, and so its id, is the constant for a UTC zone with an
  English locale. Roots made under another zone or locale have other dates
  and other ids, so a root is shared only by repositories created under
  the same zone and locale.
- Directory listings: the commits directory is the `listing` argument,
  in any order. The working directory is a map.
- The loops of `checkoutBranch` and `reset` (lines 364-374 and 763-773)
  delete `.gitlet/blobs/<name>` and `.gitlet/blobs/<name>.txt`, one per
  file tracked by the current commit but not by the target. They delete a
  stored blob only when a tracked file is named after one: a file called
  `<id>.txt` for `checkoutBranch`, or `<id>` for `reset`. Not modelled:
  the blob store keeps every blob.
- Paths built as `CWD.getPath() + name` name files outside the working
  directory, so those deletes have no effect here. The file written next
  is modelled.
- `HEAD.txt` lives in the branches directory. A branch actually named
  "HEAD.txt" would clash with it; that case is not modelled.
- Branch names are keys of a map. The code uses them as paths under
  `.gitlet/branches/`, and the model leaves out what only paths do:
  - `branch ""` names the existing directory, so the code reports that the
    branch exists (lines 658-660). The model creates a branch named "".
  - `rm-branch ""` silently fails to delete the non-empty directory
    (lines 684-691). The model reports that the branch does not exist.
  - `checkout ""` and `merge ""` pass the existence check and then throw
    reading a directory (lines 317-323 and 809-811). The model reports
    that the branch does not exist.
  - For a name containing "/", the write in `branch` fails and only prints
    a stack trace (lines 662-667). The model creates the branch.
- Repo.Repository.MergeGoingThroughFiles: `rm` saves the stage (line 543)
  on every removed name (line 939), so after the loop stage.txt holds the stage as
  it stood after the last removed name. Which name that is depends on the
  iteration order of the `HashSet` of names, which is not modelled. The
  contract states only that stage.txt is unchanged when no name is
  removed.
- Repo.Repository.MergeThreeWay: when the merge commit throws, stage.txt
  is left as the file loop wrote it. This is stated only as above. When it
  succeeds or makes no commit, stage.txt is stated exactly.
- Repo.Repository.MergeFromSplit: the same stage.txt gap as
  MergeThreeWay, for a commit that throws.
- Repo.Repository.MergeBranch: the same stage.txt gap as MergeThreeWay,
  for a commit that throws.
- Repo.Repository.Merge: the same stage.txt gap as MergeThreeWay, for a
  commit that throws.
- The in-memory stage after a merge commit that throws or makes no commit
  is not stated: the command ends there and only stage.txt outlives it.
- Blob stores are stated through their ids. Every store the model keeps
  is content-addressed under an injective hash, so the ids fix the texts
  (`Trees.SameIdsSameStore`).
- Repo.Repository.Materialize: the disk is one value. The loops run on a
  copy of the working files that is written back at the end, so the order
  of individual file writes is not captured.
- A fast-forward merge (lines 836-841) runs `checkout` of the given
  branch. HEAD moves to the given branch, and the current branch's ref
  does not move.
- `reset` says its commit id may be abbreviated as for checkout (lines
  699-700). The code checks that some id contains the argument, but then
  reads the commit under the argument as given (line 721), so an
  abbreviation throws (`Crashed`).
- An abbreviated id resolves to a listed id containing it, not only one
  starting with it. The scan keeps the last match it sees, but each match
  replaces the pattern. With unnested ids this is the first listed match,
  as proved.
