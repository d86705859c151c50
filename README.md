# Gitlet in Dafny

A model of the core of Gitlet, a small version-control system written in
Java. Its state is:

- a working commit, `headNode`, whose frozen snapshot `files` sits under a
  mutable overlay `newFiles` plus the bookkeeping maps `staged`, `removed`,
  `modified` and `untracked`;
- a branch table mapping branch names to commit ids, with one current
  branch;
- a commits folder holding every commit by id;
- the working directory.

The commands are `init`, `add`, `commit`, `rm`, `log`, the three forms of
`checkout`, `branch`, `rm-branch`, `reset` and `merge`. `merge` finds a split
point by walking parent links and then classifies every path three ways.

Each module follows one part of the program:

- `Base` (`base.dfy`): `Option` for Java's `null`, and `Lookup` for `HashMap.get`.
- `Commits` (`commit.dfy`): the `Commit` class of `Commit.java`, one method per
  mutator. `Snapshot` is the part of a record that never changes once the
  commit exists, which is what a later `getCommit` reads back. `Staging` is
  the snapshot the next commit should record (the committed files with the
  staged paths put in and the removed paths taken out); `commit` actually
  freezes the overlay `newFiles`, and `StagingAgrees` says the two are equal.
- `History` (`history.dfy`): the commit graph as the commits folder holds it:
  - `Ancestors`, the walk `getSplitPoint` makes, second parent first;
  - `LogChain`, the walk `log` makes, first parents only;
  - `SplitPoint`, and lemmas about all three.

  A ghost rank on commit ids makes every walk end. The graph invariant
  `Graph` says every parent is stored with a smaller rank and exactly one
  commit, the root, has no parent.
- `MergeRules` (`merge_rules.dfy`): the per-path decisions of the two merge
  passes, stated as functions on one path's slot (overlay entry, staged entry,
  working file). It also holds git's usual three-way merge rule as an
  independent reference, with a lemma saying exactly where the code departs
  from it.
- `Gitlet` (`session.dfy`): the class `Session`, standing for Main.java's
  static state, with one method per command.
  - `Valid()` is the invariant every command keeps: the graph invariant
    holds, the head is stored under its id, and the current branch names
    the head.
  - A failing command returns `Fail(e)` and changes nothing, because
    `handleError` exits before the end-of-run save.
  - The commits folder is a `map` from id to `Snapshot`, and the working
    directory a `map` from file name to content.

Main.java saves the head at the end of every run (Main.java:74). Only
`init`, `commit` and the merge commit create a record whose frozen part is
new, so the model files the new commit in those three methods directly.

## Model

| member | source | states |
|---|---|---|
| Commits.StageAdd | Commit.java:128-134 | staging `content` under `name` leaves every other path of overlay and staged map alone; it is a no-op when the overlay already holds that content, and otherwise both maps hold it |
| Commits.StageAddIdempotent | Commit.java:128-134 | `addFiles(name, content)` twice is the same as once |
| Commits.StagingClean | Commit.java:182-188 | with nothing staged and nothing marked removed, `Staging` (the committed files with staged paths put in and removed paths taken out) is the committed files themselves, so a head `clearSetUps` leaves agrees with it |
| Commits.StageAddKeepsStaging | Commit.java:128-134 | when the overlay equals `Staging`, staging a path not marked removed keeps it equal |
| Commits.RemoveKeepsStaging | Main.java:219-226 | when the overlay equals `Staging`, marking an unstaged path removed and dropping it from the overlay keeps it equal |
| Commits.UnstageStaging | Main.java:217-218 | when the overlay equals `Staging`, unstaging a path the snapshot lacks keeps it equal; unstaging a committed path not marked removed breaks it, because the path stays in `Staging` but leaves the overlay |
| Commits.ReaddBreaksStaging | Commit.java:115-124 | re-adding a removed, unstaged, committed path with new content puts that content in the overlay while `Staging` holds the committed content again |
| Commits.AddStaging | Main.java:173-183 | when the overlay equals `Staging`, `add` of a path not marked removed keeps it equal (the path leaves `removed`); re-adding a removed, unstaged, committed path with different content leaves the overlay disagreeing |
| Commits.RmStaging | Main.java:216-230 | when the overlay equals `Staging`, both branches of `rm` keep it equal for a path that is unstaged or not committed; unstaging a committed path not marked removed always leaves the overlay disagreeing |
| Commits.Commit.constructor | Commit.java:64-69 | a new record has empty `staged`, `untracked`, `modified` and `removed` and no parents |
| Commits.Commit.Load | Main.java:655-672 | a record read back from the commits folder carries the stored snapshot, with its overlay equal to its files |
| Commits.Commit.SetPrev | Commit.java:72-74 | sets the first parent and nothing else |
| Commits.Commit.SetPrev2 | Commit.java:77-79 | sets the second parent and nothing else |
| Commits.Commit.SetCommitId | Commit.java:83-85 | sets the id and nothing else |
| Commits.Commit.SetLogMessage | Commit.java:101-103 | sets the message and nothing else |
| Commits.Commit.InitFiles | Commit.java:172-179 | a root gets empty files, any other commit a copy of the argument; the overlay then equals the files |
| Commits.Commit.ClearSetUps | Commit.java:182-188 | the overlay is reset to the files and the four bookkeeping maps are emptied, so the overlay agrees with `Staging`; the files are untouched |
| Commits.Commit.AddWorkingFile | Commit.java:115-124 | `addFiles(File, name)`: a no-op when the overlay already holds the content; otherwise the overlay takes it and it is staged only if the path is not marked removed |
| Commits.Commit.AddFiles | Commit.java:128-134 | `addFiles(name, content)` changes the overlay and staged map exactly as `StageAdd` says, and nothing else |
| Commits.Commit.RemoveStaged | Commit.java:252-255 | deletes the path from the staged map and the overlay, nothing else |
| Commits.Commit.AddRemoved | Commit.java:241-243 | marks exactly one path removed |
| Commits.Commit.RemoveRemoved | Commit.java:258-260 | unmarks exactly one removed path |
| Commits.Commit.RemoveModified | Commit.java:246-248 | deletes exactly one key of `modified` |
| Commits.Commit.RemoveUntracked | Commit.java:219-221 | deletes exactly one key of `untracked` |
| Commits.Commit.AddUntracked | Commit.java:212-215 | records exactly one untracked path with its content |
| Commits.Commit.AddModified | Commit.java:225-236 | records exactly one modified path, with its new content or `None` when deleted |
| History.Ancestors | Main.java:599-611 | the walk from a commit, second parent first: it starts at the commit, stays in the store, follows `Next` at every step, strictly descends in rank and ends at a parentless commit |
| History.LogChain | Main.java:234-240 | the walk `log` makes: it starts at the commit, follows first parents, strictly descends in rank and ends at a parentless commit |
| History.GraphInit | Main.java:152-170 | the one-commit store `init` makes satisfies the graph invariant with that commit as root |
| History.GraphExtend | Main.java:198-211 | filing a new commit whose parents are stored keeps the graph invariant and the root |
| History.LogAfterCommit | Main.java:234-240 | after a commit, the log from the new head is the new id followed by the log from the old head |
| History.ReachesRoot | Main.java:613-623 | both walks end at the root, so `getSplitPoint`'s second loop, which has no null check, always finds a recorded id |
| History.LogVisitsOnce | Main.java:234-240 | `log` visits no commit twice |
| History.FirstIndex | Main.java:613-623 | the first index of one walk whose id lies on the other walk |
| History.SplitPoint | Main.java:596-625 | the split point lies on the head's walk and is the first commit of the other tip's walk to do so |
| History.AncestorSplit | Main.java:453-456 | when the other tip is on the head's walk, it is the split point, so `merge` refuses |
| History.FastForwardSplit | Main.java:485-487 | when the head is on the other tip's walk, the head is the split point, so `merge` reports a fast-forward |
| MergeRules.ConflictText | Main.java:564-572 | the conflict file is the `HEAD` marker line, the current content, the separator line, the other content and the closing marker line, in that order |
| MergeRules.StageSlot | Commit.java:128-134 | `addFiles` on one path's slot: the overlay holds the content, which is staged unless the overlay already held it, and the working file is untouched |
| MergeRules.Apply | Main.java:510-572 | the effect of one decision on a path's slot: `Keep` leaves it alone; `Drop` (`removeStaged` and the delete at Main.java:521-526) empties overlay, staged entry and working file; `Take` (`addFiles` and `writeActualFile`) and `Conflict` (`writeConflict`, Main.java:564-572) leave the working file equal to the overlay, holding the new content or the conflict text, and stage that content exactly when the overlay did not already hold it, leaving the staged entry alone otherwise |
| MergeRules.FirstPass | Main.java:510-558 | `mergeHelper`'s decision for a path the head holds: a conflict exactly when the three-way rule flags one (head, split point and other all differ), with the head's content and the other's, `""` for a deleted side; the other's content is taken exactly when the head left the path as at the split point and the other changed it; the path is dropped exactly when the head left it and the other deleted it; otherwise nothing |
| MergeRules.SecondPass | Main.java:464-483 | the second loop of `merge` for a path the other tip holds: nothing if the first pass left it staged; otherwise a conflict with an empty HEAD part exactly when the split point holds a different content, and the other's content taken exactly when the split point lacks the path; never a deletion |
| MergeRules.MergePath | Main.java:463-483 | one path through both passes: a path the other tip left as at the split point is untouched, and any path that changes ends with its working file equal to its overlay |
| MergeRules.ConflictAt | Main.java:463-483 | whether either pass wrote a conflict on the path: never when the other tip left the path as at the split point; always when head, split point and other all differ, unless the head lacks the path and it is already staged; a conflicting path ends tracked |
| MergeRules.Reference | Main.java:459-484 | git's usual three-way rule, the independent reference for `merge`: a side unchanged since the split point yields the other side's content, a shared change is kept, and two different changes give the conflict text |
| MergeRules.MergeFollowsTable | Main.java:459-484 | on a path whose overlay and working file match the head and which is not staged, both passes end with the working file equal to the overlay, which is the result of the three-way rule `Reference` on every path except one: when both sides made the same change, the code writes a conflict with an empty HEAD part; the conflict flag matches the rule's conflict cases on every other path |
| MergeRules.ConflictSymmetric | Main.java:505-562 | on paths with no local edits (overlay and working file equal to the head's snapshot, nothing staged), swapping head and other around the same split point flags exactly the same paths as conflicts |
| MergeRules.CheckedOutExample | Main.java:464-474 | the symmetry needs clean paths: after `checkout <other> -- f` the first pass's `addFiles` is a no-op on an unstaged overlay already holding the other's content, so the second loop writes an empty-HEAD conflict, while the swapped clean path does not conflict |
| MergeRules.ConflictExample | Main.java:530-540 | head "b", split "a", other "c" yields the conflict file holding both sides |
| MergeRules.DeletionExample | Main.java:522-528 | a path the head kept and the other side deleted leaves the overlay, the staged map and the working directory |
| MergeRules.SameChangeExample | Main.java:464-474 | both sides changing "a" to "b" still yields a conflict file with an empty HEAD part |
| Gitlet.Contains | Main.java:382 | `String.contains` holds exactly when the part occurs at some offset |
| Gitlet.ChildCommit | Main.java:198-203 | the new record made by `commit` and `mergeCommit` has the given id, parents, files and message, an overlay equal to its files and empty bookkeeping maps, so the overlay agrees with `Staging` |
| Gitlet.MergeConflictFlag | Main.java:463-490 | the merge conflict flag is set exactly when some path conflicts in either pass |
| Gitlet.RootCommit | Main.java:155-161 | the record `init` builds has the given id, no parents, no files, the message "initial commit", empty bookkeeping maps and an overlay agreeing with `Staging` |
| Gitlet.CommitStep | Main.java:198-211 | filing a commit whose parents are stored keeps the graph invariant, keeps every branch in the store when the current one moves to the new id, and puts the new id in front of its first parent's log |
| Gitlet.Session.GetCommit | Main.java:653-672 | the stored record for a non-null id in the commits folder, and `None` for a null or unknown id |
| Gitlet.Session.Init | Main.java:152-170 | one root commit "initial commit" with no files, branch "master" naming it as the current branch, the overlay agreeing with `Staging`, and the invariant established |
| Gitlet.Session.UpdateUntracked | Main.java:675-688 | every working file outside the overlay becomes untracked with its content and stops being modified; every other entry is unchanged |
| Gitlet.Session.UpdateModified | Main.java:693-708 | every overlay path whose working file differs is recorded as modified with the working content, or `None` when the file is gone; every other entry is unchanged |
| Gitlet.Session.WriteActualFile | Main.java:717-726 | the working file is created or overwritten with the content |
| Gitlet.Session.Add | Main.java:173-183 | a missing working file is an error that changes nothing; otherwise the working copy is staged as `addFiles(File, name)` says and the path leaves `untracked`, `modified` and `removed`; the stored snapshot is untouched. Adding a path not marked removed keeps the overlay equal to `Staging`; re-adding a removed, unstaged, committed path with new content breaks that equality |
| Gitlet.Session.AdvanceHead | Main.java:198-211 | the new head is a fresh child of the old head with the old overlay as its files, the current branch names it, it is filed in the store, the invariant holds, its overlay agrees with `Staging`, and its log is its id followed by the old log |
| Gitlet.Session.MakeCommit | Main.java:188-212 | a missing or empty message, then an empty staged map together with no removals, are errors that change nothing; otherwise the commit is made as `AdvanceHead` states, and when the overlay agreed with `Staging` the new snapshot is the old files with every staged path put in and every removed path taken out; the new head agrees with `Staging` again |
| Gitlet.Session.Rm | Main.java:216-230 | a staged path is unstaged and leaves the overlay without being marked removed; an unstaged path in the overlay is marked removed, leaves the overlay and `modified`, and its working file is deleted; any other path is an error that changes nothing. Agreement of the overlay with `Staging` is kept, except for a staged path that is also committed and not marked removed, where it is broken |
| Gitlet.Session.Log | Main.java:234-240 | the ids visited are exactly the first-parent walk from the head |
| Gitlet.Session.CheckoutFile | Main.java:319-326 | the head's committed copy of the file goes into the overlay and the working directory, unstaged; a file not in the head's commit is an error that changes nothing. Agreement with `Staging` is kept for a path neither staged nor removed, and broken for a staged path whose staged content differs from the committed one |
| Gitlet.Session.CheckoutFileFrom | Main.java:327-344 | the id `""` fails, since `getCommit` then opens the commits folder itself and throws; otherwise an exact id wins, else some stored id containing the string is used; no such id, or a file not in that commit, is an error that changes nothing; otherwise that commit's copy goes into the overlay and the working directory, unstaged, so for a path neither staged nor removed the overlay still agrees with `Staging` exactly when that copy equals the head's committed one |
| Gitlet.Session.BlockedByUntracked | Main.java:352-358 | true exactly when some untracked path is a file of the target snapshot |
| Gitlet.Session.DeleteFiles | Main.java:751-762 | every working file the head's snapshot lacks is deleted, and the rest are untouched |
| Gitlet.Session.Materialize | Main.java:360-363 | afterwards the working directory is exactly the head's snapshot |
| Gitlet.Session.CheckoutBranch | Main.java:345-368 | errors, in the code's order: the current branch, an unknown branch, an untracked file in the target; each changes nothing. Otherwise the branch's commit becomes the head with a clean overlay agreeing with `Staging`, the working directory equals its files and the branch becomes current |
| Gitlet.Session.Branch | Main.java:394-399 | an existing name is an error; otherwise exactly one branch is added, naming the head |
| Gitlet.Session.RmBranch | Main.java:403-413 | an unknown name or the current branch is an error; otherwise exactly that branch is deleted |
| Gitlet.Session.Reset | Main.java:417-438 | the id `""` fails as in `checkout`; an id not stored exactly, or an untracked file in the target, is an error that changes nothing; otherwise the commit becomes the head with a clean overlay agreeing with `Staging`, the working directory equals its files and the current branch moves to it |
| Gitlet.Session.HeadHistory | Main.java:599-611 | the recorded list is exactly the head's second-parent-first walk |
| Gitlet.Session.GetSplitPoint | Main.java:596-625 | the result is `SplitPoint` of the head and the branch's tip |
| Gitlet.Session.WriteConflict | Main.java:564-572 | the conflict text is written to the working file and staged through `addFiles` |
| Gitlet.Session.MergeFirstPath | Main.java:511-558 | one path of the head's files changes as `FirstPass` decides and no other path changes; the result says whether a conflict was written |
| Gitlet.Session.MergeHelper | Main.java:505-561 | every path changes as `FirstPass` decides for it; the flag is set exactly when some path of the head's files conflicts |
| Gitlet.Session.MergeSecondPath | Main.java:465-483 | one path of the other tip's files changes as `SecondPass` decides, given whether it is staged now; no other path changes |
| Gitlet.Session.MergeSecondPass | Main.java:464-484 | every path changes as `SecondPass` decides for it; the flag is set exactly when some path of the other tip's files conflicts |
| Gitlet.Session.MergeFiles | Main.java:459-484 | starting unstaged, every path ends as `MergePath` says, and a conflict is reported exactly when `ConflictAt` holds for some path |
| Gitlet.Session.MergeCommit | Main.java:575-592 | the new head has the old head as first parent, the other tip as second, the message "Merged <branch> into <current>.", its overlay agrees with `Staging`, and the current branch names it |
| Gitlet.Session.MergeInto | Main.java:459-491 | after both passes and the merge commit, the new head's files and the working directory are pointwise `MergePath`'s overlay and working file; the fast-forward notice fires exactly when the split point is the old head; the conflict notice fires exactly when some path conflicts |
| Gitlet.Session.MergeFromSplit | Main.java:452-490 | with the split point computed, a split point equal to the other tip is an error that changes nothing; otherwise the merge is carried out as `MergeInto` states for that split point, and a fast-forward is reported exactly when the split point is the head |
| Gitlet.Session.Merge | Main.java:441-501 | errors in the code's order: uncommitted changes, self-merge, unknown branch, any untracked file, split point equal to the other tip. Each changes nothing; on success the outcome is as `MergeInto` states and the new head's overlay agrees with `Staging` |

## Left out

- Serialisation: records are written to and read from the commits folder with Java object streams. The model keeps a `map` from id to `Snapshot`. A stored record's overlay is never read back, because every load is followed by `clearSetUps` or reads only files and parents.
- Commit ids: SHA-1 digests of serialised records from `Utils`, which is not part of this model. Each command that makes a commit takes the new id as a parameter and requires it to be fresh.
- Gitlet.Session.GetCommit: `getCommit` resolves an id as a file path under the commits folder (Main.java:659-663). The model looks the id up in the store instead. It keeps one consequence: `""` names the commits folder itself, where the program throws, and `checkout` and `reset` fail on it with nothing saved. Other path forms are not modelled. `.` also names the folder, and `../commits/<id>` loads a stored commit.
- Timestamps: wall-clock dependent, so omitted.
- Console output: `status`, `global-log`, `find`, `logOutput` and `printHashmap` are formatting and listing order. `log` is kept as the sequence of ids it prints, and `merge`'s two notices as boolean results.
- Argument parsing: `divert`, `checkFormat` and `checkFormatSpc`, with their usage errors.
- Gitlet.Session.Init: does not model the error for a repository that already exists, because the model has no filesystem outside the working directory.
- Gitlet.Session.CheckoutFileFrom: when no exact id exists, it picks some stored id containing the string. `checkShortId` takes the first one in directory-listing order, which the model does not fix.
- Loading state at the start of a run: `main` calls `updateUntracked` and then `updateModified` before every command. The model offers them as methods over the working-directory map rather than folding them into each command.
- Iteration order of Java's `HashMap` loops: each iteration of the merge, checkout and scan loops touches only its own path, so the model lets Dafny pick any order.

The code departs from Gitlet's design notes (the description of each command that the program implements) in these places, and the model follows the code:

- `rm` tests the staged map first (Main.java:217-218). The design notes say that removing a path of the committed snapshot marks it removed and deletes the working file. In the code, a path that is both committed and staged is only unstaged and dropped from the overlay: it is not marked removed and its working file stays, so the next commit silently leaves it out of the snapshot. `Gitlet.Session.Rm` states this branch.

- Re-adding a path that `rm` marked removed, with content different from the committed one, puts the content into the overlay without staging it (Commit.java:121-123), and clears the removal mark. With nothing else pending, `commit` then reports "No changes added to the commit." although the overlay differs from the committed files. `Gitlet.Session.Add` and `Commits.ReaddBreaksStaging` state this.
- `checkout -- f` and `checkout <id> -- f` write the overlay without staging (Main.java:320-321, 335-336). The next commit records the checked-out content even though it was never staged. A staged entry for the path stays, and the commit does not record it. `Gitlet.Session.CheckoutFile` and `Gitlet.Session.CheckoutFileFrom` state this.
- After `checkout <other> -- f`, merging `other` writes a conflict with an empty HEAD part for `f` (Main.java:464-474). The head left `f` as at the split point, so under git's usual rule the path would simply take the other's content. `mergeHelper`'s `addFiles` finds that content already in the overlay and does not stage it, so the second loop then sees the path unstaged and changed. `MergeRules.CheckedOutExample` states this.
- `merge` refuses whenever any file is untracked (Main.java:447-451). The design notes refuse only when an untracked file would be overwritten by the other tip.
- When both sides changed a path in the same way, the second pass writes a conflict with an empty HEAD part (Main.java:464-474). Git's usual three-way rule keeps the shared change. `MergeRules.MergeFollowsTable` and `MergeRules.SameChangeExample` state this.
- `reset` accepts exact ids only (Main.java:419). The design notes resolve a prefix as `checkout` does.
- A short id that matches several commits resolves to any one of them. The design notes accept only a unique match.
- `checkout <branch>` tests "current branch" before "branch exists" (Main.java:346-350). The current branch is always in the table, so this order does not change any outcome.
