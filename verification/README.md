# kitcat kernel: a verified model

This project models the version-control kernel of kitcat, a Git-like tool written in Go, and
proves what its parts promise each other.

- **Diff and merge.** `EditPlane`, `Frontier` and `Myers` hold the bidirectional Myers diff: the
  arrays of furthest points, which run off the edit grid, the search for their first overlap, and
  the recursion over the two halves.  The methods compute a specification (`Diffs`) that is then
  proved sound and minimal; `LongestCommon` says the same without mentioning diffs.  `LineDiff` adds
  the interning of lines, `Edits` the edit lists, and `Merge3` the three-way text merge with its
  conflict markers; `MergeConflicts` says when it conflicts, and `MergedText` what stands in the merged text.
- **Commits and rebase.** `CommitGraph` and `RevWalk` hold merge bases and the post-order walk over a
  graph of commits with any number of parents.  `TreeMerge` and `RepositoryModel` hold the tree
  merge and the operations on index, working files, refs and objects.  `RebaseStateFiles`,
  `SequencerInvariant`, `ReplayMachine`, `RebaseLists`, `RebaseCommands` and `RebaseSessions` hold the rebase
  that can pause, be continued and be aborted; `ReplaySteps` and `RebaseEffects` say what its steps do to
  stored objects, index, files and saved state, and `RebaseExamples` holds runs in which it falls short.
- **File formats.** `CommitText` holds the text of commit objects.  `IndexCodec`, `IndexFile`, `IndexLock`
  and `IndexStore` hold the binary index, its map form, and its updates by many processes under the
  exclusive-create lock.  `TreeObjects`, `TreeParsing` and `TreeRoundTrip` hold the hashed directory
  trees.  `Config` and `ConfigLaws` hold the INI editor.  `CommitLayout`, `IndexLayout`, `TreeLayout` and
  `ConfigLayout` say what stands in the files, byte by byte or line by line, both of what is written and
  of any file that is read.

`Sequences`, `Lines`, `Strings`, `Ordering` and `Wrappers` are shared vocabulary.

Code that changes things step by step is written as methods and classes that are proved against
specification functions; the properties are lemmas about these functions.

What the model shows about the code:

- The repository's README.md says (lines 749 and 755) that only one parent is kept and that merge
  bases are found on one parent chain.  The code keeps all parents, and so does the model.
- The list of a rebase is everything that HEAD reaches on paths that avoid the merge base.  Such paths can
  go round it: on a branch that once merged its target, history that both share is replayed again, down
  to the root (`SharedHistoryListed`).  `ListIsLacking` says exactly when the list is what HEAD has and the
  target lacks.
- A todo line that is skipped is not saved as done.  A rebase that pauses at a pick behind such a line
  replays that pick once more after it was resolved and committed (`ResumeRepeatsPick`,
  `PickedTwice`, `TwoReplays`).  A message with a second line that begins with `#` is enough
  (`TodoOfMessages`).  The list comes back as it should exactly if the messages fit in their lines
  (`TodoSurvives`).  Any further line is a line of the list: blank lines and comments are skipped, a pick
  is made, and any other line stops the rebase for good (`BadLineStops`).  What a finished run has
  replayed is said for all messages by `Follows`: every line that is a pick, in order, once, or up to
  k + 1 times behind k skipped lines (`RebaseSession`, `ReplayedEach`).
- A pick stops the rebase where hashes clash, even if the lines merge cleanly: the file then has no markers,
  but has to be staged all the same (`CleanClash`, `StoppedShowsMarkers`).
- An author line without brackets in order is read as a name, and a time that cannot be read is none.  A
  replay of such a commit is given the present as its time (`ReadCommitSurvives`, `ReplayReadsBack`).
- A reset looks for a branch before it looks for a commit.  A branch that is called like a commit
  and is elsewhere misleads the start and the abort of a rebase (`StartMisled`, `AbortMisled`);
  `RebaseAbort`, `BegunLaunched` and `AbortRestores` say exactly when they go where they should.
- The check for a dirty working directory does not notice that a tracked file is missing
  (`NotDirty`, `MissingFileNotDirty`), so an aborted rebase brings such a file back (`AbortRestores`).
- An index path that begins with a slash loses its empty first component when its tree is read
  (`TreeRoundTrip`, `LeadingSlashLost`).
- A configuration value is stored as it is given: one with a line break or white space at its ends is
  not read back (`GetAfterSet`).

Hashes are arbitrary functions.  For trees and the index they have 20-byte results, and the lemmas
name the contents that must not collide.  In the repository model a hash is a hexadecimal string.
An object that exists is not written again, as in the code; the model keeps a record of the first
content that was lost in this way, with the one it collided with.  A rebase can be continued and
aborted in any case; that it replays what it should is promised while nothing is on record.

Check the project with `dafny verify dfyconfig.toml` (Dafny 4.11).

## Model

| member | source | states |
|---|---|---|
| EditPlane.EditDistanceIsLeast | internal/diff/myers.go:142-289 | The distance on the edit plane, which continues past the texts, is the least cost of any script, and some script has it |
| EditPlane.SplitAtLeast | internal/diff/myers.go:280-289 | Cutting both texts at one point never makes the two parts cheaper together than the whole |
| EditPlane.TrimmedDistance | internal/diff/myers.go:142-167 | Removing a common prefix and suffix keeps the edit distance |
| Frontier.FurthestAdvance | internal/diff/myers.go:208-227 | One frontier step, run along matches to the end, gives the furthest point with d edits on its diagonal, also off the grid |
| Frontier.OverlapOnGrid | internal/diff/myers.go:229-273 | Frontiers that overlap before the distance is exceeded do so inside the grid, although both run off it (Myers 1986, Lemma 3) |
| Frontier.OverlapSplits | internal/diff/myers.go:229-273 | Such an overlap spends exactly the distance: d edits before the point, e edits after it |
| Frontier.OverlapExists | internal/diff/myers.go:208-275 | For every division of the distance into d and e, some point is reached by both searches, so the search cannot miss |
| Frontier.SplitDiagonalExists | internal/diff/myers.go:208-275 | There is a first diagonal on which the two frontiers meet |
| Frontier.SplitPointDivides | internal/diff/myers.go:280-289 | The split point lies in the grid, is neither corner, and halves the distance: both recursive calls are in range and smaller |
| Myers.CommonPrefix | internal/diff/myers.go:291-301 | The longest common prefix |
| Myers.CommonSuffix | internal/diff/myers.go:303-315 | The longest common suffix |
| Myers.Trim | internal/diff/myers.go:142-153 | The trimmed texts differ at both ends and the parts rebuild both texts; bisection relies on it |
| Myers.DiffsCorrect | internal/diff/myers.go:142-289 | The diff turns the old text into the new one, has no empty piece, and its insertions and deletions have the length of the edit distance |
| Myers.DiffsMinimal | internal/diff/myers.go:142-289 | No other script is shorter |
| Myers.FirstMeetingIsSplitPoint | internal/diff/myers.go:229-273 | The first overlap that the scan meets is the split point that depends on the texts only, and the rounds spent are the distance |
| Myers.NoMeetingRaisesDistance | internal/diff/myers.go:229-273 | A round without overlap proves the distance to be larger |
| Myers.SearchExhausted | internal/diff/myers.go:275-277 | When all rounds pass without overlap, the texts have nothing in common, and delete-all, insert-all is the shortest diff |
| Myers.DiffCommonPrefix | internal/diff/myers.go:291-301 | The scan loop finds the longest common prefix |
| Myers.DiffCommonSuffix | internal/diff/myers.go:303-315 | The scan loop finds the longest common suffix |
| Myers.ForwardReach | internal/diff/myers.go:208-227 | The forward inner loop computes the furthest point from the neighbouring array cells; all accesses are in range |
| Myers.ReverseReach | internal/diff/myers.go:242-259 | The same for the reverse search on the reversed texts |
| Myers.ForwardSearch | internal/diff/myers.go:208-240 | A forward round keeps the array a table of furthest points, and reports the split point or proves that no diagonal meets |
| Myers.ReverseSearch | internal/diff/myers.go:242-274 | The same for a reverse round |
| Myers.DiffBisect | internal/diff/myers.go:189-277 | The bidirectional search over the arrays computes the diff of the trimmed texts |
| Myers.DiffBisectSplit | internal/diff/myers.go:280-289 | The diffs of the two halves, one after the other |
| Myers.DiffCompute | internal/diff/myers.go:171-184 | The diff of texts whose ends differ |
| Myers.DiffMain | internal/diff/myers.go:142-167 | Trimming, diff of the middle, ends restored: the diff of the texts |
| LongestCommon.DiffsKeepLongest | internal/diff/myers.go:142-289 | The text kept is a longest common subsequence, and the cost is the length of both texts less twice its length |
| LineDiff.NamedDiffs | internal/diff/myers.go:94-135 | Diffing the interned ids and naming them again is the same as diffing the lines |
| LineDiff.InternAll | internal/diff/myers.go:94-120 | The ids name the lines, in a table that only grows and has no line twice |
| LineDiff.DiffLines | internal/diff/myers.go:94-135 | The line diff with its table of ids returns the diff of the lines themselves |
| Edits.EditsOfNormal | internal/merge/merge3.go:158-198 | The edits of a diff lie in the base, are strictly separated, none is empty, and applied they rebuild the other text |
| Edits.EditsCostAtLeast | internal/merge/merge3.go:158-222 | Edits that rebuild a text cost at least its edit distance from the base |
| Merge3.GrowByTheirs | internal/merge/merge3.go:85-114 | Taking an edit of theirs first does not change the region that is grown, although the loop always tries ours first |
| Merge3.GrowSwap | internal/merge/merge3.go:85-114 | Exchanging the sides exchanges the edits of a region and keeps its range |
| Merge3.GrowTight | internal/merge/merge3.go:85-114 | Every base line of a region is inside some edit: regions do not grow further than they must |
| Merge3.Decomposition | internal/merge/merge3.go:59-151 | The chunks, put together, are the base, ours and theirs |
| Merge3.RegionChanged | internal/merge/merge3.go:85-124 | A side with edits in a region differs from the base there; this uses that the diffs are shortest |
| Merge3.ChunksAlternate | internal/merge/merge3.go:59-151 | Unchanged chunks and changed regions take turns: between two regions there is at least one unchanged line, and in each region some side differs from the base |
| Merge3.LoneEdit | internal/merge/merge3.go:85-124 | A region that one side only touches holds exactly one edit, so taking the edit's lines drops no base line |
| Merge3.MergeDecomposition | internal/merge/merge3.go:42-154 | All of this for the merge of three texts: base, ours and theirs are the concatenation of equally many aligned chunks, in which unchanged ones and regions that some side changed take turns |
| Merge3.MergeChunksSwap | internal/merge/merge3.go:59-151 | Exchanging ours and theirs exchanges them in every chunk and keeps the partition |
| Merge3.MergeSymmetric | internal/merge/merge3.go:30-154 | The conflict flag is symmetric, and so is the text when there is no conflict |
| Merge3.MergeEqual | internal/merge/merge3.go:32-34 | The fast path for equal sides returns what the full merge returns, newlines included |
| Merge3.MergeUnchanged | internal/merge/merge3.go:35-40 | The fast paths for one unchanged side return what the full merge returns |
| MergeConflicts.NextCut | internal/merge/merge3.go:85-114 | The region that the loop grows is exactly the group of edits up to the next cut: edits that touch one another, and no others |
| MergeConflicts.RegionConflicts | internal/merge/merge3.go:116-142 | A region conflicts exactly if both sides have edits in it that rebuild some enclosing base range differently |
| MergeConflicts.ConflictIff | internal/merge/merge3.go:59-154 | The merge reports a conflict exactly if in some group of edits that touch one another both sides have edits and these disagree; said about the two edit lists only |
| MergeConflicts.MarkersIff | internal/merge/merge3.go:116-154 | A text that was merged with a conflict has all three markers as lines; one that was not has them only where ours or theirs has such a line |
| MergedText.MergeMeans | internal/merge/merge3.go:42-154 | The lines of the merged text are aligned pieces of the three texts, merged piece by piece: between the lines <<<<<<< HEAD, ======= and >>>>>>> MERGE_HEAD ours stands first and theirs second where all three differ, otherwise the side that changed; the pieces are cut exactly where an edit of either side deletes base lines; the flag is set exactly if all three differ in some piece |
| MergedText.KeepPieces | internal/merge/merge3.go:116-142 | Keeping the first or the second half of every conflict, on the lines alone, gives ours or theirs where all three differ, and the merge elsewhere |
| MergedText.ConflictsResolve | internal/merge/merge3.go:42-154 | So it is for the merge of three texts of which the sides have no marker lines |
| Merge3.DiffToEdits | internal/merge/merge3.go:158-198 | The loop over the diff with its current edit produces the edit list |
| Merge3.BuildRegion | internal/merge/merge3.go:202-222 | The region of one side is the base range with the edits applied |
| Merge3.SlicesEqual | internal/merge/merge3.go:226-238 | Equality of line slices |
| Merge3.GroupRegion | internal/merge/merge3.go:85-114 | The grouping loop finds the least region closed under touching edits of both sides |
| Merge3.ResolveRegion | internal/merge/merge3.go:116-142 | A region becomes the changed side, the common change, or both sides between markers, as `MergedText.MergeMeans` spells out |
| Merge3.Walk | internal/merge/merge3.go:53-151 | The walk over both edit lists produces the merged text of the chunks |
| Merge3.Merge3 | internal/merge/merge3.go:30-154 | The whole merge, fast paths included, returns the merged text and the conflict flag of the decomposition, whose lines `MergedText.MergeMeans` spells out |
| CommitGraph.CollectAncestors | internal/storage/adaptor.go:296-322 | Exactly the commits reachable from the start, or an error if one of them is not stored |
| CommitGraph.IsReachable | internal/storage/adaptor.go:251-281 | True exactly if a path of parents leads to the target; missing commits end a path |
| CommitGraph.IsReachableFromAny | internal/storage/adaptor.go:284-294 | True exactly if the target is reachable from another common ancestor |
| CommitGraph.FindMergeBases | internal/storage/adaptor.go:325-358 | Exactly the best common ancestors, each once; or that there is no common ancestor; or that a commit is missing, exactly if one that a head reaches is |
| CommitGraph.ClosedHoldsReachable | internal/storage/adaptor.go:296-322 | What a commit reaches is the least set that has it and the parents of all its members; `ReachesSelf` and `ReachesVia` say that it is such a set |
| CommitGraph.BestCommonAncestorCovers | internal/storage/adaptor.go:349-357 | On an acyclic graph every common ancestor is below a best one |
| CommitGraph.MergeBasesComplete | internal/storage/adaptor.go:325-358 | The merge bases cover all common ancestors, none is an ancestor of another, and there is one if there is any common ancestor |
| CommitGraph.AncestorIsOnlyBase | internal/core/merge.go:58-81 | If one head is an ancestor of the other, it is the only merge base |
| CommitGraph.SelectBestMergeBase | internal/core/helpers.go:28-45 | The base that stands before all others in ascending byte order, said without the comparing function, or an error if there is none |
| CommitGraph.StringLessIff | internal/core/helpers.go:38-44 | The order of the bases: up to some place two strings agree, and there the first ends or has the smaller character |
| CommitGraph.LeastUnique | internal/core/helpers.go:28-45 | The choice does not depend on the order in which the bases were found |
| CommitGraph.DecideMerge | internal/core/merge.go:41-81 | A merge fast-forwards exactly if the current head is an ancestor of the target or the same, does nothing exactly if the target is a proper ancestor, and otherwise merges over a best common ancestor; it fails without a common ancestor or if a commit is missing |
| RevWalk.Walk.Dfs | internal/core/revwalk.go:12-36 | The recursive walk lists exactly the commits that are reached without those visited before, each once, after its parents; what is below an earlier parent comes first, and the commit itself last |
| RevWalk.CollectCommitsForRebase | internal/core/revwalk.go:8-43 | Exactly the commits reachable from head on paths that avoid base, without repeats, in the order of the walk: head last, before it what its parents reach, earlier parents first, and on an acyclic graph so on for every commit; it terminates on any graph |
| RevWalk.EarlierParentFirst | internal/core/revwalk.go:23-30 | In such a list, what a parent of the head reaches stands before all that only later parents reach |
| RevWalk.LinearWalk | internal/core/revwalk.go:8-43 | On a linear history the list is base..head, oldest first |
| TreeMerge.DecidePath | internal/merge/engine.go:99-160 | The five cases in their order decide a path as the three-way merge of the hashes does, which `PlanByHashes` says by their equalities |
| TreeMerge.MergeTrees | internal/merge/engine.go:69-164 | Every path is in exactly one part of the plan, whatever the map order: in conflict exactly if the three hashes at it are pairwise different, and otherwise updated or deleted as their equalities say |
| TreeMerge.PlanByHashes | internal/merge/engine.go:99-160 | Of any plan that follows the three-way merge: a path conflicts exactly if its three hashes, empty where it is missing, are pairwise different; it is clean with the changed or common one, and deleted if that is empty |
| TreeMerge.PlanUnique | internal/merge/engine.go:69-164 | The plan does not depend on the map order, except for the order of deletions |
| TreeMerge.PlanExists | internal/merge/engine.go:69-164 | There is a plan for any three trees |
| TreeMerge.PlanSymmetric | internal/merge/engine.go:69-164 | Exchanging the sides keeps updates, deletions and conflicting paths, and exchanges the versions in conflicts |
| TreeMerge.PlanOfUnchanged | internal/merge/engine.go:115-152 | Merging (b,b,t), (b,o,b) and (b,x,x) gives t, o and x without conflict |
| RepositoryModel.Repository.ApplyMergePlan | internal/merge/apply.go:25-93 | The three loops leave exactly the planned index and files; on an unreadable object the index is unchanged |
| RepositoryModel.AppliedAt | internal/merge/apply.go:25-93 | What the applied plan does to each path |
| RepositoryModel.AppliedIsMerged | internal/merge/apply.go:25-93 | It does not matter which plan for the three trees is applied |
| RepositoryModel.ApplyMerges | internal/merge/apply.go:25-93 | On an index equal to ours the result is the three-way merge at every path, with stage 2 and the text of the line merge exactly at the clashes |
| RepositoryModel.ApplyMergesClean | internal/merge/apply.go:25-93 | Without clashes the index is exactly the merged tree, and there are conflicts exactly if some path clashes |
| RepositoryModel.Repository.CheckoutTree | internal/core/reset.go:81-126 | Tracked files that the tree lacks are removed, the files of the tree are written, others stay |
| RepositoryModel.Repository.ReadTree | internal/core/reset.go:65-71 | The index becomes the tree |
| RepositoryModel.Repository.UpdateRef | internal/core/reset.go:129-166 | The current branch moves, and no other |
| RepositoryModel.Repository.Reset | internal/core/reset.go:20-62 | A hard reset reaches the state of the commit, and leaves index and branches alone if it fails |
| RebaseEffects.ResetMeans | internal/core/reset.go:20-126 | Path by path: after a hard reset index and files have the version of the tree, resolved; a path that the tree lacks leaves the index, and its file goes exactly if it was tracked; the branch is at the commit and no other branch moved |
| RebaseEffects.ResolveMeans | internal/core/reset.go:20-35 | No argument or HEAD means the current branch, then come branches, then commit ids |
| RepositoryModel.Repository.WriteTree | internal/plumbing/hash_object.go:56-123 | An object that exists is left alone; a different content under its hash goes on record |
| RepositoryModel.Repository.CommitRebaseStep | internal/core/rebase.go:170-216 | The new commit has the index as its tree, HEAD as its one parent, and author, author time and message of the original |
| RebaseStateFiles.SaveRebaseState | internal/core/rebase_state.go:32-69 | The files that are written, one by one, and those that stay |
| RebaseStateFiles.SavedFiles | internal/core/rebase_state.go:32-69 | Each file and its text; the step is written in decimal digits as the number of the next line, counted from one |
| RebaseStateFiles.LoadedFiles | internal/core/rebase_state.go:73-106 | What files are loaded as, whoever wrote them: white space around their texts is dropped, missing ones are empty, and the number, with its sign, is counted from one; what is no number is 0 |
| RebaseStateFiles.SaveLoadRoundTrip | internal/core/rebase_state.go:32-106 | A saved state is loaded unchanged exactly if its texts are trimmed, and its todo list is not empty and has one line per entry |
| RebaseStateFiles.LoadedIsStorable | internal/core/rebase_state.go:73-106 | What was loaded once survives every further save and load, whatever the files held |
| RebaseStateFiles.ReadPickLine | internal/core/rebase.go:82-96 | The line written for a commit is read as the pick of that commit, whatever its message |
| RebaseStateFiles.StepReads | internal/core/rebase.go:82-96 | What any line of the list means: skipped if it is blank or begins with #, a pick of its second word if the first one is pick or p, and otherwise an error |
| RebaseStateFiles.ReachedPick | internal/core/rebase.go:81-103 | What was picked follows the list: a pick that the loop takes after skipped lines completes its line, whether or not it was committed before by a resume |
| RebaseStateFiles.ReachedSkip | internal/core/rebase.go:64-78 | A resume whose saved line is a skipped one commits the pick behind it, which is still to come: at most one repetition for each skipped line |
| RebaseStateFiles.FollowsPicks | internal/core/rebase.go:81-103 | Where every line is a pick, picks that follow the list are exactly its commits, each once, in order |
| RebaseStateFiles.FollowsAll | internal/core/rebase.go:81-103 | Picks that follow a list are of exactly the commits that its lines name, and none of its lines is a bad one |
| ReplayMachine.ReplayPlanned | internal/core/rebase.go:105-157 | A pick does what any plan for its three trees says: a pause with the marker, or a commit and the next line |
| ReplayMachine.ReplayAtNextPick | internal/core/rebase.go:81-86 | Skipped lines make no difference to what the loop does |
| ReplayMachine.BadLineStops | internal/core/rebase.go:88-96 | At a line that is neither a pick nor skipped, continue fails and changes nothing, as often as it is called |
| ReplaySteps.ContinuePicks | internal/core/rebase.go:81-157 | Continue at a pick, said by the stored objects: the base is the tree of the first parent of the picked commit, however many parents it has, or empty if it has none.  If all three versions of some path differ, it stops with the marker, and every path is as `PathMerged` spells out; otherwise the merge is committed and continue goes on from there |
| ReplaySteps.PlanMerges | internal/merge/apply.go:25-93 | What an applied plan makes of every path, by the three hashes: a stage 2 entry of our hash, or of 40 zeros, with the text of the line merge, where they are pairwise different; otherwise the version that was changed, resolved, with its text |
| ReplaySteps.StepCommits | internal/core/rebase.go:170-216 | The commit of a pick: HEAD is its only parent, message and authorship are those of the pick, committer and time are given, its tree has the paths and hashes of the index, the branch moves to it and the marker is gone |
| ReplaySteps.ContinueResumes | internal/core/rebase.go:53-78 | Continue after a pause: nothing changes while an entry is unresolved or if the picked commit is unknown; otherwise the index is committed as the pick, one line is done, and continue goes on from there |
| ReplaySteps.ContinueEnds | internal/core/rebase.go:160-165 | When only skipped lines are left, the state is removed and nothing else changes |
| ReplayMachine.ResumeRepeatsPick | internal/core/rebase.go:56-86 | Skipped todo lines are not saved: a resumed rebase commits the resolved pick and goes on at the same line of the list once more exactly if the line at the saved step is a skipped one |
| ReplayMachine.PickReplays | internal/core/rebase.go:105-157 | A clean pick on a HEAD that the index equals makes HEAD a replay of it |
| ReplayMachine.ReplayReadsBack | internal/core/rebase.go:170-216 | A replayed commit is read from its object with the authorship and message of the original exactly if these survive printing |
| CommitText.CommitTree | internal/plumbing/write_commit.go:23-70 | The buffer: header lines, an empty line and the message, with its defaults for identity and time |
| CommitLayout.CommitWritten | internal/plumbing/write_commit.go:23-70 | The text of a commit object, literally: tree, parents in order, author and committer with time in decimal digits and zone, an empty line and the message with a line end; a missing author is the standard user, a missing committer the author, the zero time now |
| CommitLayout.ReplayWritten | internal/core/rebase.go:174-205 | The text of a replayed commit: the author as name and address in angle brackets, with the original time |
| CommitText.ParseCommit | internal/storage/adaptor.go:179-226 | The reading loop computes the fields of the header lines and the message |
| CommitLayout.CommitReads | internal/storage/adaptor.go:179-226 | What any text with one tree line and one author line in its header is read as, in whatever order the lines are and whatever others there are: all its parents in order, and the trimmed message after the first empty line |
| CommitLayout.AuthorLineReads | internal/storage/adaptor.go:200-218 | Any author line: name and address around the first < and the first >; a line without these in order is all name |
| CommitLayout.TimeMeans | internal/storage/adaptor.go:210-218 | The time of an author line is the first of two or more words after the address, exactly if it is a number of 64 bits with or without sign |
| CommitText.AuthorReads | internal/storage/adaptor.go:200-218 | Name and address of a printed author line are read back exactly if the name is trimmed and has no bracket and the address has no closing one; then the time is read back, too |
| CommitText.CommitRoundTrip | internal/plumbing/write_commit.go:23-70 | A commit is read back as it was written, exactly if name and address have one line and fit on an author line, the message is trimmed, and the time is given |
| CommitText.ReadCommitSurvives | internal/storage/adaptor.go:179-226 | A commit that was read from any object survives being written again, exactly if its name and address fit on an author line and it has a time; the first can only fail after an author line without brackets in order |
| ReplayMachine.PickedTwice | internal/core/rebase.go:56-157 | If that line was skipped and the repeated pick does not clash with its own resolution, HEAD gets two replays of it, one on the other |
| RebaseExamples.TodoOfMessages | internal/core/rebase.go:280-314 | The lines that are saved for two commits of which the first has the message "fix", line break, "#12" are loaded as three |
| RebaseExamples.TwoReplays | internal/core/rebase.go:43-323 | The commands themselves, from a clean repository: start, pause at the second of two commits, its resolution, continue.  The rebase finishes, nothing collided, HEAD has that commit's replay twice, and the list was not replayed as it should |
| SequencerInvariant.PauseKeeps | internal/core/rebase.go:138-149 | A clashing pick leaves a state that can be continued or aborted; on track, the marker names the next pick of the list |
| SequencerInvariant.CommittedConsistent | internal/core/rebase.go:170-216 | A commit keeps the repository consistent even if contents collide; if none is on record, HEAD has the index as its tree |
| SequencerInvariant.CleanPickKeeps | internal/core/rebase.go:105-157 | A clean pick adds one replayed commit to the chain, unless contents collide, and keeps index, HEAD and saved step together, for any list |
| SequencerInvariant.ResumeKeeps | internal/core/rebase.go:64-78 | Committing the resolved pick adds one replayed commit, unless contents collide, and removes the marker, whether the saved line is the pick itself or a skipped one before it |
| SequencerInvariant.EditKeeps | internal/core/rebase.go:56-62 | Editing a tracked file keeps the invariant, and the track |
| SequencerInvariant.DeleteKeeps | internal/core/rebase.go:56-62 | Deleting a working file without telling the index keeps the invariant, and the track |
| SequencerInvariant.AddKeeps | internal/core/rebase.go:56-62 | Staging a file, tracked or just created, keeps the invariant, and a paused rebase on its track |
| SequencerInvariant.RemoveKeeps | internal/core/rebase.go:56-62 | Removing a file keeps the invariant, and a paused rebase on its track |
| RebaseEffects.AddMeans | internal/core/add.go:198-275 | Staging a file stages the hash of its content, resolved, and stores the content unless another one has that hash; no other entry and no file changes |
| RebaseEffects.CreateMeans | internal/core/add.go:198-275 | Writing a file and staging it: its content is in the file, stored, and staged under its hash; no other path changes |
| SequencerInvariant.ResetMatches | internal/core/rebase.go:329-331 | A hard reset makes index and working files exactly those of the commit, if no file is untracked |
| RebaseCommands.RebaseContinue | internal/core/rebase.go:43-165 | Continue does what the step function says, which `ReplaySteps.ContinuePicks`, `ContinueResumes` and `ContinueEnds` spell out step by step; from every state of a rebase, over any list, it leaves one again or finishes; each outcome has its reason, a pause being on the next pick of the list; on track and without collisions it stays on track: HEAD is a single-parent chain above the target of picks that follow the list as far as it is done |
| RebaseCommands.ReplayPicks | internal/core/rebase.go:81-164 | The same for the replay loop |
| RebaseCommands.StoppedShowsMerge | internal/core/rebase.go:105-149 | A pause of a rebase on track shows the three-way merge of the pick with HEAD at every path, with the text of the line merge exactly at the clashes |
| RebaseCommands.StoppedShowsMarkers | internal/merge/apply.go:63-91 | A file that stopped the rebase has all three markers if its line merge conflicts, that is, if edits that touch one another disagree; otherwise it has none that ours or theirs has not |
| RebaseCommands.CleanClash | internal/merge/apply.go:63-91 | A file that both sides added, ours being empty, stops the rebase, and its text is simply theirs |
| RebaseCommands.RebaseAbort | internal/core/rebase.go:18-39 | Abort makes branch, index and files those of the commit that the original head's id resolves to, and changes nothing if there is none; this is the original head exactly if no branch has the id as its name, or that branch is there |
| RebaseExamples.AbortMisled | internal/core/rebase.go:18-39 | Start, pause and abort in such a repository, where a branch is called like the original head: the abort succeeds, goes to another commit, and does not restore the state before |
| RebaseExamples.StartMisled | internal/core/rebase.go:234-323 | Start where a branch is called like the target's commit: the rebase finishes at once, on another commit than the target |
| RebaseCommands.IsWorkDirDirty | internal/core/helpers.go:212-315 | Dirty exactly if index and HEAD differ, or a tracked file that exists differs from the index, as `RebaseEffects.DirtyIff` spells out |
| RebaseEffects.DirtyIff | internal/core/helpers.go:212-315 | Not dirty exactly if the index has the paths and hashes of the stored tree of HEAD, and each tracked file that is there has the hash of its entry |
| RebaseCommands.NotDirty | internal/core/helpers.go:212-315 | A clean check means that the index is HEAD's tree, and the files are those of HEAD exactly if no tracked file is missing, unless a working file collides with a blob |
| RebaseExamples.MissingFileNotDirty | internal/core/helpers.go:212-315 | A repository that is not dirty although one of its two files was deleted |
| RebaseCommands.TodoSurvives | internal/core/rebase.go:280-314 | The generated todo list is loaded as one pick for each commit, in order, exactly if the messages fit in their lines, the last one up to white space at its end; and then line by line as it was saved |
| RebaseCommands.ListHasPicks | internal/core/rebase.go:280-314 | Whatever lines the messages have, the loaded list has a pick of every commit |
| RebaseCommands.PrepareRebase | internal/core/rebase.go:235-278 | Refusals come in the order of the checks, each exactly for its reason where the graph is acyclic, and the walk itself never fails, because a missing commit is noticed before; otherwise the list is exactly the commits that HEAD reaches on paths avoiding the least of the merge bases, each once, in the order of the walk |
| RebaseLists.ListIsListed | internal/core/rebase.go:254-278 | What is listed depends on the graph, HEAD and the target only |
| RebaseLists.OnlyLacking | internal/core/revwalk.go:12-36 | The list holds only commits that the target lacks, exactly if no listed commit has a parent, other than the merge base, that the target has |
| RebaseLists.ListIsLacking | internal/core/revwalk.go:12-36 | Under the same condition, and only then, the list is exactly the commits that HEAD reaches and the target does not; nothing of these is ever missing |
| RebaseLists.SharedHistoryListed | internal/core/revwalk.go:12-36 | A branch that once merged its target: the target is the only merge base, and the list has the history that both share, down to the root |
| RebaseCommands.BegunLaunched | internal/core/rebase.go:302-319 | The start leaves a rebase in progress with nothing replayed, on track exactly if the target's id resolves to the target |
| RebaseEffects.StartFiles | internal/core/rebase.go:280-319 | The files that a start leaves, literally: branch, target, original head, one line for each commit with the word pick, its id and its message, the number 1 and an empty message |
| RebaseCommands.Rebase | internal/core/rebase.go:234-323 | A refused rebase changes nothing, and the refusal is the first one that there is reason for; one that starts goes on from the reset as the step function says.  If it finishes at once, HEAD is a chain above the target of picks that follow the list, and has one replay for each listed commit if their messages have one line; provided that the target's id resolves to the target and nothing collided |
| RebaseCommands.FinishedReplaysAll | internal/core/rebase.go:234-323 | When the loop has gone through the list of a started rebase, after whatever pauses, HEAD is a chain above the target of picks that follow the list; with exactly one replay for each listed commit, in order, if the messages fit in their lines |
| RebaseCommands.ReplayedEach | internal/core/rebase.go:234-323 | Then every listed commit was replayed at least once, and no line of a message was a bad one, whatever messages the commits have |
| RebaseSessions.OnlyPauses | internal/core/rebase.go:81-149 | If all lines are skipped ones or picks of known commits and the rebase is on its track, continue either pauses or finishes |
| RebaseSessions.Act | internal/core/rebase.go:43-165 | Over any run of continue, edit, delete, add, create and remove the rebase stays abortable, and on track while files are staged or removed in pauses only |
| RebaseSessions.AbortRestores | internal/core/rebase.go:18-39 | Aborting after any such run restores branches and index exactly if the original head's id resolves to it; the files are restored exactly if none was missing at the start |
| RebaseSessions.RebaseSession | internal/core/rebase.go:18-323 | A whole session of start, any actions and abort, with its trace.  In a finished one HEAD is a chain above the target of picks that follow the list, whatever messages and pauses there were, if files were staged and removed in pauses only; for one-line messages of the listed commits each was replayed exactly once, in order, without that condition; provided that the target's id resolves to the target and nothing collided.  An aborted one restores the state before it, exactly if the original head's id resolves to it |
| IndexCodec.WriteEntry | internal/plumbing/update_index.go:86-166 | The printed entry: stat data, hash, flags, path, NUL and padding |
| IndexCodec.UpdateIndex | internal/plumbing/update_index.go:43-72 | The index file: header, entries and checksum |
| IndexLayout.FileWritten | internal/plumbing/update_index.go:43-166 | The file byte by byte: 68,73,82,67,0,0,0,2, the number of entries weighted by 2^24, 2^16, 2^8 and 1, then each entry at its place with its ten numbers, hash, flags, path, NUL and filling to a multiple of 8, and the checksum of all that |
| IndexCodec.EntryAligned | internal/plumbing/update_index.go:146-163 | Every entry has a length that is a multiple of 8, for paths of any length |
| IndexCodec.ReadEntry | internal/plumbing/read_index.go:96-168 | The byte reader at an offset reads what the grammar of entries says, and fails when it fails |
| IndexCodec.ReadIndex | internal/plumbing/read_index.go:51-193 | The whole reader, with checksum, header and extensions, agrees with the grammar |
| IndexLayout.ReadIndexIff | internal/plumbing/read_index.go:51-193 | A file is accepted with given entries exactly if its bytes are those: signature, version 2 or 3, count, entries at their places with all numbers weighted, extensions, checksum; whoever wrote it |
| IndexLayout.EntryIff | internal/plumbing/read_index.go:96-168 | Exactly these bytes are read as an entry that ends at a given place: ten numbers, hash, flags with the stage, two more bytes if the extended bit is set, path up to the first NUL, and NULs up to a multiple of 8 |
| IndexLayout.ExtensionsIff | internal/plumbing/read_index.go:170-190 | Extensions are accepted exactly if they are blocks of eight bytes and as many more as their last four say, up to a rest of less than eight |
| IndexLayout.FileErrors | internal/plumbing/read_index.go:51-94 | Which error is reported for a file that is too small, has another checksum, signature or version, in this order |
| IndexCodec.SkipExtensions | internal/plumbing/read_index.go:170-190 | The extension loop accepts exactly the well-formed sequences of extensions |
| IndexCodec.EntryRoundTrip | internal/plumbing/read_index.go:96-168 | A printed entry is read back, and the rest of the file is left; long paths are not cut at 4095 |
| IndexCodec.IndexRoundTrip | internal/plumbing/update_index.go:43-166 | Reading a written index gives the same entries exactly if there are fewer than 2^32, no path has a NUL and all stages are below 4 |
| IndexFile.LoadIndex | internal/storage/index.go:19-33 | The map of the entries by path; a missing file is an empty index |
| IndexFile.ToMapLast | internal/storage/index.go:19-33 | The map has the path of every entry, with the last entry that has it |
| IndexFile.ListingUnique | internal/storage/index.go:118-131 | Only one list has the entries of a map in path order |
| IndexFile.WriteMapToDisk | internal/storage/index.go:118-131 | The file written does not depend on the map order: it has the entries of the map in ascending order of the bytes of their paths |
| IndexFile.ListingOrder | internal/storage/index.go:118-131 | Of two entries in it the first has the smaller path: up to some place the paths agree, and there it ends or has the smaller byte |
| Ordering.LessIff | internal/plumbing/write_tree.go:141-143 | The byte order of Go strings, said without recursion |
| IndexFile.LoadedHoldable | internal/storage/index.go:19-33 | Whatever the file holds, the loaded map files every entry under its own path, and has no NUL in a path, no stage above 3 and fewer than 2^32 entries |
| IndexFile.MapRoundTrip | internal/storage/index.go:19-131 | A map is loaded again after it was written, exactly if it has no NUL in a path, no stage above 3 and fewer than 2^32 entries |
| IndexLock.StepSafe | internal/storage/lockOther.go:21-69 | Every step of any process keeps the invariant of the lock protocol |
| IndexLock.WritersSerialisable | internal/storage/index.go:42-60 | So does every interleaving of any number of processes |
| IndexLock.RunsFromStart | internal/storage/index.go:42-60 | At most one process is between lock and unlock, and a free lock means that the file holds the callbacks applied one after another in lock order, failed ones without effect |
| IndexLock.LoneUpdate | internal/storage/index.go:42-60 | An update that gets through alone does what its callback says, and frees the lock |
| IndexLock.GivesUp | internal/storage/lockOther.go:21-69 | A process may stop waiting for the lock, which changes nothing else |
| IndexStore.Store.UpdateIndex | internal/storage/index.go:50-59 | Load, change, write, for any callback that files the entries of a loaded index under their own paths; a failed load or callback leaves the file as it is |
| IndexStore.UpdateStep | internal/storage/index.go:42-60 | An update fails exactly if its callback fails on the loaded map; otherwise what the callback made is loaded next, exactly if a file can hold it |
| IndexStore.EditsProper | internal/merge/apply.go:26-91 | A callback that reads the index and sets and removes some entries files all under their own paths, keeps within the format, and adds at most as many entries as it sets |
| IndexStore.SetAndRemove | internal/core/add.go:53-127 | Setting an entry, removing one, and changing nothing are such callbacks |
| IndexStore.SerialUpdates | internal/storage/index.go:42-60 | Serial updates of the file are serial updates of the map that is read from it, as long as a file can hold that |
| IndexStore.StoreSerialisable | internal/storage/index.go:42-60 | Whatever processes ask for updates, and in whatever interleaving: the updates that got the lock have an order, and once the lock is free, loading the file gives them applied in that order to the map loaded at first, if a file can hold it on the way |
| IndexStore.EditsSerialisable | internal/storage/index.go:42-60 | For processes that read the index and set and remove entries, a file can hold it as long as there is room for what they may add |
| TreeObjects.AddedHas | internal/plumbing/write_tree.go:73-99 | Adding an entry changes what is at its path and nothing else |
| TreeObjects.BuiltHas | internal/plumbing/write_tree.go:61-63 | The built tree has exactly the files of the index, at the components of their paths |
| TreeObjects.FilesDetermine | internal/plumbing/write_tree.go:56-99 | Trees with the same files are the same: nothing remains of the order of insertion |
| TreeObjects.KeysDiffer | internal/plumbing/write_tree.go:157-169 | No two entries of a directory have the same sort key, a file and a directory of one name included |
| TreeObjects.ObjectStore.HashAndWriteObject | internal/plumbing/hash_object.go:56-123 | An object is stored under its hash unless that exists |
| TreeObjects.ObjectStore.WriteTreeRecursive | internal/plumbing/write_tree.go:106-155 | The hash of the tree, whatever the map order, and exactly the objects of the tree and its subtrees are added |
| TreeObjects.ObjectStore.WriteTree | internal/plumbing/write_tree.go:49-66 | The same for the tree of an index |
| TreeLayout.TreeWritten | internal/plumbing/write_tree.go:101-169 | The bytes of a tree object: for each file its mode in octal digits without leading zeros, a blank, its name, NUL and hash, for each directory 40000 and the hash of its tree, in ascending byte order, where a directory counts as its name with a slash |
| TreeLayout.FilesAtPaths | internal/plumbing/write_tree.go:56-99 | The tree of an index has, at each path cut at its slashes, the mode and hash of the entry of that path, and nothing else |
| TreeObjects.GrownStores | internal/plumbing/write_tree.go:101-155 | Unless contents collide, all objects written can be read |
| TreeParsing.ReadTreeEntry | internal/storage/tree.go:120-139 | One entry is taken off at the offset, or the defect is reported |
| TreeParsing.TreeReader.ParseTreeRecursive | internal/storage/tree.go:81-160 | The reader with its shared map agrees with the grammar of tree objects |
| TreeParsing.TreeReader.ParseTree | internal/storage/tree.go:70-74 | The same for a whole tree |
| TreeLayout.ReadsEntry | internal/storage/tree.go:120-158 | An entry at the front of any object: with mode 40000 or 040000 the tree under its hash is read below its path, otherwise the path gets its mode and hash, and the rest is read |
| TreeLayout.ReadsNoEntry | internal/storage/tree.go:120-139 | Nothing is read from no bytes, and bytes that do not begin with an entry are refused |
| TreeLayout.ReadsObject | internal/storage/tree.go:90-120 | An object is read by its bytes, unless it is a text of lines that begins with a digit |
| TreeParsing.NeverLegacy | internal/storage/tree.go:101-114 | The test for the flat text format never fires on a printed tree |
| TreeRoundTrip.ParseStored | internal/storage/tree.go:81-160 | Reading a stored directory finds every file below it and nothing else |
| TreeRoundTrip.TreeRoundTrip | internal/storage/tree.go:70-160 | Reading the tree of an index gives exactly its paths, modes and hashes: if and only if no path begins with a slash |
| TreeRoundTrip.WrittenTreeReads | internal/plumbing/write_tree.go:49-155 | So it is right after the tree was written, in any store and unless contents collide |
| TreeRoundTrip.LeadingSlashLost | internal/storage/tree.go:141-144 | The path "/a" is read back as "a" |
| TreeRoundTrip.SameTree | internal/plumbing/write_tree.go:49-99 | Two indexes build the same tree exactly if they have the same paths, modes and hashes, in any order |
| TreeRoundTrip.PrintInjective | internal/plumbing/write_tree.go:147-151 | Different entry lists are printed differently |
| TreeRoundTrip.SameHashSameTree | internal/plumbing/write_tree.go:101-155 | Unless contents collide, equal hashes mean equal directories all the way down |
| TreeRoundTrip.RootHashIdentifies | internal/plumbing/write_tree.go:49-169 | Two indexes have the same root hash exactly if they have the same paths, modes and hashes |
| Config.ReadKeyFromPath | internal/core/config.go:173-205 | The reading loop finds the first setting of the key in an occurrence of its section |
| Config.GetConfig | internal/core/config.go:154-170 | The local file comes first, the global one second; which line of a file counts is said by `ConfigLayout.ReadIff` |
| Config.EditLines | internal/core/config.go:86-144 | The editing loop and what is appended after it |
| Config.ConfigFile.SetConfig | internal/core/config.go:71-147 | The new text of the file; a key without a section changes nothing |
| ConfigLaws.HeaderLineReads | internal/core/config.go:51-63 | A written section header is read as its section and subsection |
| ConfigLaws.SettingLineReads | internal/core/config.go:193-201 | A written setting is read as its name and trimmed value |
| ConfigLayout.SettingReads | internal/core/config.go:193-201 | Any line name=value, with any white space around the two, is a setting of just that name and value |
| ConfigLayout.HeaderReads | internal/core/config.go:51-63 | Any line in brackets, with white space around it and any number of quotes around the subsection, is a header of that section and subsection |
| ConfigLayout.ReadIff | internal/core/config.go:173-205 | A file has a value for a key exactly if this is the value of the first line that is neither blank, comment nor header, has that name before its equals sign, and stands under a last header of that section |
| ConfigLaws.RewriteAtSpot | internal/core/config.go:91-128 | The editor puts one line at one spot and leaves all other lines as they are |
| ConfigLayout.SetWritten | internal/core/config.go:86-144 | Where the line goes, in any file: over the first line of the name in the first section of the place, or behind that section if it has none, or under a new header at the end; all other lines stay, and the file ends in a line end |
| ConfigLayout.EditedLines | internal/core/config.go:79-86 | The lines that are edited are those of the file, but none for a missing or empty one |
| ConfigLayout.NewFile | internal/core/config.go:79-147 | The text that is written where there was no file |
| ConfigLaws.SetShape | internal/core/config.go:86-144 | The lines around the one that is set do not depend on the value |
| ConfigLaws.GetAfterSet | internal/core/config.go:71-205 | A key reads as the first line of the value without surrounding white space: as the value exactly if that is trimmed and has one line; over any file |
| ConfigLaws.GetOtherAfterSet | internal/core/config.go:71-205 | Every other key reads as before, over any file with repeated sections and comments |
| ConfigLaws.SetAfterSet | internal/core/config.go:71-147 | Setting twice leaves the file of the second set alone |
| ConfigLaws.SplitKeyName | internal/core/config.go:33-44 | A dotted key stands for its section, subsection and name; the subsection may have dots |
| ConfigLayout.KeyIs | internal/core/config.go:33-44 | A dotted key is section, name, and between them the subsection with all its dots |
| ConfigLaws.NoSection | internal/core/config.go:33-37 | A key is refused exactly if it has no dot |

## Left out

- Command line, printed output, colours, help, the editor launch and the interactive todo list: user interface.
- zlib, SHA-1 itself, temporary files, fsync, rename and retries: objects and files change in one step.
- Crashes in the middle of an operation, and failed file operations other than unreadable objects.
- The index lock on Unix (internal/storage/lockUnix.go): it rests on kernel locks and unlinked inodes.
- Lock files that a dead process left behind, and the length of the time-out: a waiting process may give up at any step.
- TreeMerge.MergeTrees: leaves out the mode of an updated path; decisions are taken on hashes only, so a change of mode alone follows the base.
- TreeMerge.DecidePath: leaves out the mode in the same way.
- RepositoryModel.Repository.ApplyMergePlan: leaves out file modes and failed writes.
- RepositoryModel.Repository.CheckoutTree: leaves out modes, symbolic links, and what is on disk after a failure.
- RepositoryModel.Repository.ReadTree: gets the tree already parsed.
- RepositoryModel.Repository.UpdateRef: leaves out the HEAD file behind the current branch, a detached HEAD and the reflog.
- RepositoryModel.Repository.Reset: hard resets on a branch only.
- TreeObjects.ObjectStore.WriteTree: leaves out index entries with the mode of a directory, which would be read back as trees.
- IndexStore.Store.UpdateIndex: leaves out callbacks that file an entry under another path than its own, for which the order of the file is not determined.
- RebaseEffects.AddMeans: leaves out ignored and unsafe paths, modes, and the shortcut for a file whose size and time are those of its entry.
- RebaseEffects.CreateMeans: leaves out the same.
- File modes, symbolic links and stat data in merges, checkouts and resets: decisions are taken on hashes only, so a change of mode alone follows the base.
- A path that is a file on one side and a directory on the other.
- Hash strings shorter than seven characters, which the messages slice.
- Commits in the repository model are values with their fields; `ReplayReadsBack` says which of them their objects are read back as.
- The name of the committer and the clock: parameters of the steps.
- Editing the todo list by hand: `RebaseContinue` is proved over any list, but sessions begin with the generated one.
- A detached HEAD.
- Commits whose first parent is not stored: excluded from rebases, because their base would change once it is.
- Untracked files in a rebase: excluded by the precondition of a session, as the promise to restore needs.
- The files that `IsWorkDirDirty` hashes are also written as objects; the model only compares the hashes.
- Merge after its decision: its steps are those of the rebase; its metadata files are not modelled.
- The reflog.
- TreeParsing.TreeReader.ParseTree: reports the legacy text format instead of reading it; no written tree is taken for it.
- Hexadecimal spelling of hashes in trees and the index: hashes are their bytes.
- TreeObjects.AddToTree: directory nodes are values, not shared pointers that are changed in place.
- TreeParsing.TreeReader.ParseTreeRecursive: reports the legacy text format, too, and has a bound on the nesting, which a tree cannot exceed unless hashes collide; with a bound above the longest path nothing is lost.
- ConfigLaws.GetOtherAfterSet: a value with line breaks is excluded, because its further lines may set other keys.
- Invalid UTF-8 in configuration files and todo lists, where Go trims bytes.
- Status and rename detection, ignore patterns, stash, tags, branches, move, remove, clean, log, grep.
- The old JSON index and the deprecated CreateTree.
