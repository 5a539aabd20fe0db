/** Whole runs of a rebase: any sequence of user actions and calls of continue, and the abort. */
module RebaseSessions {
  import opened Wrappers
  import opened CommitGraph
  import opened TreeMerge
  import opened RebaseStateFiles
  import opened RepositoryModel
  import opened SequencerInvariant
  import opened ReplayMachine
  import opened RebaseLists
  import opened RebaseCommands

  /** What the user or the sequencer may do next. */
  datatype Action =
    | Continue
    | Edit(path: Path, content: Content)     // a tracked file
    | Delete(path: Path)                     // the working file only
    | Add(path: Path)
    | Create(path: Path, content: Content)   // writes a file, tracked or not, and stages it
    | Remove(path: Path)                     // from working directory and index

  ghost predicate ActsAs(h: Hashing, r: Repo, r': Repo, action: Action, committer: string, now: int) {
    match action
    case Continue =>
      && r.rebase.Some? && 0 <= Loaded(r.rebase.value).currentStep
      && r' == ContinueFrom(h, r, committer, now).0
    case Edit(path, content) => r' == if path in r.index then r.(worktree := r.worktree[path := content]) else r
    case Delete(path) => r' == r.(worktree := r.worktree - {path})
    case Add(path) => r' == if path in r.worktree then Added(h, r, path) else r
    case Create(path, content) => r' == Created(h, r, path, content)
    case Remove(path) => r' == Removed(r, path)
  }

  // ---------- What every action keeps ----------

  /** The rebase that began in `b` is still in progress in `r`. */
  ghost predicate Kept(h: Hashing, b: Repo, r: Repo)
    requires b.rebase.Some?
  {
    && InProgress(h, r) && r.rebase.Some?
    && Grows(b, r) && SameOtherRefs(b, r) && SameRebase(b.rebase.value, r.rebase.value)
  }

  lemma KeptBegins(h: Hashing, b: Repo)
    requires InProgress(h, b)
    ensures b.rebase.Some? && Kept(h, b, b)
  {
    hide Loaded, StoreOk;
  }

  lemma KeptContinues(h: Hashing, b: Repo, r: Repo, r': Repo, out: RunOutcome)
    requires b.rebase.Some? && Kept(h, b, r) && Continued(h, r, r', out) && r'.rebase.Some?
    ensures Kept(h, b, r')
  {
    hide Loaded, InProgress, OnTrack, Grows, Justified;
    GrowsTrans(b, r, r');
  }

  /** User actions leave refs and sequencer files alone. */
  lemma KeptActs(h: Hashing, b: Repo, r: Repo, r': Repo)
    requires b.rebase.Some? && Kept(h, b, r) && InProgress(h, r') && Grows(r, r')
    requires r'.rebase == r.rebase && r'.branch == r.branch && r'.branches == r.branches
    ensures Kept(h, b, r')
  {
    hide Loaded, InProgress, Grows;
    GrowsTrans(b, r, r');
  }

  /** Staging and removing files outside a pause gets a rebase off its track. */
  ghost predicate Gentle(r: Repo, action: Action) {
    action.Add? || action.Create? || action.Remove? ==> Paused(r)
  }

  /**
   Where the rebase is on track: HEAD is a chain of the picks so far.  If no line is bad and all
   picks are of known commits, it only ever stops for conflicts.
   */
  ghost predicate Tracked(b: Repo, r: Repo, strict: bool)
    requires b.rebase.Some?
  {
    strict && r.collision.None? ==> OnTrack(r) && (KnownPicks(b) ==> Paused(r))
  }

  lemma SameTodoSteps(h: Hashing, b: Repo, r: Repo)
    requires b.rebase.Some? && Kept(h, b, r)
    ensures r.rebase.Some? && InProgress(h, r)
    ensures Loaded(r.rebase.value).todoSteps == Loaded(b.rebase.value).todoSteps
  {
    hide Loaded, InProgress, Grows;
  }

  /** Lines that are known picks or skipped leave continue no other outcomes than a pause and the end. */
  lemma OnlyPauses(h: Hashing, b: Repo, r: Repo, r': Repo, out: RunOutcome)
    requires b.rebase.Some? && Kept(h, b, r) && Continued(h, r, r', out) && KnownPicks(b) && OnTrack(r)
    ensures r'.rebase.Some? ==> Paused(r')
  {
    hide Loaded, InProgress, Consistent, Chain, Went, ReadStep, PickClashes, TreeAt, Implements, NextPick;
    SameTodoSteps(h, b, r);
    if r'.rebase.Some? && (out == BadTodo || out.UnknownCommit?) {
      CommitsKept(b, r, r');
      assert Loaded(r'.rebase.value).todoSteps == Loaded(b.rebase.value).todoSteps;
    }
  }

  lemma CommitsKept(b: Repo, r: Repo, r': Repo)
    requires Grows(b, r) && Grows(r, r')
    ensures b.objects.commits.Keys <= r'.objects.commits.Keys
  {
  }

  lemma TrackedContinues(h: Hashing, b: Repo, r: Repo, r': Repo, out: RunOutcome, strict: bool)
    requires b.rebase.Some? && Kept(h, b, r) && Continued(h, r, r', out) && Tracked(b, r, strict)
    ensures r'.rebase.Some? ==> Tracked(b, r', strict)
    ensures r'.rebase.None? && strict && r'.collision.None? ==> Completed(r', Loaded(b.rebase.value))
  {
    hide Loaded, InProgress, Consistent, Chain, Justified, KnownPicks, OnTrack, Extends;
    SameTodoSteps(h, b, r);
    if strict && r'.collision.None? && KnownPicks(b) && r'.rebase.Some? {
      OnlyPauses(h, b, r, r', out);
    }
  }

  lemma TrackedActs(h: Hashing, b: Repo, r: Repo, r': Repo, action: Action, strict: bool)
    requires b.rebase.Some? && Tracked(b, r, strict) && Grows(r, r') && r'.rebase == r.rebase
    requires Gentle(r, action) && OnTrack(r) ==> OnTrack(r')
    ensures Tracked(b, r', strict && Gentle(r, action))
  {
    hide Loaded, KnownPicks, OnTrack, Extends, Gentle;
  }

  lemma GrowsSelf(r: Repo)
    ensures Grows(r, r)
  {
  }

  /** One action, and what it keeps: the rebase can go on or be aborted, and it stays on track. */
  method Act(repo: Repository, action: Action, committer: string, now: int, ghost strict: bool, ghost b: Repo)
    returns (ghost strict': bool)
    requires Hexadecimal(repo.h) && repo.rebase.Some? && b.rebase.Some? && Kept(repo.h, b, repo.State())
    requires Tracked(b, repo.State(), strict)
    modifies repo
    ensures ActsAs(repo.h, old(repo.State()), repo.State(), action, committer, now)
    ensures Grows(old(repo.State()), repo.State())
    ensures strict' <==> strict && Gentle(old(repo.State()), action)
    ensures repo.rebase.Some? ==> Kept(repo.h, b, repo.State()) && Tracked(b, repo.State(), strict')
    ensures repo.rebase.None? ==>
              && Consistent(repo.h, repo.State())
              && (strict' && repo.collision.None? ==> Completed(repo.State(), Loaded(b.rebase.value)))
  {
    hide Loaded, InProgress, OnTrack, Grows, Hexadecimal, Kept, Tracked, Added, Completed, Justified,
         Consistent, SameRebase, SameOtherRefs, ContinueFrom, Since, PutBlob;
    ghost var r := repo.State();
    KeptParts(repo.h, b, r);
    GrowsSelf(r);
    strict' := strict && Gentle(r, action);
    match action
    case Continue =>
      var out := RebaseContinue(repo, committer, now);
      ContinuedGrows(repo.h, r, repo.State(), out);
      TrackedContinues(repo.h, b, r, repo.State(), out, strict);
      if repo.rebase.Some? {
        KeptContinues(repo.h, b, r, repo.State(), out);
      }
    case Edit(path, content) =>
      if path in repo.index {
        EditKeeps(repo.h, r, path, content);
        repo.EditFile(path, content);
        WorktreeGrows(r, repo.State());
        KeptActs(repo.h, b, r, repo.State());
      }
      TrackedActs(repo.h, b, r, repo.State(), action, strict);
    case Delete(path) =>
      DeleteKeeps(repo.h, r, path);
      repo.DeleteFile(path);
      WorktreeGrows(r, repo.State());
      KeptActs(repo.h, b, r, repo.State());
      TrackedActs(repo.h, b, r, repo.State(), action, strict);
    case Add(path) =>
      if path in repo.worktree {
        AddKeeps(repo.h, r, r.worktree, path);
        repo.AddFile(path);
        AddedParts(repo.h, r, r.worktree, path);
        KeptActs(repo.h, b, r, repo.State());
      }
      TrackedActs(repo.h, b, r, repo.State(), action, strict);
    case Create(path, content) =>
      AddKeeps(repo.h, r, r.worktree[path := content], path);
      repo.CreateFile(path, content);
      AddedParts(repo.h, r, r.worktree[path := content], path);
      KeptActs(repo.h, b, r, repo.State());
      TrackedActs(repo.h, b, r, repo.State(), action, strict);
    case Remove(path) =>
      RemoveKeeps(repo.h, r, path);
      repo.RemoveFile(path);
      WorktreeGrows(r, repo.State());
      KeptActs(repo.h, b, r, repo.State());
      TrackedActs(repo.h, b, r, repo.State(), action, strict);
  }

  lemma KeptParts(h: Hashing, b: Repo, r: Repo)
    requires b.rebase.Some? && Kept(h, b, r)
    ensures InProgress(h, r) && r.rebase.Some? && r.worktree.Keys <= r.index.Keys
  {
    hide Loaded, StoreOk;
  }

  lemma ContinuedGrows(h: Hashing, r: Repo, r': Repo, out: RunOutcome)
    requires r.rebase.Some? && Continued(h, r, r', out)
    ensures Grows(r, r') && (r'.rebase.None? ==> Consistent(h, r'))
  {
    hide Loaded, InProgress, OnTrack, Justified, Consistent, Grows;
  }

  lemma WorktreeGrows(r: Repo, r': Repo)
    requires r'.objects == r.objects && r'.collision == r.collision
    ensures Grows(r, r')
  {
  }

  lemma AddedParts(h: Hashing, r: Repo, worktree: Worktree, path: Path)
    requires path in worktree
    ensures var r' := Added(h, r.(worktree := worktree), path);
            r'.rebase == r.rebase && r'.branch == r.branch && r'.branches == r.branches
  {
  }

  // ---------- Abort ----------

  /**
   Branches, index hashes and working files are those of `r`.  The files are so exactly if no
   tracked one was missing in `r`: the dirty check does not notice missing files, and the
   reset brings them back.
   */
  ghost predicate Restored(r: Repo, r': Repo) {
    && r'.branch == r.branch && r'.branches == r.branches && r'.rebase.None?
    && TreeOf(r'.index) == TreeOf(r.index) && AllResolved(r'.index)
    && (r'.worktree == r.worktree <==> r.worktree.Keys == r.index.Keys)
  }

  /**
   Aborting in state `s` goes to the commit `id` that the original HEAD's id resolves to there,
   and restores the state before the rebase exactly if that is the original HEAD.
   */
  lemma AbortRestores(h: Hashing, r: Repo, b: Repo, s: Repo, onto: Id, head: Id, todo: seq<string>, id: Id)
    requires Ready(h, r) && !Dirty(h, r) && HeadOf(r) == Some(head) && NoFileCollides(h, r)
    requires Launched(h, r, b, onto, head, todo) && b.rebase.Some? && Kept(h, b, s)
    requires id in s.objects.commits && s.objects.commits[id].tree in s.objects.trees
    requires MatchesCommit(ResetTo(s, id).(rebase := None), id)
    ensures Restored(r, ResetTo(s, id).(rebase := None)) <==> id == head
  {
    hide Loaded, InProgress, Ready, Dirty, StoreOk, NoFileCollides, TreeOf, Entries, TreeAt, Contents, LoadedTodo,
         Paused, AllResolved;
    var r' := ResetTo(s, id).(rebase := None);
    ReadyStore(h, r);
    BranchesBack(h, r, b, s, onto, head, todo, id);
    if id == head {
      TreeBack(h, r, s, head);
      EntriesTree(TreeAt(s.objects, head));
      EntriesResolved(TreeAt(s.objects, head));
    }
  }

  lemma BranchesBack(h: Hashing, r: Repo, b: Repo, s: Repo, onto: Id, head: Id, todo: seq<string>, id: Id)
    requires HeadOf(r) == Some(head) && Launched(h, r, b, onto, head, todo) && b.rebase.Some? && Kept(h, b, s)
    requires id in s.objects.commits && s.objects.commits[id].tree in s.objects.trees
    ensures Extends(r.objects, s.objects) && ResetTo(s, id).branch == r.branch
    ensures ResetTo(s, id).branches == r.branches <==> id == head
  {
    hide Loaded, InProgress, StoreOk, TreeOf, Entries, TreeAt, Contents, LoadedTodo;
    var bs := ResetTo(s, id).branches;
    assert bs[r.branch] == id && r.branches[r.branch] == head;
    if id == head {
      assert bs.Keys == r.branches.Keys;
      forall x | x in bs
        ensures bs[x] == r.branches[x]
      {
      }
    }
  }

  /** The original HEAD's tree and contents are what they were. */
  lemma TreeBack(h: Hashing, r: Repo, s: Repo, head: Id)
    requires Ready(h, r) && !Dirty(h, r) && HeadOf(r) == Some(head) && NoFileCollides(h, r)
    requires Extends(r.objects, s.objects)
    ensures TreeAt(s.objects, head) == TreeOf(r.index)
    ensures Contents(s.objects, TreeAt(s.objects, head)) == r.worktree <==> r.worktree.Keys == r.index.Keys
  {
    hide StoreOk, Dirty, IsCollision;
    NotDirty(h, r);
    ExtendsTreeAt(h, r.objects, s.objects, head);
    SameContents(h, r.objects, s.objects, head);
  }

  lemma SameContents(h: Hashing, o: Objects, o': Objects, id: Id)
    requires StoreOk(h, o) && Extends(o, o') && id in o.commits
    ensures Contents(o', TreeAt(o, id)) == Contents(o, TreeAt(o, id))
  {
    TreeAtOk(h, o, id);
  }

  // ---------- Sessions ----------

  lemma StartedFrom(h: Hashing, r: Repo, r': Repo, out: RunOutcome, target: string, committer: string, now: int)
    returns (b: Repo, ids: seq<Id>)
    requires Started(h, r, r', out, target, committer, now) && Ready(h, r)
    ensures HeadOf(r).Some? && target in r.branches && AllKnown(r.objects.commits, ids) && ids != []
    ensures IsRebaseList(r.objects.commits, HeadOf(r).value, r.branches[target], ids)
    ensures Launched(h, r, b, r.branches[target], HeadOf(r).value, TodoLines(r.objects.commits, ids)) && b.rebase.Some?
    ensures r'.rebase.Some? ==> Kept(h, b, r')
    ensures var strict := Resolve(r, r.branches[target]) == r.branches[target];
            && (r'.rebase.Some? ==> Tracked(b, r', strict))
            && (r'.rebase.None? && strict && r'.collision.None? ==> Completed(r', Loaded(b.rebase.value)))
    ensures r'.rebase.None? ==> Consistent(h, r')
  {
    hide Loaded, InProgress, OnTrack, Grows, StoreOk, IsRebaseList, LoadedTodo, TodoLines, Begun, Kept,
         Justified, Since, Completed, Resolve, Ready, Consistent, KnownPicks, SameOtherRefs;
    var g, head, onto := r.objects.commits, HeadOf(r).value, r.branches[target];
    ids :| StartedWith(h, r, r', out, target, ids, committer, now);
    b := Begun(r, onto, head, TodoLines(g, ids));
    LaunchedRuns(h, r, b, onto, head, TodoLines(g, ids));
    KeptBegins(h, b);
    if Resolve(r, onto) in g {
      ContinuedGrows(h, b, r', out);
      StartTracked(h, b, r', out, Resolve(r, onto) == onto);
      if r'.rebase.Some? {
        KeptContinues(h, b, b, r', out);
      }
    }
  }

  lemma StartTracked(h: Hashing, b: Repo, r': Repo, out: RunOutcome, strict: bool)
    requires b.rebase.Some? && Kept(h, b, b) && Continued(h, b, r', out) && (strict ==> OnTrack(b))
    ensures r'.rebase.Some? ==> Tracked(b, r', strict)
    ensures r'.rebase.None? && strict && r'.collision.None? ==> Completed(r', Loaded(b.rebase.value))
  {
    hide Loaded, InProgress, Consistent, Chain, Justified, KnownPicks, OnTrack, Extends, Kept;
    if strict && r'.collision.None? && KnownPicks(b) && r'.rebase.Some? {
      OnlyPauses(h, b, b, r', out);
    }
  }

  /** How a session began, and what is known of it as long as it goes on. */
  ghost predicate Underway(h: Hashing, r: Repo, b: Repo, s: Repo, target: string, ids: seq<Id>, strict: bool) {
    && HeadOf(r).Some? && target in r.branches && AllKnown(r.objects.commits, ids) && ids != []
    && IsRebaseList(r.objects.commits, HeadOf(r).value, r.branches[target], ids)
    && Launched(h, r, b, r.branches[target], HeadOf(r).value, TodoLines(r.objects.commits, ids))
    && b.rebase.Some? && s.rebase.Some? && Kept(h, b, s) && Tracked(b, s, strict)
    && (Faithful(r, target) && s.collision.None? ==> strict)
  }

  lemma UnderwayParts(h: Hashing, r: Repo, b: Repo, s: Repo, target: string, ids: seq<Id>, strict: bool)
    requires Underway(h, r, b, s, target, ids, strict)
    ensures b.rebase.Some? && s.rebase.Some? && Kept(h, b, s) && Tracked(b, s, strict) && InProgress(h, s)
  {
    hide Loaded, InProgress, Tracked, Launched, Faithful, TodoLines, Grows, SameOtherRefs, SameRebase;
  }

  lemma PlainKnownPicks(h: Hashing, r: Repo, b: Repo, target: string, ids: seq<Id>)
    requires Ready(h, r) && HeadOf(r).Some? && target in r.branches && AllKnown(r.objects.commits, ids) && ids != []
    requires Launched(h, r, b, r.branches[target], HeadOf(r).value, TodoLines(r.objects.commits, ids))
    requires IsRebaseList(r.objects.commits, HeadOf(r).value, r.branches[target], ids) && Faithful(r, target)
    ensures b.rebase.Some? && KnownPicks(b)
  {
    hide Loaded, Launched, TodoLines, Ready, KnownPicks, PlainMessages, MessagesFit, StoreOk;
    ReadyStore(h, r);
    PlainFit(r.objects.commits, HeadOf(r).value, r.branches[target], ids);
    LaunchedKnownPicks(h, r, b, r.branches[target], HeadOf(r).value, ids);
  }

  /** With one-line messages every action of a session is gentle, since the rebase is paused. */
  lemma StaysUnderway(
    h: Hashing, r: Repo, b: Repo, s: Repo, s': Repo, target: string, ids: seq<Id>, strict: bool, action: Action)
    requires Ready(h, r) && Underway(h, r, b, s, target, ids, strict) && Grows(s, s')
    requires b.rebase.Some? && (s'.rebase.Some? ==> Kept(h, b, s') && Tracked(b, s', strict && Gentle(s, action)))
    ensures s'.rebase.Some? ==> Underway(h, r, b, s', target, ids, strict && Gentle(s, action))
    ensures Faithful(r, target) && s'.collision.None? ==> strict && Gentle(s, action)
  {
    hide Loaded, InProgress, OnTrack, TodoLines, Kept, Launched, Resolve, Ready, KnownPicks, PlainMessages, Extends;
    if Faithful(r, target) && s'.collision.None? {
      PlainKnownPicks(h, r, b, target, ids);
    }
  }

  lemma BeginsUnderway(h: Hashing, r: Repo, b: Repo, s: Repo, target: string, ids: seq<Id>, strict: bool)
    requires HeadOf(r).Some? && target in r.branches && AllKnown(r.objects.commits, ids) && ids != []
    requires IsRebaseList(r.objects.commits, HeadOf(r).value, r.branches[target], ids)
    requires Launched(h, r, b, r.branches[target], HeadOf(r).value, TodoLines(r.objects.commits, ids))
    requires b.rebase.Some? && s.rebase.Some? && Kept(h, b, s) && Tracked(b, s, strict)
    requires strict <==> Resolve(r, r.branches[target]) == r.branches[target]
    ensures Underway(h, r, b, s, target, ids, strict)
  {
    hide Launched, Kept, Tracked, TodoLines, Resolve, PlainMessages;
  }

  lemma FinishedSession(h: Hashing, r: Repo, b: Repo, r': Repo, target: string, ids: seq<Id>, strict: bool)
    requires Ready(h, r) && HeadOf(r).Some? && target in r.branches && AllKnown(r.objects.commits, ids) && ids != []
    requires IsRebaseList(r.objects.commits, HeadOf(r).value, r.branches[target], ids)
    requires Launched(h, r, b, r.branches[target], HeadOf(r).value, TodoLines(r.objects.commits, ids))
    requires b.rebase.Some? && (strict && r'.collision.None? ==> Completed(r', Loaded(b.rebase.value)))
    ensures strict && r'.collision.None? ==> ReplayedList(r, r', target)
    ensures strict && r'.collision.None? && Faithful(r, target) ==> ReplayedAll(r, r', target)
  {
    hide Loaded, Launched, TodoLines, Ready, PlainMessages, MessagesFit, Completed, IsRebaseList, ReplayedAll,
         ReplayedList, Resolve;
    if strict && r'.collision.None? {
      ReadyStore(h, r);
      FinishedReplaysAll(h, r, b, r', target, ids);
      if Faithful(r, target) {
        PlainFit(r.objects.commits, HeadOf(r).value, r.branches[target], ids);
      }
    }
  }

  /** What a session ends with that was neither refused nor finished. */
  ghost predicate Aborted(h: Hashing, r: Repo, before: Repo, r': Repo, ok: bool) {
    && HeadOf(r).Some?
    && var head := HeadOf(r).value;
       && SameOtherRefs(r, before)
       && (ok <==> Resolve(before, head) in before.objects.commits)
       && (NoFileCollides(h, r) && ok ==> (Restored(r, r') <==> Resolve(before, head) == head))
       && (head !in r.branches ==> ok && Resolve(before, head) == head)
  }

  lemma AbortedSession(h: Hashing, r: Repo, b: Repo, s: Repo, r': Repo, target: string, ids: seq<Id>, strict: bool,
                       ok: bool)
    requires Ready(h, r) && !Dirty(h, r) && Underway(h, r, b, s, target, ids, strict) && s.rebase.Some?
    requires var id := Resolve(s, Loaded(s.rebase.value).origHead);
             && Loaded(s.rebase.value).origHead in s.objects.commits
             && (ok <==> id in s.objects.commits)
             && (ok ==> && s.objects.commits[id].tree in s.objects.trees
                        && r' == ResetTo(s, id).(rebase := None) && MatchesCommit(r', id))
    ensures Aborted(h, r, s, r', ok)
  {
    hide Loaded, Ready, Dirty, ResetTo, MatchesCommit, TodoLines, Tracked, Restored, NoFileCollides, InProgress,
         Resolve, Faithful, Grows;
    var head, onto := HeadOf(r).value, r.branches[target];
    var todo := TodoLines(r.objects.commits, ids);
    OriginIsHead(h, r, b, s, onto, head, todo);
    var id := Resolve(s, head);
    KeptParts(h, b, s);
    InProgressStore(h, s);
    ResolvesCommit(h, s, head);
    if NoFileCollides(h, r) && ok {
      AbortRestores(h, r, b, s, onto, head, todo, id);
    }
  }

  lemma OriginIsHead(h: Hashing, r: Repo, b: Repo, s: Repo, onto: Id, head: Id, todo: seq<string>)
    requires Launched(h, r, b, onto, head, todo) && b.rebase.Some? && Kept(h, b, s)
    ensures s.rebase.Some? && Loaded(s.rebase.value).origHead == head && SameOtherRefs(r, s)
  {
    hide Loaded, InProgress, Grows, LoadedTodo;
  }

  /** The states of a run: each action leads from one to the next. */
  ghost predicate IsRun(h: Hashing, trace: seq<Repo>, actions: seq<Action>, committer: string, now: int) {
    && 0 < |trace| <= |actions| + 1
    && forall i :: 0 <= i < |trace| - 1 ==> ActsAs(h, trace[i], trace[i + 1], actions[i], committer, now)
  }

  /** Files are staged and removed in pauses only. */
  ghost predicate GentleRun(trace: seq<Repo>, actions: seq<Action>) {
    forall i :: 0 <= i < |trace| - 1 && i < |actions| ==> Gentle(trace[i], actions[i])
  }

  lemma RunGrows(
    h: Hashing, trace: seq<Repo>, actions: seq<Action>, r': Repo, committer: string, now: int)
    requires IsRun(h, trace, actions, committer, now) && |trace| <= |actions|
    requires ActsAs(h, trace[|trace| - 1], r', actions[|trace| - 1], committer, now)
    ensures IsRun(h, trace + [r'], actions, committer, now)
    ensures GentleRun(trace + [r'], actions) <==>
              GentleRun(trace, actions) && Gentle(trace[|trace| - 1], actions[|trace| - 1])
  {
    hide ActsAs, Gentle;
    var longer := trace + [r'];
    assert forall i :: 0 <= i < |trace| ==> longer[i] == trace[i];
  }

  /** What a finished session has replayed. */
  ghost predicate Finished(r: Repo, trace: seq<Repo>, actions: seq<Action>, r': Repo, target: string) {
    target in r.branches && Resolve(r, r.branches[target]) == r.branches[target] && r'.collision.None? ==>
      && (GentleRun(trace, actions) ==> ReplayedList(r, r', target))
      && (Faithful(r, target) ==> ReplayedAll(r, r', target))
  }

  /**
   A whole session: start, any run of further actions, and abort unless the rebase finished; the
   trace holds the state after the start and after each action.  In a finished session HEAD is a
   chain of picks that follow the list, whatever messages the commits have and whatever pauses
   there were, if the target's id resolves to the target, nothing collided, and files were staged
   and removed in pauses only.  For one-line messages the last is not needed, and each listed commit
   was replayed exactly once.  An aborted session restores the state before it, exactly if the
   original HEAD's id resolves to that commit.
   */
  method RebaseSession(repo: Repository, target: string, actions: seq<Action>, committer: string, now: int)
    returns (started: bool, finished: bool, ok: bool, ghost trace: seq<Repo>)
    requires Hexadecimal(repo.h) && Ready(repo.h, repo.State())
    modifies repo
    ensures !started ==> !finished && repo.State() == old(repo.State())
    ensures !started ==> exists why :: Refusable(repo.h, old(repo.State()), target, why)
    ensures started ==>
              && IsRun(repo.h, trace, actions, committer, now)
              && exists out :: Started(repo.h, old(repo.State()), trace[0], out, target, committer, now)
    ensures finished ==>
              && repo.State() == trace[|trace| - 1] && repo.rebase.None? && Consistent(repo.h, repo.State())
              && Finished(old(repo.State()), trace, actions, repo.State(), target)
    ensures started && !finished ==>
              |trace| == |actions| + 1 && Aborted(repo.h, old(repo.State()), trace[|actions|], repo.State(), ok)
  {
    hide Loaded, InProgress, OnTrack, Grows, Hexadecimal, Started, Kept, Ready, Restored, Dirty, Completed,
         MatchesCommit, ResetTo, Consistent, Launched, Tracked, TodoLines, IsRebaseList, Resolve, PlainMessages,
         ReplayedAll, ReplayedList, Aborted, Underway, NoFileCollides, SameOtherRefs, ActsAs, Refusable, Gentle,
         GentleRun, IsRun, Faithful;
    ghost var r := repo.State();
    ok, trace := false, [];
    var result := Rebase(repo, target, committer, now);
    if result.Refused? {
      return false, false, false, [];
    }
    ghost var b, ids := StartedFrom(repo.h, r, repo.State(), result.outcome, target, committer, now);
    ghost var strict := Resolve(r, r.branches[target]) == r.branches[target];
    trace := [repo.State()];
    assert Started(repo.h, r, trace[0], result.outcome, target, committer, now);
    RunBegins(repo.h, repo.State(), actions, committer, now);
    if repo.rebase.None? {
      FinishedSession(repo.h, r, b, repo.State(), target, ids, strict);
      return true, true, false, trace;
    }
    BeginsUnderway(repo.h, r, b, repo.State(), target, ids, strict);
    for i := 0 to |actions|
      invariant Underway(repo.h, r, b, repo.State(), target, ids, strict)
      invariant |trace| == i + 1 && IsRun(repo.h, trace, actions, committer, now) && repo.State() == trace[i]
      invariant Started(repo.h, r, trace[0], result.outcome, target, committer, now)
      invariant strict <==> Resolve(r, r.branches[target]) == r.branches[target] && GentleRun(trace, actions)
    {
      ghost var s, strict0 := repo.State(), strict;
      UnderwayParts(repo.h, r, b, s, target, ids, strict);
      strict := Act(repo, actions[i], committer, now, strict, b);
      StaysUnderway(repo.h, r, b, s, repo.State(), target, ids, strict0, actions[i]);
      RunGrows(repo.h, trace, actions, repo.State(), committer, now);
      trace := trace + [repo.State()];
      assert Started(repo.h, r, trace[0], result.outcome, target, committer, now);
      if repo.rebase.None? {
        FinishedSession(repo.h, r, b, repo.State(), target, ids, strict);
        return true, true, false, trace;
      }
    }
    ghost var before := repo.State();
    UnderwayParts(repo.h, r, b, before, target, ids, strict);
    ok := RebaseAbort(repo);
    started, finished := true, false;
    AbortedSession(repo.h, r, b, before, repo.State(), target, ids, strict, ok);
  }

  lemma RunBegins(h: Hashing, r: Repo, actions: seq<Action>, committer: string, now: int)
    ensures IsRun(h, [r], actions, committer, now) && GentleRun([r], actions)
  {
    hide ActsAs, Gentle;
  }
}
