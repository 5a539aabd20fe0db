/**
 What a call of continue does, as a function of the repository: the replay loop line by line,
 and before it the commit of a pick whose conflicts were resolved.
 */
module ReplayMachine {
  import opened Wrappers
  import opened CommitGraph
  import opened TreeMerge
  import opened RebaseStateFiles
  import opened RepositoryModel
  import opened SequencerInvariant
  import Strings
  import CommitText

  datatype RunOutcome =
    | Done
    | Stopped(hash: Id)          // a pick clashed and the user has to resolve it
    | Unmerged                   // the user has not resolved it yet
    | NoRebase | BadTodo | UnknownCommit(hash: Id)
    | ResetFailed                // the start could not check out the target

  function HeadTree(r: Repo): Tree {
    match HeadOf(r)
    case None => map[]
    case Some(id) => TreeAt(r.objects, id)
  }

  /** The pick merged into index and working files: base is its parent, ours is HEAD. */
  ghost function PickMerged(r: Repo, pick: Id): Repo
    requires pick in r.objects.commits
  {
    Merged(r, BaseTree(r.objects, r.objects.commits[pick]), HeadTree(r), TreeAt(r.objects, pick))
  }

  ghost predicate PickConflicts(r: Repo, pick: Id)
    requires pick in r.objects.commits
  {
    Clashes(BaseTree(r.objects, r.objects.commits[pick]), HeadTree(r), TreeAt(r.objects, pick))
  }

  /** The loop from `state` on. */
  ghost function ReplayFrom(h: Hashing, r: Repo, state: RebaseState, committer: string, now: int): (Repo, RunOutcome)
    requires r.rebase.Some? && 0 <= state.currentStep
    decreases |state.todoSteps| - state.currentStep
  {
    if state.currentStep >= |state.todoSteps| then (r.(rebase := None), Done)
    else
      var next := state.(currentStep := state.currentStep + 1);
      match ReadStep(state.todoSteps[state.currentStep])
      case Skip => ReplayFrom(h, r, next, committer, now)
      case BadStep => (r, BadTodo)
      case Pick(hash) =>
        if hash !in r.objects.commits then (r, UnknownCommit(hash))
        else if PickConflicts(r, hash) then
          (PickMerged(r, hash).(rebase := Some(r.rebase.value[StoppedSha := hash])), Stopped(hash))
        else
          ReplayFrom(h, Stepped(h, PickMerged(r, hash), r.objects.commits[hash], committer, now, next), next,
                     committer, now)
  }

  /** The resolved pick is committed, and the saved step is the one after the saved one. */
  ghost function Resumed(h: Hashing, r: Repo, pick: Id, committer: string, now: int): Repo
    requires r.rebase.Some? && pick in r.objects.commits && 0 <= Loaded(r.rebase.value).currentStep
  {
    var st := Loaded(r.rebase.value);
    Stepped(h, r, r.objects.commits[pick], committer, now, st.(currentStep := st.currentStep + 1))
  }

  ghost function ContinueFrom(h: Hashing, r: Repo, committer: string, now: int): (Repo, RunOutcome)
    requires r.rebase.Some? && 0 <= Loaded(r.rebase.value).currentStep
  {
    var st := Loaded(r.rebase.value);
    if StoppedSha !in r.rebase.value then ReplayFrom(h, r, st, committer, now)
    else if !AllResolved(r.index) then (r, Unmerged)
    else
      var pick := Strings.Trim(r.rebase.value[StoppedSha]);
      if pick !in r.objects.commits then (r, UnknownCommit(pick))
      else
        ReplayFrom(h, Resumed(h, r, pick, committer, now), st.(currentStep := st.currentStep + 1), committer, now)
  }

  // ---------- One line of the loop ----------

  lemma ReplaySkips(h: Hashing, r: Repo, state: RebaseState, committer: string, now: int)
    requires r.rebase.Some? && 0 <= state.currentStep < |state.todoSteps|
    requires ReadStep(state.todoSteps[state.currentStep]) == Skip
    ensures ReplayFrom(h, r, state, committer, now)
         == ReplayFrom(h, r, state.(currentStep := state.currentStep + 1), committer, now)
  {
    hide ReadStep;
  }

  lemma ReplayEnds(h: Hashing, r: Repo, state: RebaseState, committer: string, now: int)
    requires r.rebase.Some? && 0 <= state.currentStep
    ensures state.currentStep >= |state.todoSteps| ==>
              ReplayFrom(h, r, state, committer, now) == (r.(rebase := None), Done)
    ensures state.currentStep < |state.todoSteps| && ReadStep(state.todoSteps[state.currentStep]) == BadStep ==>
              ReplayFrom(h, r, state, committer, now) == (r, BadTodo)
    ensures state.currentStep < |state.todoSteps| ==>
              match ReadStep(state.todoSteps[state.currentStep])
              case Pick(hash) => hash !in r.objects.commits ==>
                ReplayFrom(h, r, state, committer, now) == (r, UnknownCommit(hash))
              case _ => true
  {
    hide ReadStep;
  }

  /** A pick does what any plan for its three trees says. */
  lemma ReplayPlanned(h: Hashing, r: Repo, state: RebaseState, plan: MergePlan, pick: Id, committer: string, now: int)
    requires r.rebase.Some? && 0 <= state.currentStep < |state.todoSteps| && HeadOf(r).Some?
    requires ReadStep(state.todoSteps[state.currentStep]) == Pick(pick) && pick in r.objects.commits
    requires var o := r.objects;
             Implements(plan, BaseTree(o, o.commits[pick]), TreeAt(o, HeadOf(r).value), TreeAt(o, pick))
    ensures Applied(r, plan) == PickMerged(r, pick) && Applied(r, plan).rebase == r.rebase
    ensures plan.conflicts == map[] <==> !PickConflicts(r, pick)
    ensures var next := state.(currentStep := state.currentStep + 1);
            ReplayFrom(h, r, state, committer, now)
            == if plan.conflicts != map[] then (PausedAt(r, plan, pick), Stopped(pick))
               else ReplayFrom(h, Stepped(h, Applied(r, plan), r.objects.commits[pick], committer, now, next), next,
                               committer, now)
  {
    hide ReadStep, Merged, Applied, Implements, Clashes, BaseTree, TreeAt, Stepped;
    var o := r.objects;
    AppliedIsMerged(r, plan, BaseTree(o, o.commits[pick]), TreeAt(o, HeadOf(r).value), TreeAt(o, pick));
    ConflictsAreClashes(plan, BaseTree(o, o.commits[pick]), TreeAt(o, HeadOf(r).value), TreeAt(o, pick));
    AppliedRest(r, plan);
  }

  /** Skipped lines make no difference: the loop goes on at the next line that is none. */
  lemma {:induction false} ReplayAtNextPick(h: Hashing, r: Repo, state: RebaseState, committer: string, now: int)
    requires r.rebase.Some? && 0 <= state.currentStep <= |state.todoSteps|
    ensures ReplayFrom(h, r, state, committer, now)
         == ReplayFrom(h, r, state.(currentStep := NextPick(state.todoSteps, state.currentStep)), committer, now)
    decreases |state.todoSteps| - state.currentStep
  {
    hide ReplayFrom, ReadStep;
    if state.currentStep < |state.todoSteps| && ReadStep(state.todoSteps[state.currentStep]) == Skip {
      ReplaySkips(h, r, state, committer, now);
      ReplayAtNextPick(h, r, state.(currentStep := state.currentStep + 1), committer, now);
    }
  }

  /** A line that is neither a pick nor skipped stops the rebase for good: no call of continue changes anything. */
  lemma BadLineStops(h: Hashing, r: Repo, committer: string, now: int)
    requires NextIs(r, BadStep) && !Paused(r)
    ensures r.rebase.Some? && 0 <= Loaded(r.rebase.value).currentStep
    ensures ContinueFrom(h, r, committer, now) == (r, BadTodo)
  {
    hide Loaded, ReadStep, ReplayFrom, NextPick;
    var st := Loaded(r.rebase.value);
    ReplayAtNextPick(h, r, st, committer, now);
    ReplayEnds(h, r, st.(currentStep := NextPick(st.todoSteps, st.currentStep)), committer, now);
  }

  // ---------- Resuming after a pause ----------

  /** A paused rebase whose conflicts are resolved, with the marker on the next pick of the list. */
  ghost predicate Resumable(h: Hashing, r: Repo, pick: Id) {
    && InProgress(h, r) && Paused(r) && AllResolved(r.index)
    && pick == Strings.Trim(r.rebase.value[StoppedSha]) && PickClashes(r.objects, HeadOf(r).value, pick)
    && NextIs(r, Pick(pick))
  }

  lemma ResumableFacts(h: Hashing, r: Repo, pick: Id)
    requires Resumable(h, r, pick)
    ensures r.rebase.Some? && StoppedSha in r.rebase.value && HeadOf(r).Some? && pick in r.objects.commits
    ensures var st := Loaded(r.rebase.value);
            && 0 <= st.currentStep < |st.todoSteps|
            && NextPick(st.todoSteps, st.currentStep) < |st.todoSteps|
            && ReadStep(st.todoSteps[NextPick(st.todoSteps, st.currentStep)]) == Pick(pick)
  {
    hide Loaded, StoreOk, ReadStep, Clashes, NextPick;
  }

  /**
   Skipped lines are not saved, so a pause remembers the step before them.  Resuming commits the
   pick, advances by one, and goes on at the next line that is not skipped: this is the line of
   the committed pick once more exactly if the line at the saved step is a skipped one.
   */
  lemma ResumeRepeatsPick(h: Hashing, r: Repo, pick: Id, committer: string, now: int)
    requires Resumable(h, r, pick)
    ensures r.rebase.Some? && pick in r.objects.commits
    ensures var st := Loaded(r.rebase.value);
            && 0 <= st.currentStep < |st.todoSteps|
            && var j := NextPick(st.todoSteps, st.currentStep + 1);
               && ContinueFrom(h, r, committer, now)
                  == ReplayFrom(h, Resumed(h, r, pick, committer, now), st.(currentStep := j), committer, now)
               && (j == NextPick(st.todoSteps, st.currentStep) <==> ReadStep(st.todoSteps[st.currentStep]) == Skip)
  {
    hide Loaded, ReplayFrom, Resumed, NextPick, ReadStep, StoreOk, InProgress, PickClashes;
    ResumableFacts(h, r, pick);
    ResumedRuns(h, r, pick, committer, now);
    var st := Loaded(r.rebase.value);
    ReplayAtNextPick(h, Resumed(h, r, pick, committer, now), st.(currentStep := st.currentStep + 1), committer, now);
    SameNextPick(st.todoSteps, st.currentStep);
  }

  lemma ResumedRuns(h: Hashing, r: Repo, pick: Id, committer: string, now: int)
    requires r.rebase.Some? && pick in r.objects.commits && 0 <= Loaded(r.rebase.value).currentStep
    ensures var m := Resumed(h, r, pick, committer, now); m.rebase.Some? && m.index == r.index && m.branch == r.branch
  {
    hide Loaded, Saved, PutTree, PutCommit;
    CommittedRest(h, r, r.objects.commits[pick], committer, now);
  }

  /** Where a resumed rebase stands. */
  lemma ResumedReplays(h: Hashing, r: Repo, pick: Id, committer: string, now: int)
    requires Hexadecimal(h) && Resumable(h, r, pick)
    ensures r.rebase.Some? && pick in r.objects.commits && HeadOf(r).Some? && 0 <= Loaded(r.rebase.value).currentStep
    ensures var m := Resumed(h, r, pick, committer, now);
            && Looping(h, m, Loaded(r.rebase.value).(currentStep := Loaded(r.rebase.value).currentStep + 1))
            && Grows(r, m) && HeadOf(m).Some? && pick in m.objects.commits
            && (m.collision.None? ==>
                  && Replays(m.objects, HeadOf(m).value, HeadOf(r).value, pick)
                  && m.index == Entries(HeadTree(m)))
  {
    hide Loaded, StoreOk, Hexadecimal, ReadStep, NextPick, Clashes, Committed, Saved, BaseTree, TreeAt, TreeOf,
         TreeOk, IsCollision, Extends, Replays;
    ResumableFacts(h, r, pick);
    InProgressStore(h, r);
    ResumeKeeps(h, r, pick, committer, now);
    var m := Resumed(h, r, pick, committer, now);
    GrowsCommits(r, m, pick);
    if m.collision.None? {
      IndexTreeOk(r.objects, r.index);
      CommitReplays(h, r, r, pick, committer, now);
      CommittedIndex(h, r, r.objects.commits[pick], committer, now);
      CommittedRest(h, r, r.objects.commits[pick], committer, now);
    }
  }

  lemma GrowsCommits(r: Repo, r': Repo, id: Id)
    requires Grows(r, r') && id in r.objects.commits
    ensures id in r'.objects.commits && r'.objects.commits[id] == r.objects.commits[id]
  {
  }

  /** A pick without conflicts, replayed by the loop. */
  lemma PickReplays(h: Hashing, r: Repo, state: RebaseState, pick: Id, committer: string, now: int)
    requires Hexadecimal(h) && InProgress(h, r) && HeadOf(r).Some? && pick in r.objects.commits
    requires 0 <= state.currentStep
    requires r.rebase.Some? && !PickConflicts(r, pick)
    ensures PickMerged(r, pick).rebase == r.rebase
    ensures var r' := Stepped(h, PickMerged(r, pick), r.objects.commits[pick], committer, now, state);
            && (r.collision.Some? ==> r'.collision.Some?)
            && (r'.collision.None? && r.index == Entries(HeadTree(r)) ==>
                  && Extends(r.objects, r'.objects)
                  && HeadOf(r').Some? && Replays(r'.objects, HeadOf(r').value, HeadOf(r).value, pick))
  {
    hide Loaded, StoreOk, Hexadecimal, Clashes, Committed, Saved, BaseTree, TreeAt, TreeOf, TreeOk, IsCollision,
         Replays, Implements, Applied, Merged, Extends, Entries;
    var o, original := r.objects, r.objects.commits[pick];
    var base, ours, theirs := BaseTree(o, original), HeadTree(r), TreeAt(o, pick);
    InProgressStore(h, r);
    BaseTreeOk(h, o, original);
    TreeAtOk(h, o, HeadOf(r).value);
    TreeAtOk(h, o, pick);
    PlanExists(base, ours, theirs);
    var plan :| Implements(plan, base, ours, theirs);
    AppliedIsMerged(r, plan, base, ours, theirs);
    AppliedRest(r, plan);
    AppliedConsistent(h, r, plan, base, ours, theirs);
    var s := PickMerged(r, pick);
    CollisionSticks(h, s, original, committer, now);
    if Committed(h, s, original, committer, now).collision.None? && r.index == Entries(ours) {
      EntriesTree(ours);
      ApplyMergesClean(r, plan, base, ours, theirs);
      EntriesTree(MergedTree(base, ours, theirs));
      CommitReplays(h, r, s, pick, committer, now);
      CommittedConsistent(h, s, original, committer, now);
    }
  }

  /** The fields of a commit that its object is read for. */
  function FieldsOf(c: Commit): CommitText.CommitFields {
    CommitText.CommitFields(c.tree, c.parents, c.authorName, c.authorEmail, c.authorTime, c.message)
  }

  /**
   A replayed commit is read from its object with the tree, the parent, and the authorship and
   message of the original, exactly if these survive: in particular if the original was read from
   an object that has an author line with its brackets in order and a time.
   */
  lemma ReplayReadsBack(h: Hashing, r: Repo, original: Commit, committer: string, now: int, clock: CommitText.Clock)
    requires var fields := FieldsOf(ReplayCommit(h, r, original, committer, now));
             CommitText.Writable(fields, committer, clock)
    ensures var fields := FieldsOf(ReplayCommit(h, r, original, committer, now));
            var text := CommitText.TextOf(CommitText.OptionsFor(fields, committer, CommitText.ZERO_TIME), clock);
            && fields.authorName == original.authorName && fields.authorEmail == original.authorEmail
            && fields.authorTime == original.authorTime && fields.message == original.message
            && (CommitText.Parsed(text) == fields <==> CommitText.Survives(FieldsOf(original), clock.now))
  {
    hide CommitText.Parsed, CommitText.TextOf, CommitText.OptionsFor, CommitText.Writable, CommitText.Signable;
    var fields := FieldsOf(ReplayCommit(h, r, original, committer, now));
    CommitText.CommitRoundTrip(fields, committer, CommitText.ZERO_TIME, clock);
  }

  lemma CollisionSticks(h: Hashing, s: Repo, original: Commit, committer: string, now: int)
    ensures s.collision.Some? ==> Committed(h, s, original, committer, now).collision == s.collision
  {
  }

  /**
   If the line was skipped and the repeated pick does not clash with its own resolution, HEAD
   ends up with two replays of it, one on the other.
   */
  lemma PickedTwice(h: Hashing, r: Repo, pick: Id, committer: string, now: int)
    requires Hexadecimal(h) && Resumable(h, r, pick)
    requires ReadStep(Loaded(r.rebase.value).todoSteps[Loaded(r.rebase.value).currentStep]) == Skip
    requires pick in Resumed(h, r, pick, committer, now).objects.commits
    requires !PickConflicts(Resumed(h, r, pick, committer, now), pick)
    ensures var st, m := Loaded(r.rebase.value), Resumed(h, r, pick, committer, now);
            && 0 <= st.currentStep && PickMerged(m, pick).rebase.Some?
            && var next := st.(currentStep := NextPick(st.todoSteps, st.currentStep) + 1);
               var r' := Stepped(h, PickMerged(m, pick), m.objects.commits[pick], committer, now, next);
               && ContinueFrom(h, r, committer, now) == ReplayFrom(h, r', next, committer, now)
               && (r'.collision.None? ==>
                     && HeadOf(m).Some? && HeadOf(r').Some?
                     && Replays(r'.objects, HeadOf(m).value, HeadOf(r).value, pick)
                     && Replays(r'.objects, HeadOf(r').value, HeadOf(m).value, pick))
  {
    hide Loaded, StoreOk, Hexadecimal, ReadStep, NextPick, Resumed, PickMerged, PickConflicts, Resumable, Stepped,
         ReplayFrom, ContinueFrom, Replays, InProgress, Entries, Extends;
    ResumableFacts(h, r, pick);
    ResumeRepeatsPick(h, r, pick, committer, now);
    ResumedReplays(h, r, pick, committer, now);
    var st, m := Loaded(r.rebase.value), Resumed(h, r, pick, committer, now);
    LoopingFacts(h, m, st.(currentStep := st.currentStep + 1));
    var j := NextPick(st.todoSteps, st.currentStep);
    var next := st.(currentStep := j + 1);
    PickReplays(h, m, next, pick, committer, now);
    ReplayTakes(h, m, st.(currentStep := j), pick, committer, now);
    var r' := Stepped(h, PickMerged(m, pick), m.objects.commits[pick], committer, now, next);
    if r'.collision.None? {
      ExtendsReplays(h, m.objects, r'.objects, HeadOf(m).value, HeadOf(r).value, pick);
    }
  }

  lemma LoopingFacts(h: Hashing, r: Repo, state: RebaseState)
    requires Looping(h, r, state)
    ensures InProgress(h, r) && r.rebase.Some? && StoreOk(h, r.objects) && ParentsKnown(r.objects)
  {
    hide Loaded;
  }

  lemma ReplayTakes(h: Hashing, r: Repo, state: RebaseState, pick: Id, committer: string, now: int)
    requires r.rebase.Some? && 0 <= state.currentStep < |state.todoSteps| && pick in r.objects.commits
    requires PickMerged(r, pick).rebase.Some?
    requires ReadStep(state.todoSteps[state.currentStep]) == Pick(pick) && !PickConflicts(r, pick)
    ensures var next := state.(currentStep := state.currentStep + 1);
            ReplayFrom(h, r, state, committer, now)
            == ReplayFrom(h, Stepped(h, PickMerged(r, pick), r.objects.commits[pick], committer, now, next), next,
                          committer, now)
  {
    hide ReadStep, PickMerged, PickConflicts, Stepped;
  }
}
