/** The rebase sequencer's state, the text files it is kept in, and the progress through its list. */
module RebaseStateFiles {
  import opened Strings
  import Lines

  /** The files of the rebase-merge directory. */
  datatype FileName = HeadName | Onto | OrigHead | GitRebaseTodo | MsgNum | Message | StoppedSha

  type Files = map<FileName, string>

  datatype RebaseState = RebaseState(
    headName: string,
    onto: string,
    origHead: string,
    todoSteps: seq<string>,
    currentStep: int,
    message: string)

  // ---------- Saving and loading ----------

  function Read(files: Files, name: FileName): string {
    if name in files then Trim(files[name]) else ""
  }

  method SaveRebaseState(state: RebaseState, files: Files) returns (r: Files)
    requires 0 <= state.currentStep
    ensures r == Saved(state, files)
  {
    r := files;
    r := r[HeadName := state.headName];
    r := r[Onto := state.onto];
    r := r[OrigHead := state.origHead];
    r := r[GitRebaseTodo := Lines.Join(state.todoSteps, '\n')];
    r := r[MsgNum := Decimal(state.currentStep + 1)];
    r := r[Message := state.message];
  }

  /** The files after a save; others, such as the pause marker, stay as they are. */
  function Saved(state: RebaseState, files: Files): Files
    requires 0 <= state.currentStep
  {
    files + map[
      HeadName := state.headName,
      Onto := state.onto,
      OrigHead := state.origHead,
      GitRebaseTodo := Lines.Join(state.todoSteps, '\n'),
      MsgNum := Decimal(state.currentStep + 1),
      Message := state.message]
  }

  /** Loading never fails: unreadable files count as empty. */
  function Loaded(files: Files): RebaseState {
    var step := Atoi(Read(files, MsgNum));
    RebaseState(
      Read(files, HeadName),
      Read(files, Onto),
      Read(files, OrigHead),
      Lines.Split(Read(files, GitRebaseTodo), '\n'),
      if step > 0 then step - 1 else step,
      Read(files, Message))
  }

  /** What text files that are trimmed when read can hold. */
  predicate Storable(state: RebaseState) {
    && 0 <= state.currentStep
    && IsTrimmed(state.headName) && IsTrimmed(state.onto) && IsTrimmed(state.origHead) && IsTrimmed(state.message)
    && state.todoSteps != [] && (forall i :: 0 <= i < |state.todoSteps| ==> '\n' !in state.todoSteps[i])
    && IsTrimmed(Lines.Join(state.todoSteps, '\n'))
  }

  /** A state survives saving and loading exactly if it is storable. */
  lemma SaveLoadRoundTrip(state: RebaseState, files: Files)
    requires 0 <= state.currentStep
    ensures Loaded(Saved(state, files)) == state <==> Storable(state)
  {
    hide Trim, IsTrimmed, Lines.Split, Lines.Join, Atoi, Decimal;
    var todo := Lines.Join(state.todoSteps, '\n');
    AtoiDecimal(state.currentStep + 1);
    LoadedAfterSave(state, files);
    TrimFixpoint(state.headName);
    TrimFixpoint(state.onto);
    TrimFixpoint(state.origHead);
    TrimFixpoint(state.message);
    TrimFixpoint(todo);
    TodoRoundTrip(state.todoSteps);
  }

  lemma LoadedAfterSave(state: RebaseState, files: Files)
    requires 0 <= state.currentStep
    ensures Loaded(Saved(state, files)) == RebaseState(
              Trim(state.headName), Trim(state.onto), Trim(state.origHead),
              Lines.Split(Trim(Lines.Join(state.todoSteps, '\n')), '\n'),
              state.currentStep, Trim(state.message))
  {
    hide Trim, IsTrimmed, Lines.Split, Lines.Join, Atoi, Decimal;
    AtoiDecimal(state.currentStep + 1);
    TrimFixpoint(Decimal(state.currentStep + 1));
  }

  /** The todo list survives exactly if it is not empty, has one-line entries and trimmed ends. */
  lemma TodoRoundTrip(todo: seq<string>)
    ensures Lines.Split(Trim(Lines.Join(todo, '\n')), '\n') == todo
       <==> todo != [] && (forall i :: 0 <= i < |todo| ==> '\n' !in todo[i]) && IsTrimmed(Lines.Join(todo, '\n'))
  {
    hide TrimLeft, TrimRight, Lines.Split, Lines.Join;
    var text := Lines.Join(todo, '\n');
    Lines.JoinSplit(Trim(text), '\n');
    if todo != [] && forall i :: 0 <= i < |todo| ==> '\n' !in todo[i] {
      Lines.SplitJoin(todo, '\n');
    }
  }

  /** Whatever the files hold, what was loaded can be saved and loaded again unchanged. */
  lemma LoadedIsStorable(files: Files)
    requires 0 <= Loaded(files).currentStep
    ensures Storable(Loaded(files))
  {
    Lines.JoinSplit(Read(files, GitRebaseTodo), '\n');
  }

  /** The files, one by one: the step is written as the number of the next line, counted from one. */
  lemma SavedFiles(state: RebaseState, files: Files)
    requires 0 <= state.currentStep
    ensures var r := Saved(state, files);
            && HeadName in r && r[HeadName] == state.headName && Onto in r && r[Onto] == state.onto
            && OrigHead in r && r[OrigHead] == state.origHead && Message in r && r[Message] == state.message
            && GitRebaseTodo in r && r[GitRebaseTodo] == Lines.Join(state.todoSteps, '\n')
            && MsgNum in r && SpellsDecimal(r[MsgNum], state.currentStep + 1)
            && (StoppedSha in r <==> StoppedSha in files) && (StoppedSha in r ==> r[StoppedSha] == files[StoppedSha])
  {
    hide SpellsDecimal, Lines.Join;
    DecimalSpells(state.currentStep + 1);
  }

  /** A file with this text around which there may be white space; without text it may be missing. */
  ghost predicate Holds(files: Files, name: FileName, text: string) {
    if name !in files then text == ""
    else
      IsTrimmed(text) && exists left, right :: files[name] == left + text + right && AllSpace(left) && AllSpace(right)
  }

  lemma HoldsIsRead(files: Files, name: FileName, text: string)
    requires Holds(files, name, text)
    ensures Read(files, name) == text
  {
    hide IsTrimmed, AllSpace, Trim;
    if name in files {
      var left, right :| files[name] == left + text + right && AllSpace(left) && AllSpace(right);
      TrimMeans(files[name], left, text, right);
    }
  }

  /** What any files are loaded as, whoever wrote them; a step that is no number, or none above zero, is no line. */
  lemma LoadedFiles(files: Files, state: RebaseState, todo: string, sign: string, digits: string)
    requires Holds(files, HeadName, state.headName) && Holds(files, Onto, state.onto)
    requires Holds(files, OrigHead, state.origHead) && Holds(files, Message, state.message)
    requires Holds(files, GitRebaseTodo, todo) && state.todoSteps == Lines.Split(todo, '\n')
    requires Holds(files, MsgNum, sign + digits)
    requires sign == "+" || sign == "-" || (sign == "" && (digits == "" || (digits[0] != '+' && digits[0] != '-')))
    requires var n := if digits == "" || exists i :: 0 <= i < |digits| && !('0' <= digits[i] <= '9') then 0
                      else if sign == "-" then 0 - DigitSum(digits)
                      else DigitSum(digits);
             state.currentStep == if n > 0 then n - 1 else n
    ensures Loaded(files) == state
  {
    hide Holds, Read, Lines.Split, Atoi, DigitSum;
    HoldsIsRead(files, HeadName, state.headName);
    HoldsIsRead(files, Onto, state.onto);
    HoldsIsRead(files, OrigHead, state.origHead);
    HoldsIsRead(files, Message, state.message);
    HoldsIsRead(files, GitRebaseTodo, todo);
    HoldsIsRead(files, MsgNum, sign + digits);
    AtoiReads(sign, digits);
  }

  // ---------- Todo lines ----------

  datatype Step = Skip | Pick(hash: string) | BadStep

  /** How the replay loop reads a todo line. */
  function ReadStep(line: string): Step {
    var s := Trim(line);
    if s == "" || HasPrefix(s, "#") then Skip
    else
      match CutAt(s, ' ')
      case Whole => BadStep
      case Parts(action, rest) =>
        if action != "pick" && action != "p" then BadStep
        else Pick(match CutAt(rest, ' ') case Whole => rest case Parts(hash, _) => hash)
  }

  /** The line written for a commit. */
  function PickLine(hash: string, message: string): string {
    "pick " + hash + " " + message
  }

  /**
   What any line means: nothing if it is blank or begins with `#`; a pick of its second word if the
   first one is `pick` or `p`; and otherwise an error.
   */
  lemma StepReads(line: string, left: string, text: string, right: string, hash: string, more: string)
    requires line == left + text + right && AllSpace(left) && AllSpace(right) && IsTrimmed(text)
    requires ' ' !in hash && (more == "" || more[0] == ' ')
    ensures text == "" || text[0] == '#' ==> ReadStep(line) == Skip
    ensures text == "pick " + hash + more || text == "p " + hash + more ==> ReadStep(line) == Pick(hash)
    ensures text != "" && text[0] != '#' && !("pick " <= text) && !("p " <= text) ==> ReadStep(line) == BadStep
  {
    hide Trim, ReadStep, IsTrimmed, AllSpace;
    TrimMeans(line, left, text, right);
    TextReads(line, hash, more);
  }

  lemma TextReads(line: string, hash: string, more: string)
    requires ' ' !in hash && (more == "" || more[0] == ' ')
    ensures var text := Trim(line);
            && (text == "" || text[0] == '#' ==> ReadStep(line) == Skip)
            && (text == "pick " + hash + more || text == "p " + hash + more ==> ReadStep(line) == Pick(hash))
            && (text != "" && text[0] != '#' && !("pick " <= text) && !("p " <= text) ==> ReadStep(line) == BadStep)
  {
    hide Trim, CutAt;
    var text := Trim(line);
    if text == "pick " + hash + more {
      assert text[0] == 'p';
      PickReads("pick", text, hash, more);
    } else if text == "p " + hash + more {
      assert text[0] == 'p';
      PickReads("p", text, hash, more);
    } else if text != "" && text[0] != '#' && CutAt(text, ' ').Parts? {
      ActionBefore(text, CutAt(text, ' ').before, CutAt(text, ' ').after);
    }
  }

  lemma PickReads(action: string, text: string, hash: string, more: string)
    requires ' ' !in action && ' ' !in hash && text == action + " " + hash + more && (more == "" || more[0] == ' ')
    ensures CutAt(text, ' ') == Parts(action, hash + more)
    ensures more == "" ==> CutAt(hash + more, ' ') == Whole
    ensures more != "" ==> CutAt(hash + more, ' ') == Parts(hash, more[1..])
  {
    hide CutAt;
    CutFirst(action, ' ', hash + more);
    assert text == action + [' '] + (hash + more);
    if more == "" {
      assert hash + more == hash;
      NoSeparator(hash, ' ');
    } else {
      CutFirst(hash, ' ', more[1..]);
      assert hash + more == hash + [' '] + more[1..];
    }
  }

  lemma ActionBefore(text: string, action: string, rest: string)
    requires text == action + [' '] + rest
    ensures action == "pick" ==> "pick " <= text
    ensures action == "p" ==> "p " <= text
  {
  }

  predicate IsHash(s: string) {
    s != "" && forall i :: 0 <= i < |s| ==> IsHexDigit(s[i])
  }

  predicate IsHexDigit(c: char) {
    '0' <= c <= '9' || 'a' <= c <= 'f'
  }

  /** A written line, as the loop trims it. */
  lemma PickLineTrimmed(hash: string, message: string)
    requires IsHash(hash)
    ensures PickLine(hash, message) == ("pick" + [' '] + hash) + (" " + message)
    ensures Trim(PickLine(hash, message)) == "pick" + [' '] + (hash + TrimRight(" " + message))
  {
    hide TrimRight;
    var front := "pick" + [' '] + hash;
    assert IsHexDigit(hash[|hash| - 1]) && front[|front| - 1] == hash[|hash| - 1];
    TrimFrom(front, " " + message);
    assert front + TrimRight(" " + message) == "pick" + [' '] + (hash + TrimRight(" " + message));
  }

  /** A written line is read back as a pick of its commit, whatever the message. */
  lemma ReadPickLine(hash: string, message: string)
    requires IsHash(hash)
    ensures ReadStep(PickLine(hash, message)) == Pick(hash)
  {
    hide CutAt, Trim, TrimRight, IsSpace, PickLine;
    var tail := TrimRight(" " + message);
    PickLineTrimmed(hash, message);
    NoSpaceInHash(hash);
    CutFirst("pick", ' ', hash + tail);
    if tail == [] {
      assert hash + tail == hash;
      NoSeparator(hash, ' ');
    } else {
      TrimRightIsPrefix(" " + message);
      assert hash + tail == hash + [' '] + tail[1..];
      CutFirst(hash, ' ', tail[1..]);
    }
  }

  lemma NoSeparator(s: string, c: char)
    requires c !in s
    ensures CutAt(s, c) == Whole
  {
  }

  lemma TrimRightIsPrefix(s: string)
    ensures TrimRight(s) <= s
  {
  }

  lemma NoSpaceInHash(hash: string)
    requires IsHash(hash)
    ensures ' ' !in hash
  {
    forall i | 0 <= i < |hash|
      ensures hash[i] != ' '
    {
      assert IsHexDigit(hash[i]);
    }
  }

  /** The step at which the loop stops skipping blank and comment lines. */
  function NextPick(todo: seq<string>, i: nat): (j: nat)
    requires i <= |todo|
    ensures i <= j <= |todo|
    decreases |todo| - i
  {
    if i < |todo| && ReadStep(todo[i]) == Skip then NextPick(todo, i + 1) else i
  }

  /** Everything before it is skipped, and the line itself is not. */
  lemma {:induction false} NextPickSkips(todo: seq<string>, i: nat)
    requires i <= |todo|
    ensures NextPick(todo, i) < |todo| ==> ReadStep(todo[NextPick(todo, i)]) != Skip
    ensures forall k :: i <= k < NextPick(todo, i) ==> ReadStep(todo[k]) == Skip
    decreases |todo| - i
  {
    hide ReadStep;
    if i < |todo| && ReadStep(todo[i]) == Skip {
      NextPickSkips(todo, i + 1);
    }
  }

  /** One step further on, the same line is next exactly if the step in between is skipped. */
  lemma SameNextPick(todo: seq<string>, i: nat)
    requires i < |todo| && NextPick(todo, i) < |todo|
    ensures NextPick(todo, i + 1) == NextPick(todo, i) <==> ReadStep(todo[i]) == Skip
  {
    if ReadStep(todo[i]) != Skip {
      assert NextPick(todo, i) == i;
    }
  }

  lemma {:induction false} NextPickIs(todo: seq<string>, i: nat, j: nat)
    requires i <= j < |todo| && ReadStep(todo[j]) != Skip && forall k :: i <= k < j ==> ReadStep(todo[k]) == Skip
    ensures NextPick(todo, i) == j
    decreases j - i
  {
    hide ReadStep;
    if i < j {
      NextPickIs(todo, i + 1, j);
    }
  }

  lemma {:induction false} NoNextPick(todo: seq<string>, i: nat)
    requires i <= |todo| && forall k :: i <= k < |todo| ==> ReadStep(todo[k]) == Skip
    ensures NextPick(todo, i) == |todo|
    decreases |todo| - i
  {
    hide ReadStep;
    if i < |todo| {
      NoNextPick(todo, i + 1);
    }
  }

  // ---------- What was picked on the way through a list ----------

  /** How many lines at the end are skipped ones. */
  function SkipsAtEnd(todo: seq<string>): nat {
    if todo != [] && ReadStep(todo[|todo| - 1]) == Skip then SkipsAtEnd(todo[..|todo| - 1]) + 1 else 0
  }

  /** The picks without the last `n`. */
  function Without(picks: seq<string>, n: nat): seq<string> {
    if n <= |picks| then picks[..|picks| - n] else []
  }

  ghost predicate EndsIn(picks: seq<string>, n: nat, pick: string) {
    n <= |picks| && forall i :: |picks| - n <= i < |picks| ==> picks[i] == pick
  }

  lemma WithoutNone(picks: seq<string>)
    ensures Without(picks, 0) == picks
  {
  }

  lemma PickOnceMore(picks: seq<string>, n: nat, pick: string)
    requires n <= |picks| && (n > 0 ==> EndsIn(picks, n, pick))
    ensures EndsIn(picks + [pick], n + 1, pick) && Without(picks + [pick], n + 1) == Without(picks, n)
  {
  }

  /**
   The picks follow the list: each line that is a pick was picked, in order, once, or up to
   `k + 1` times if `k` skipped lines are right before it.  No line is a bad one.
   */
  ghost predicate Follows(picks: seq<string>, todo: seq<string>)
    decreases |todo|
  {
    if todo == [] then picks == []
    else
      var init := todo[..|todo| - 1];
      match ReadStep(todo[|todo| - 1])
      case Skip => Follows(picks, init)
      case BadStep => false
      case Pick(pick) =>
        exists n: nat :: 1 <= n <= SkipsAtEnd(init) + 1 && EndsIn(picks, n, pick) && Follows(Without(picks, n), init)
  }

  /** The picks follow the first lines, and the last `n` of them are of the next pick, which is still to come. */
  ghost predicate FollowsAhead(picks: seq<string>, todo: seq<string>, step: nat, n: nat) {
    && step <= |todo| && n <= |picks| && n <= SkipsAtEnd(todo[..step]) && Follows(Without(picks, n), todo[..step])
    && (n > 0 ==>
          && NextPick(todo, step) < |todo| && ReadStep(todo[NextPick(todo, step)]).Pick?
          && EndsIn(picks, n, ReadStep(todo[NextPick(todo, step)]).hash))
  }

  /** What can have been picked when `step` lines are done. */
  ghost predicate Reached(picks: seq<string>, todo: seq<string>, step: nat) {
    exists n: nat :: FollowsAhead(picks, todo, step, n)
  }

  lemma ReachedStart(todo: seq<string>)
    ensures Reached([], todo, 0)
  {
    assert FollowsAhead([], todo, 0, 0);
  }

  lemma ReachedNothing(picks: seq<string>, todo: seq<string>)
    requires Reached(picks, todo, 0)
    ensures picks == []
  {
    var n: nat :| FollowsAhead(picks, todo, 0, n);
    assert todo[..0] == [] && n == 0;
  }

  lemma OneLineMore(todo: seq<string>, j: nat)
    requires j < |todo|
    ensures todo[..j + 1][..j] == todo[..j] && todo[..j + 1][j] == todo[j] && |todo[..j + 1]| == j + 1
  {
  }

  lemma FollowsSkip(picks: seq<string>, todo: seq<string>, j: nat)
    requires j < |todo| && ReadStep(todo[j]) == Skip && Follows(picks, todo[..j])
    ensures Follows(picks, todo[..j + 1]) && SkipsAtEnd(todo[..j + 1]) == SkipsAtEnd(todo[..j]) + 1
  {
    hide ReadStep;
    OneLineMore(todo, j);
  }

  lemma FollowsPick(picks: seq<string>, todo: seq<string>, j: nat, n: nat, pick: string)
    requires j < |todo| && ReadStep(todo[j]) == Pick(pick)
    requires 1 <= n <= SkipsAtEnd(todo[..j]) + 1 && EndsIn(picks, n, pick) && Follows(Without(picks, n), todo[..j])
    ensures Follows(picks, todo[..j + 1])
  {
    hide ReadStep, Without, EndsIn, SkipsAtEnd;
    OneLineMore(todo, j);
  }

  /** Skipped lines change nothing. */
  lemma {:induction false} FollowsSkips(picks: seq<string>, todo: seq<string>, i: nat, j: nat)
    requires i <= j <= |todo| && (forall k :: i <= k < j ==> ReadStep(todo[k]) == Skip) && Follows(picks, todo[..i])
    ensures Follows(picks, todo[..j]) && SkipsAtEnd(todo[..j]) == SkipsAtEnd(todo[..i]) + (j - i)
    decreases j - i
  {
    hide ReadStep, Follows, SkipsAtEnd;
    if i < j {
      FollowsSkips(picks, todo, i, j - 1);
      FollowsSkip(picks, todo, j - 1);
    }
  }

  /** One more pick of the next line, behind lines that are skipped: then this line is done. */
  lemma ReachedPick(picks: seq<string>, todo: seq<string>, i: nat, j: nat, pick: string)
    requires Reached(picks, todo, i) && i <= j < |todo| && ReadStep(todo[j]) == Pick(pick)
    requires forall k :: i <= k < j ==> ReadStep(todo[k]) == Skip
    ensures Follows(picks + [pick], todo[..j + 1]) && Reached(picks + [pick], todo, j + 1)
  {
    hide ReadStep, NextPick, Follows, Without, EndsIn, SkipsAtEnd;
    var n: nat :| FollowsAhead(picks, todo, i, n);
    NextPickIs(todo, i, j);
    FollowsSkips(Without(picks, n), todo, i, j);
    PickOnceMore(picks, n, pick);
    FollowsPick(picks + [pick], todo, j, n + 1, pick);
    WithoutNone(picks + [pick]);
    assert FollowsAhead(picks + [pick], todo, j + 1, 0);
  }

  /** A pick that is taken for the skipped line before it: this is done then, and the pick is still to come. */
  lemma ReachedSkip(picks: seq<string>, todo: seq<string>, i: nat, pick: string)
    requires Reached(picks, todo, i) && i < |todo| && ReadStep(todo[i]) == Skip
    requires NextPick(todo, i) < |todo| && ReadStep(todo[NextPick(todo, i)]) == Pick(pick)
    ensures Reached(picks + [pick], todo, i + 1)
  {
    hide ReadStep, NextPick, Follows, Without, EndsIn, SkipsAtEnd;
    var n: nat :| FollowsAhead(picks, todo, i, n);
    FollowsSkip(Without(picks, n), todo, i);
    SameNextPick(todo, i);
    PickOnceMore(picks, n, pick);
    assert FollowsAhead(picks + [pick], todo, i + 1, n + 1);
  }

  /** Nothing but skipped lines is left. */
  lemma ReachedEnd(picks: seq<string>, todo: seq<string>, i: nat)
    requires Reached(picks, todo, i) && i <= |todo| && forall k :: i <= k < |todo| ==> ReadStep(todo[k]) == Skip
    ensures Follows(picks, todo)
  {
    hide ReadStep, NextPick, Follows, Without, EndsIn, SkipsAtEnd;
    var n: nat :| FollowsAhead(picks, todo, i, n);
    NoNextPick(todo, i);
    WithoutNone(picks);
    FollowsSkips(picks, todo, i, |todo|);
    assert todo[..|todo|] == todo;
  }

  /** The lines are one pick for each of the commits, in order. */
  ghost predicate PicksOf(todo: seq<string>, ids: seq<string>) {
    |todo| == |ids| && forall i :: 0 <= i < |ids| ==> ReadStep(todo[i]) == Pick(ids[i])
  }

  /** Where every line is a pick, each was picked exactly once. */
  lemma {:induction false} FollowsPicks(picks: seq<string>, todo: seq<string>, ids: seq<string>)
    requires Follows(picks, todo) && PicksOf(todo, ids)
    ensures picks == ids
    decreases |todo|
  {
    hide ReadStep, SkipsAtEnd, EndsIn;
    if todo != [] {
      var last := |todo| - 1;
      LastPick(picks, todo, ids);
      FollowsPicks(picks[..|picks| - 1], todo[..last], ids[..last]);
      assert ids == ids[..last] + [ids[last]];
    }
  }

  lemma LastPick(picks: seq<string>, todo: seq<string>, ids: seq<string>)
    requires Follows(picks, todo) && PicksOf(todo, ids) && todo != []
    ensures picks != [] && picks == picks[..|picks| - 1] + [ids[|ids| - 1]]
    ensures Follows(picks[..|picks| - 1], todo[..|todo| - 1])
  {
    hide ReadStep, SkipsAtEnd, EndsIn, Without, Follows;
    var pick := ids[|ids| - 1];
    var n := LastPicked(picks, todo, pick);
    NoSkipsAtEnd(todo, ids);
    EndsInOne(picks, pick);
  }

  lemma LastPicked(picks: seq<string>, todo: seq<string>, pick: string) returns (n: nat)
    requires Follows(picks, todo) && todo != [] && ReadStep(todo[|todo| - 1]) == Pick(pick)
    ensures 1 <= n <= SkipsAtEnd(todo[..|todo| - 1]) + 1 && EndsIn(picks, n, pick)
    ensures Follows(Without(picks, n), todo[..|todo| - 1])
  {
    hide ReadStep, SkipsAtEnd, EndsIn, Without;
    n :| 1 <= n <= SkipsAtEnd(todo[..|todo| - 1]) + 1 && EndsIn(picks, n, pick)
      && Follows(Without(picks, n), todo[..|todo| - 1]);
  }

  lemma NoSkipsAtEnd(todo: seq<string>, ids: seq<string>)
    requires PicksOf(todo, ids) && todo != []
    ensures SkipsAtEnd(todo[..|todo| - 1]) == 0
  {
    hide ReadStep;
  }

  lemma EndsInOne(picks: seq<string>, pick: string)
    requires EndsIn(picks, 1, pick)
    ensures picks == picks[..|picks| - 1] + [pick] && Without(picks, 1) == picks[..|picks| - 1]
  {
  }

  /** Some line is a pick of that commit. */
  ghost predicate HasPick(todo: seq<string>, pick: string) {
    exists i :: 0 <= i < |todo| && ReadStep(todo[i]) == Pick(pick)
  }

  ghost predicate NoBadLine(todo: seq<string>) {
    forall i :: 0 <= i < |todo| ==> ReadStep(todo[i]) != BadStep
  }

  lemma LastHasPick(todo: seq<string>)
    requires todo != []
    ensures var init, last := todo[..|todo| - 1], ReadStep(todo[|todo| - 1]);
            && (NoBadLine(todo) <==> NoBadLine(init) && last != BadStep)
            && forall p :: HasPick(todo, p) <==> HasPick(init, p) || last == Pick(p)
  {
    hide ReadStep;
    var init, last := todo[..|todo| - 1], |todo| - 1;
    assert forall i :: 0 <= i < last ==> init[i] == todo[i];
    forall p
      ensures HasPick(todo, p) <==> HasPick(init, p) || ReadStep(todo[last]) == Pick(p)
    {
      if HasPick(init, p) {
        var i :| 0 <= i < last && ReadStep(init[i]) == Pick(p);
        assert ReadStep(todo[i]) == Pick(p);
      }
    }
  }

  /** No line is bad, and exactly the commits of the lines that are picks were picked. */
  lemma {:induction false} FollowsAll(picks: seq<string>, todo: seq<string>)
    requires Follows(picks, todo)
    ensures NoBadLine(todo) && forall p :: p in picks <==> HasPick(todo, p)
    decreases |todo|
  {
    hide ReadStep, HasPick, NoBadLine, SkipsAtEnd, EndsIn, Without;
    if todo == [] {
      NothingListed();
    } else {
      var init, last := todo[..|todo| - 1], ReadStep(todo[|todo| - 1]);
      LastHasPick(todo);
      if last == Skip {
        FollowsAll(picks, init);
      } else {
        var n := LastPicked(picks, todo, last.hash);
        FollowsAll(Without(picks, n), init);
        EndsInAll(picks, n, last.hash);
      }
    }
  }

  lemma NothingListed()
    ensures NoBadLine([]) && forall p :: !HasPick([], p)
  {
  }

  lemma EndsInAll(picks: seq<string>, n: nat, pick: string)
    requires EndsIn(picks, n, pick) && n > 0
    ensures forall p :: p in picks <==> p in Without(picks, n) || p == pick
  {
    var front := Without(picks, n);
    forall p
      ensures p in picks <==> p in front || p == pick
    {
      if p in front {
        var i :| 0 <= i < |front| && front[i] == p;
        assert picks[i] == p;
      }
      assert picks[|picks| - 1] == pick;
    }
  }
}
