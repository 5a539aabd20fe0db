/**
 Index updates under the exclusive-create lock, as a protocol of any number of processes: each
 step is one file operation, and any process may take the next step.
 */
module IndexLock {
  import opened Wrappers

  type Pid = nat

  /** A callback changes the loaded index or fails. */
  type Callback<!T> = T -> Option<T>

  /** Where a process is in its current update. */
  datatype Pc<!T> =
    | Idle
    | Waiting(fn: Callback<T>)          // wants the lock
    | Holding(fn: Callback<T>)          // created the lock file
    | Loaded(fn: Callback<T>, index: T) // has read the index
    | Writing(fn: Callback<T>, index: T) // the callback succeeded
    | Releasing(fn: Callback<T>)        // only the lock file is left to remove

  /** `history` records the callbacks in the order in which their processes got the lock. */
  datatype World<!T> = World(procs: map<Pid, Pc<T>>, lockFile: bool, disk: T, history: seq<Callback<T>>)

  datatype Step<!T> =
    | Request(p: Pid, fn: Callback<T>)
    | Acquire(p: Pid)
    | TimeOut(p: Pid)
    | ReadFile(p: Pid)
    | Call(p: Pid)
    | WriteFile(p: Pid)
    | Unlock(p: Pid)

  function At<T>(w: World<T>, p: Pid): Pc<T> {
    if p in w.procs then w.procs[p] else Idle
  }

  /** One step; a step its process cannot take changes nothing. */
  function Next<T>(w: World<T>, s: Step<T>): World<T> {
    match s
    case Request(p, fn) =>
      if At(w, p).Idle? then w.(procs := w.procs[p := Waiting(fn)]) else w
    case Acquire(p) =>
      // creating the lock file fails while it exists
      if At(w, p).Waiting? && !w.lockFile then
        w.(procs := w.procs[p := Holding(At(w, p).fn)], lockFile := true, history := w.history + [At(w, p).fn])
      else w
    case TimeOut(p) =>
      if At(w, p).Waiting? then w.(procs := w.procs[p := Idle]) else w
    case ReadFile(p) =>
      if At(w, p).Holding? then w.(procs := w.procs[p := Loaded(At(w, p).fn, w.disk)]) else w
    case Call(p) =>
      if At(w, p).Loaded? then
        match At(w, p).fn(At(w, p).index)
        case None => w.(procs := w.procs[p := Releasing(At(w, p).fn)])
        case Some(m) => w.(procs := w.procs[p := Writing(At(w, p).fn, m)])
      else w
    case WriteFile(p) =>
      if At(w, p).Writing? then w.(procs := w.procs[p := Releasing(At(w, p).fn)], disk := At(w, p).index) else w
    case Unlock(p) =>
      if At(w, p).Releasing? then w.(procs := w.procs[p := Idle], lockFile := false) else w
  }

  function Run<T>(w: World<T>, steps: seq<Step<T>>): World<T>
    decreases |steps|
  {
    if steps == [] then w else Run(Next(w, steps[0]), steps[1..])
  }

  // ---------- Serial execution ----------

  /** The index after the callbacks were applied one after another; a failed one changes nothing. */
  function Serial<T>(index: T, fns: seq<Callback<T>>): T {
    if fns == [] then index
    else
      var before := Serial(index, fns[..|fns| - 1]);
      match fns[|fns| - 1](before)
      case None => before
      case Some(m) => m
  }

  predicate Inside<T>(pc: Pc<T>) {
    !pc.Idle? && !pc.Waiting?
  }

  ghost predicate MutualExclusion<T>(w: World<T>) {
    forall p, q :: Inside(At(w, p)) && Inside(At(w, q)) ==> p == q
  }

  /**
   What a process inside knows: it was the last to get the lock, all earlier callbacks are in
   the file, and its own is, too, once it is about to release.
   */
  ghost predicate Serialized<T>(initial: T, w: World<T>, p: Pid) {
    && w.lockFile && w.history != []
    && var fns := w.history;
       var before := Serial(initial, fns[..|fns| - 1]);
       match At(w, p)
       case Holding(fn) => fn == fns[|fns| - 1] && w.disk == before
       case Loaded(fn, m) => fn == fns[|fns| - 1] && w.disk == before && m == before
       case Writing(fn, m) => fn == fns[|fns| - 1] && w.disk == before && fn(before) == Some(m)
       case Releasing(fn) => w.disk == Serial(initial, fns)
       case _ => true
  }

  /** The invariant of every reachable world. */
  ghost predicate Safe<T>(initial: T, w: World<T>) {
    && MutualExclusion(w)
    && (forall p :: Inside(At(w, p)) ==> Serialized(initial, w, p))
    && (w.lockFile <==> exists p :: Inside(At(w, p)))
    && (!w.lockFile ==> w.disk == Serial(initial, w.history))
  }

  ghost predicate Fresh<T>(w: World<T>) {
    w.procs == map[] && !w.lockFile && w.history == []
  }

  lemma OthersUnmoved<T>(w: World<T>, s: Step<T>, q: Pid)
    requires q != s.p
    ensures At(Next(w, s), q) == At(w, q)
  {
  }

  lemma StepSafe<T>(initial: T, w: World<T>, s: Step<T>)
    requires Safe(initial, w)
    ensures Safe(initial, Next(w, s))
  {
    var w' := Next(w, s);
    forall q | q != s.p
      ensures At(w', q) == At(w, q)
    {
      OthersUnmoved(w, s, q);
    }
    if s.Acquire? && At(w, s.p).Waiting? && !w.lockFile {
      assert w'.history[..|w'.history| - 1] == w.history;
      assert Inside(At(w', s.p));
    } else if Inside(At(w, s.p)) {
      assert Serialized(initial, w, s.p);
      if !s.Unlock? {
        assert Inside(At(w', s.p));
      }
    }
  }

  /**
   Any interleaving of any number of processes: at most one is between lock and unlock, and
   whenever the lock is free the file holds the serial result of all callbacks in lock order.
   */
  lemma {:induction false} WritersSerialisable<T>(initial: T, w: World<T>, steps: seq<Step<T>>)
    requires Safe(initial, w)
    ensures Safe(initial, Run(w, steps))
    decreases |steps|
  {
    if steps != [] {
      StepSafe(initial, w, steps[0]);
      WritersSerialisable(initial, Next(w, steps[0]), steps[1..]);
    }
  }

  lemma RunsFromStart<T>(w: World<T>, steps: seq<Step<T>>)
    requires Fresh(w)
    ensures MutualExclusion(Run(w, steps))
    ensures !Run(w, steps).lockFile ==> Run(w, steps).disk == Serial(w.disk, Run(w, steps).history)
  {
    WritersSerialisable(w.disk, w, steps);
  }

  /** A process may stop waiting for the lock, and nothing else changes. */
  lemma GivesUp<T>(w: World<T>, p: Pid)
    requires At(w, p).Waiting?
    ensures var w' := Next(w, TimeOut(p));
            && At(w', p).Idle? && (forall q :: q != p ==> At(w', q) == At(w, q))
            && w'.lockFile == w.lockFile && w'.disk == w.disk && w'.history == w.history
  {
  }

  /** An update that gets through alone does what its callback says, or nothing if that fails. */
  lemma LoneUpdate<T>(w: World<T>, p: Pid, fn: Callback<T>)
    requires At(w, p).Idle? && !w.lockFile
    ensures var w' := Run(w, [Request(p, fn), Acquire(p), ReadFile(p), Call(p), WriteFile(p), Unlock(p)]);
            && !w'.lockFile && At(w', p).Idle? && w'.history == w.history + [fn]
            && w'.disk == match fn(w.disk) case None => w.disk case Some(m) => m
  {
    var s := [Request(p, fn), Acquire(p), ReadFile(p), Call(p), WriteFile(p), Unlock(p)];
    var w1 := Next(w, s[0]);
    var w2 := Next(w1, s[1]);
    var w3 := Next(w2, s[2]);
    var w4 := Next(w3, s[3]);
    var w5 := Next(w4, s[4]);
    var w6 := Next(w5, s[5]);
    assert s[1..][1..][1..][1..][1..][1..] == [];
    RunSix(w, s);
  }

  lemma RunSix<T>(w: World<T>, s: seq<Step<T>>)
    requires |s| == 6
    ensures Run(w, s) == Next(Next(Next(Next(Next(Next(w, s[0]), s[1]), s[2]), s[3]), s[4]), s[5])
  {
    hide Next;
    RunOne(w, s);
    RunOne(Next(w, s[0]), s[1..]);
    RunOne(Next(Next(w, s[0]), s[1]), s[2..]);
    RunOne(Next(Next(Next(w, s[0]), s[1]), s[2]), s[3..]);
    RunOne(Next(Next(Next(Next(w, s[0]), s[1]), s[2]), s[3]), s[4..]);
    RunOne(Next(Next(Next(Next(Next(w, s[0]), s[1]), s[2]), s[3]), s[4]), s[5..]);
    assert s[1..][1..] == s[2..] && s[2..][1..] == s[3..] && s[3..][1..] == s[4..] && s[4..][1..] == s[5..]
      && s[5..][1..] == [];
  }

  lemma RunOne<T>(w: World<T>, s: seq<Step<T>>)
    requires s != []
    ensures Run(w, s) == Run(Next(w, s[0]), s[1..])
  {
  }
}
