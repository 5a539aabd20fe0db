/** Updates of the stored index, one alone and many in turn. */
module IndexStore {
  import opened Wrappers
  import opened IndexCodec
  import opened IndexFile
  import opened IndexLock

  type Update = Callback<IndexMap>

  /**
   The update files every entry under its own path, if the index it is given was loaded from a
   file; nothing is asked of what it does to other maps.
   */
  ghost predicate Filing(fn: Update) {
    forall m, m' :: Holdable(m) && fn(m) == Some(m') ==> Keyed(m')
  }

  /** The file after an update; `None` when the load or the callback fails. */
  ghost function Updated(sha: Bytes -> Bytes, fn: Update, file: Option<Bytes>): Option<Option<Bytes>>
    requires Filing(fn)
  {
    LoadedHoldable(sha, file);
    match Load(sha, file)
    case Err(_) => None
    case Ok(m) =>
      match fn(m)
      case None => None
      case Some(m') => Some(Some(IndexBytes(sha, Listing(m'))))
  }

  /** The index file; the caller of `UpdateIndex` holds its lock. */
  class Store {
    var file: Option<Bytes>

    method UpdateIndex(sha: Bytes -> Bytes, fn: Update) returns (ok: bool)
      requires Filing(fn)
      modifies this
      ensures ok == Updated(sha, fn, old(file)).Some?
      ensures file == if ok then Updated(sha, fn, old(file)).value else old(file)
    {
      hide Load;
      var loaded := LoadIndex(sha, file);
      LoadedHoldable(sha, file);
      if loaded.Err? {
        return false;
      }
      var changed := fn(loaded.value);
      if changed.None? {
        return false;
      }
      var data := WriteMapToDisk(sha, changed.value);
      file := Some(data);
      return true;
    }
  }

  /** An update as a process sees it that only has the file. */
  ghost function OnFile(sha: Bytes -> Bytes, fn: Update): Callback<Option<Bytes>>
    requires Filing(fn)
  {
    file => Updated(sha, fn, file)
  }

  ghost predicate AllFiling(fns: seq<Update>) {
    forall i :: 0 <= i < |fns| ==> Filing(fns[i])
  }

  ghost function OnFiles(sha: Bytes -> Bytes, fns: seq<Update>): (r: seq<Callback<Option<Bytes>>>)
    requires AllFiling(fns)
    ensures |r| == |fns|
    ensures forall i :: 0 <= i < |fns| ==> r[i] == OnFile(sha, fns[i])
  {
    seq(|fns|, i requires 0 <= i < |fns| => OnFile(sha, fns[i]))
  }

  /**
   One update, seen through the file: it fails exactly if the callback fails on the loaded map,
   and otherwise the callback's result is what is loaded next, exactly if a file can hold it.
   */
  lemma UpdateStep(sha: Bytes -> Bytes, file: Option<Bytes>, m: IndexMap, fn: Update)
    requires (forall x :: |sha(x)| == 20) && Filing(fn) && Load(sha, file) == Ok(m)
    ensures match OnFile(sha, fn)(file)
            case None => fn(m).None?
            case Some(file') => fn(m).Some? && (Load(sha, file') == Ok(fn(m).value) <==> StorableMap(fn(m).value))
  {
    hide Load, IndexBytes, Holdable, StorableMap;
    LoadedHoldable(sha, file);
    if fn(m).Some? {
      MapRoundTrip(sha, fn(m).value);
    }
  }

  /** On the way through the updates the map never gets beyond what a file can hold. */
  ghost predicate StaysStorable(m: IndexMap, fns: seq<Update>) {
    forall i :: 0 <= i <= |fns| ==> StorableMap(Serial(m, fns[..i]))
  }

  lemma StaysBefore(m: IndexMap, fns: seq<Update>)
    requires StaysStorable(m, fns) && fns != []
    ensures StaysStorable(m, fns[..|fns| - 1]) && StorableMap(Serial(m, fns))
  {
    hide StorableMap, Serial;
    var init := fns[..|fns| - 1];
    forall i | 0 <= i <= |init|
      ensures StorableMap(Serial(m, init[..i]))
    {
      assert init[..i] == fns[..i];
    }
    assert fns[..|fns|] == fns;
  }

  /**
   Serial updates of the file are serial updates of the map: reading the file in the end gives
   the successful callbacks applied one after another to the map that was read at first.
   */
  lemma {:induction false} SerialUpdates(sha: Bytes -> Bytes, file: Option<Bytes>, m: IndexMap, fns: seq<Update>)
    requires forall x :: |sha(x)| == 20
    requires AllFiling(fns) && StaysStorable(m, fns)
    requires Load(sha, file) == Ok(m)
    ensures Load(sha, Serial(file, OnFiles(sha, fns))) == Ok(Serial(m, fns))
    decreases |fns|
  {
    hide Load, OnFile, Filing, StorableMap, StaysStorable;
    if fns != [] {
      var init, last := fns[..|fns| - 1], fns[|fns| - 1];
      StaysBefore(m, fns);
      SerialUpdates(sha, file, m, init);
      assert OnFiles(sha, fns)[..|fns| - 1] == OnFiles(sha, init);
      UpdateStep(sha, Serial(file, OnFiles(sha, init)), Serial(m, init), last);
    }
  }

  // ---------- Updates that set and remove entries ----------

  datatype Edit = Put(entry: Entry) | Drop(path: Bytes)

  ghost predicate EditOk(e: Edit) {
    e.Put? ==> 0 !in e.entry.path && e.entry.stage < 4 && |e.entry.hash| == 20
  }

  /** The map after some of its entries were set and some removed, the others left alone. */
  function Edited(m: IndexMap, edits: seq<Edit>): IndexMap {
    if edits == [] then m
    else
      var before := Edited(m, edits[..|edits| - 1]);
      match edits[|edits| - 1]
      case Put(e) => before[e.path := e]
      case Drop(p) => before - {p}
  }

  /** Of what a file can hold the update makes the same, apart from the number, which grows by at most `room`. */
  ghost predicate Proper(fn: Update, room: nat) {
    forall m, m' :: Holdable(m) && fn(m) == Some(m') ==> Keyed(m') && Fits(m') && |m'| <= |m| + room
  }

  lemma {:induction false} EditedProper(m: IndexMap, edits: seq<Edit>)
    requires Keyed(m) && Fits(m) && forall i :: 0 <= i < |edits| ==> EditOk(edits[i])
    ensures Keyed(Edited(m, edits)) && Fits(Edited(m, edits)) && |Edited(m, edits)| <= |m| + |edits|
    decreases |edits|
  {
    if edits != [] {
      var last := edits[|edits| - 1];
      var before := Edited(m, edits[..|edits| - 1]);
      EditedProper(m, edits[..|edits| - 1]);
      if last.Put? {
        PutSize(before, last.entry.path, last.entry);
      } else {
        DropSize(before, last.path);
      }
    }
  }

  lemma DropSize(m: IndexMap, p: Bytes)
    ensures |m - {p}| <= |m|
  {
    assert m.Keys == (m - {p}).Keys + if p in m then {p} else {};
    assert |m.Keys| == |m| && |(m - {p}).Keys| == |m - {p}|;
  }

  /** What the update changes in the map it was given are some entries, which may depend on the map; or it fails. */
  ghost predicate EditsSome(fn: Update, room: nat) {
    forall m :: Holdable(m) && fn(m).Some? ==> exists edits :: EditsTo(m, edits, fn(m).value, room)
  }

  ghost predicate EditsTo(m: IndexMap, edits: seq<Edit>, m': IndexMap, room: nat) {
    |edits| <= room && (forall i :: 0 <= i < |edits| ==> EditOk(edits[i])) && m' == Edited(m, edits)
  }

  /** Reading the map, and setting and removing entries of it, is proper. */
  lemma EditsProper(fn: Update, room: nat)
    requires EditsSome(fn, room)
    ensures Proper(fn, room) && Filing(fn)
  {
    hide Keyed, Fits, Edited, EditOk;
    forall m, m' | Holdable(m) && fn(m) == Some(m')
      ensures Keyed(m') && Fits(m') && |m'| <= |m| + room
    {
      var edits :| EditsTo(m, edits, fn(m).value, room);
      EditedProper(m, edits);
    }
  }

  /** Setting an entry, removing one, and changing nothing are such updates. */
  lemma SetAndRemove(fn: Update, e: Entry, p: Bytes)
    requires EditOk(Put(e))
    ensures (forall m :: fn(m) == Some(m[e.path := e])) ==> EditsSome(fn, 1)
    ensures (forall m :: fn(m) == Some(m - {p})) ==> EditsSome(fn, 1)
    ensures (forall m :: fn(m) == Some(m)) ==> EditsSome(fn, 0)
  {
    hide Holdable;
    forall m | Holdable(m)
      ensures EditsTo(m, [Put(e)], m[e.path := e], 1) && EditsTo(m, [Drop(p)], m - {p}, 1) && EditsTo(m, [], m, 0)
    {
      EditedOnce(m, e, p);
    }
  }

  lemma EditedOnce(m: IndexMap, e: Entry, p: Bytes)
    ensures Edited(m, [Put(e)]) == m[e.path := e] && Edited(m, [Drop(p)]) == m - {p} && Edited(m, []) == m
  {
    assert [Put(e)][..0] == [] && [Drop(p)][..0] == [];
  }

  /** Proper updates stay storable as long as there is room for what they may add. */
  lemma {:induction false} ProperStays(m: IndexMap, fns: seq<Update>, room: nat)
    requires Holdable(m) && AllProper(fns, room) && |m| + |fns| * room < 0x1_0000_0000
    ensures AllFiling(fns) && StaysStorable(m, fns)
    ensures Holdable(Serial(m, fns)) && |Serial(m, fns)| <= |m| + |fns| * room
    decreases |fns|
  {
    hide Proper, Filing, Keyed, Fits, StaysStorable, Serial;
    SerialLast(m, fns);
    if fns == [] {
      StaysHere(m);
    } else {
      var init, last := fns[..|fns| - 1], fns[|fns| - 1];
      assert |fns| * room == |init| * room + room;
      ProperStays(m, init, room);
      ProperFiles(last, room);
      ProperStep(Serial(m, init), last, room);
      StaysOnce(m, fns);
    }
  }

  lemma ProperFiles(fn: Update, room: nat)
    requires Proper(fn, room)
    ensures Filing(fn)
  {
    hide Keyed;
  }

  ghost predicate AllProper(fns: seq<Update>, room: nat) {
    forall i :: 0 <= i < |fns| ==> Proper(fns[i], room)
  }

  lemma SerialLast(m: IndexMap, fns: seq<Update>)
    ensures fns == [] ==> Serial(m, fns) == m
    ensures fns != [] ==>
              var before := Serial(m, fns[..|fns| - 1]);
              Serial(m, fns) == match fns[|fns| - 1](before) case None => before case Some(m') => m'
  {
  }

  lemma StaysHere(m: IndexMap)
    requires StorableMap(m)
    ensures StaysStorable(m, [])
  {
    hide StorableMap;
    var none: seq<Update> := [];
    assert none[..0] == none;
  }

  lemma StaysOnce(m: IndexMap, fns: seq<Update>)
    requires fns != [] && StaysStorable(m, fns[..|fns| - 1]) && StorableMap(Serial(m, fns))
    ensures StaysStorable(m, fns)
  {
    hide StorableMap, Serial;
    var init := fns[..|fns| - 1];
    forall i | 0 <= i <= |fns|
      ensures StorableMap(Serial(m, fns[..i]))
    {
      if i < |fns| {
        assert fns[..i] == init[..i];
      } else {
        assert fns[..i] == fns;
      }
    }
  }

  lemma ProperStep(m: IndexMap, fn: Update, room: nat)
    requires Holdable(m) && Proper(fn, room)
    ensures fn(m).Some? ==> Keyed(fn(m).value) && Fits(fn(m).value) && |fn(m).value| <= |m| + room
  {
    hide Keyed, StorableMap;
  }

  // ---------- Any interleaving ----------

  /** The callback does to the file what some such update does to the map. */
  ghost predicate FromUpdate(sha: Bytes -> Bytes, c: Callback<Option<Bytes>>, such: Update -> bool) {
    exists fn :: such(fn) && Filing(fn) && c == OnFile(sha, fn)
  }

  /** Every process asks for such updates only. */
  ghost predicate RequestsUpdates(sha: Bytes -> Bytes, steps: seq<Step<Option<Bytes>>>, such: Update -> bool) {
    forall i :: 0 <= i < |steps| && steps[i].Request? ==> FromUpdate(sha, steps[i].fn, such)
  }

  /** So the callbacks under way and those that got the lock are such updates. */
  ghost predicate RunsUpdates(sha: Bytes -> Bytes, w: World<Option<Bytes>>, such: Update -> bool) {
    && (forall p :: p in w.procs && !w.procs[p].Idle? ==> FromUpdate(sha, w.procs[p].fn, such))
    && (forall i :: 0 <= i < |w.history| ==> FromUpdate(sha, w.history[i], such))
  }

  lemma NextRunsUpdates(sha: Bytes -> Bytes, w: World<Option<Bytes>>, s: Step<Option<Bytes>>, such: Update -> bool)
    requires RunsUpdates(sha, w, such) && (s.Request? ==> FromUpdate(sha, s.fn, such))
    ensures RunsUpdates(sha, Next(w, s), such)
  {
    hide FromUpdate;
  }

  lemma {:induction false} RunRunsUpdates(
    sha: Bytes -> Bytes, w: World<Option<Bytes>>, steps: seq<Step<Option<Bytes>>>, such: Update -> bool)
    requires RunsUpdates(sha, w, such) && RequestsUpdates(sha, steps, such)
    ensures RunsUpdates(sha, Run(w, steps), such)
    decreases |steps|
  {
    hide FromUpdate, RunsUpdates;
    if steps != [] {
      NextRunsUpdates(sha, w, steps[0], such);
      RunRunsUpdates(sha, Next(w, steps[0]), steps[1..], such);
    }
  }

  lemma {:induction false} UpdatesOf(sha: Bytes -> Bytes, history: seq<Callback<Option<Bytes>>>, such: Update -> bool)
    returns (fns: seq<Update>)
    requires forall i :: 0 <= i < |history| ==> FromUpdate(sha, history[i], such)
    ensures AllFiling(fns) && OnFiles(sha, fns) == history
    ensures forall i :: 0 <= i < |fns| ==> such(fns[i])
  {
    hide OnFile, Filing;
    if history == [] {
      fns := [];
    } else {
      var init, last := history[..|history| - 1], history[|history| - 1];
      var before := UpdatesOf(sha, init, such);
      var fn :| such(fn) && Filing(fn) && last == OnFile(sha, fn);
      fns := before + [fn];
      assert OnFiles(sha, fns) == init + [last];
    }
  }

  /**
   Any interleaving of processes that update the index, seen through the file: the updates that
   got the lock are `fns`, in lock order, each one of those asked for; and while no one holds the
   lock, reading the file gives what they make of the map that was there at first, if a file can
   hold that on the way.
   */
  lemma StoreSerialisable(
    sha: Bytes -> Bytes, w: World<Option<Bytes>>, m: IndexMap, steps: seq<Step<Option<Bytes>>>, such: Update -> bool)
    returns (fns: seq<Update>)
    requires forall x :: |sha(x)| == 20
    requires Fresh(w) && Load(sha, w.disk) == Ok(m) && RequestsUpdates(sha, steps, such)
    ensures AllFiling(fns) && Run(w, steps).history == OnFiles(sha, fns)
    ensures forall i :: 0 <= i < |fns| ==> such(fns[i])
    ensures !Run(w, steps).lockFile && StaysStorable(m, fns) ==>
              Load(sha, Run(w, steps).disk) == Ok(Serial(m, fns))
  {
    hide OnFile, Load, Filing, Serial, StaysStorable;
    RunRunsUpdates(sha, w, steps, such);
    fns := UpdatesOf(sha, Run(w, steps).history, such);
    RunsFromStart(w, steps);
    if StaysStorable(m, fns) {
      SerialUpdates(sha, w.disk, m, fns);
    }
  }

  /**
   For processes that read the index and set and remove at most `room` entries each time, the file
   can hold it as long as there is room for them.
   */
  lemma EditsSerialisable(
    sha: Bytes -> Bytes, w: World<Option<Bytes>>, m: IndexMap, steps: seq<Step<Option<Bytes>>>, room: nat)
    returns (fns: seq<Update>)
    requires forall x :: |sha(x)| == 20
    requires Fresh(w) && Load(sha, w.disk) == Ok(m) && RequestsUpdates(sha, steps, fn => EditsSome(fn, room))
    requires |m| + |Run(w, steps).history| * room < 0x1_0000_0000
    ensures AllFiling(fns) && Run(w, steps).history == OnFiles(sha, fns)
    ensures forall i :: 0 <= i < |fns| ==> EditsSome(fns[i], room)
    ensures !Run(w, steps).lockFile ==> Load(sha, Run(w, steps).disk) == Ok(Serial(m, fns))
  {
    hide OnFile, Load, Filing, Serial, StaysStorable, Proper, Holdable, EditsSome;
    fns := StoreSerialisable(sha, w, m, steps, fn => EditsSome(fn, room));
    LoadedHoldable(sha, w.disk);
    forall i | 0 <= i < |fns|
      ensures Proper(fns[i], room)
    {
      EditsProper(fns[i], room);
    }
    ProperStays(m, fns, room);
  }
}
