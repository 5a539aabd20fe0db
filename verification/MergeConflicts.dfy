/**
 When a text merge conflicts, said about the two lists of edits: edits of both sides that touch
 one another form groups, and a group with edits of both sides must rebuild its lines alike.
 */
module MergeConflicts {
  import opened Edits
  import opened Merge3
  import Lines

  /** Up to base position `m` there are the first `k` edits, and the others start behind it. */
  ghost predicate EndsBy(es: seq<Edit>, k: nat, m: int) {
    && k <= |es|
    && (forall i :: 0 <= i < k ==> es[i].end <= m)
    && (forall i :: k <= i < |es| ==> m < es[i].start)
  }

  /** Between the first `k` edits of ours and `l` of theirs and all others there is an untouched base line. */
  ghost predicate Cut(eo: seq<Edit>, et: seq<Edit>, k: nat, l: nat) {
    exists m :: EndsBy(eo, k, m) && EndsBy(et, l, m)
  }

  /** The edits from one cut to the next: they touch one another, and no others. */
  ghost predicate Touching(eo: seq<Edit>, et: seq<Edit>, o: nat, t: nat, o': nat, t': nat) {
    && Cut(eo, et, o, t) && Cut(eo, et, o', t')
    && o <= o' && t <= t' && (o, t) != (o', t')
    && forall k, l :: o <= k <= o' && t <= l <= t' && Cut(eo, et, k, l) ==> (k, l) == (o, t) || (k, l) == (o', t')
  }

  /** Over some base range that holds the edits of both, they rebuild different lines. */
  ghost predicate Disagree(base: seq<Line>, es: seq<Edit>, fs: seq<Edit>) {
    exists lo, hi :: DisagreeOn(base, es, fs, lo, hi)
  }

  ghost predicate DisagreeOn(base: seq<Line>, es: seq<Edit>, fs: seq<Edit>, lo: int, hi: int) {
    && 0 <= lo && hi <= |base| && Within(es, lo, hi) && Within(fs, lo, hi)
    && Patch(base, lo, hi, es) != Patch(base, lo, hi, fs)
  }

  /** A group with edits of both sides that disagree. */
  ghost predicate ConflictGroup(base: seq<Line>, eo: seq<Edit>, et: seq<Edit>, o: nat, t: nat, o': nat, t': nat) {
    Touching(eo, et, o, t, o', t') && o < o' && t < t' && Disagree(base, eo[o..o'], et[t..t'])
  }

  // ---------- Groups are the grown regions ----------

  /** Growing never passes a cut. */
  lemma {:induction false} GrowStopsAtCut(
    eo: seq<Edit>, et: seq<Edit>, o: nat, t: nat, end: int, k: nat, l: nat, m: int)
    requires o <= k && t <= l && end <= m && EndsBy(eo, k, m) && EndsBy(et, l, m)
    ensures var g := Grow(eo, et, o, t, end); g.o <= k && g.t <= l && g.end <= m
    decreases |eo| - o + |et| - t
  {
    if o < |eo| && eo[o].start <= end {
      GrowStopsAtCut(eo, et, o + 1, t, Max(end, eo[o].end), k, l, m);
    } else if t < |et| && et[t].start <= end {
      GrowStopsAtCut(eo, et, o, t + 1, Max(end, et[t].end), k, l, m);
    }
  }

  lemma {:induction false} GrowLimit(eo: seq<Edit>, et: seq<Edit>, o: nat, t: nat, end: int, limit: int)
    requires o <= |eo| && t <= |et| && end <= limit
    requires forall k :: o <= k < Grow(eo, et, o, t, end).o ==> eo[k].end <= limit
    requires forall k :: t <= k < Grow(eo, et, o, t, end).t ==> et[k].end <= limit
    ensures Grow(eo, et, o, t, end).end <= limit
    decreases |eo| - o + |et| - t
  {
    if o < |eo| && eo[o].start <= end {
      GrowLimit(eo, et, o + 1, t, Max(end, eo[o].end), limit);
    } else if t < |et| && et[t].start <= end {
      GrowLimit(eo, et, o, t + 1, Max(end, et[t].end), limit);
    }
  }

  /** Edits left over at a position that the next one has not reached yet end a cut there. */
  lemma PendingEndsBy(base: seq<Line>, es: seq<Edit>, i: nat, at: int)
    requires Separated(es) && Pending(base, es, i, at) && (i < |es| ==> at < es[i].start)
    ensures EndsBy(es, i, at)
  {
    PendingRange(base, es, i, at);
    PendingEnds(base, es, i, at);
    WithinEnds(es[..i], 0, at);
    assert forall k :: 0 <= k < i ==> es[k] == es[..i][k];
    forall k | i <= k < |es|
      ensures at < es[k].start
    {
      StartsAscend(es, i, k);
    }
  }

  lemma {:induction false} StartsAscend(es: seq<Edit>, i: nat, k: nat)
    requires Separated(es) && i <= k < |es| && forall j :: i <= j < |es| ==> es[j].start <= es[j].end
    ensures es[i].start <= es[k].start
    decreases k - i
  {
    if i < k {
      StartsAscend(es, i, k - 1);
    }
  }

  /** A later cut lies behind the region that begins with the next edit. */
  lemma CutIsBehind(eo: seq<Edit>, et: seq<Edit>, o: nat, t: nat, k: nat, l: nat)
    requires o <= |eo| && t <= |et| && (o < |eo| || t < |et|)
    requires (o < |eo| ==> eo[o].start <= eo[o].end) && (t < |et| ==> et[t].start <= et[t].end)
    requires o <= k && t <= l && (k, l) != (o, t) && Cut(eo, et, k, l)
    ensures var g := Grow(eo, et, o, t, NextBase(eo, et, o, t)); g.o <= k && g.t <= l
  {
    hide Grow;
    var m :| EndsBy(eo, k, m) && EndsBy(et, l, m);
    assert o < k ==> eo[o].end <= m;
    assert t < l ==> et[t].end <= m;
    GrowStopsAtCut(eo, et, o, t, NextBase(eo, et, o, t), k, l, m);
  }

  /** The region grown from a cut ends at the next one. */
  lemma NextCut(base: seq<Line>, eo: seq<Edit>, et: seq<Edit>, o: nat, t: nat, at: int)
    requires Separated(eo) && Separated(et)
    requires Pending(base, eo, o, at) && Pending(base, et, t, at) && (o < |eo| || t < |et|)
    requires Cut(eo, et, o, t)
    ensures var g := Grow(eo, et, o, t, NextBase(eo, et, o, t));
            && Touching(eo, et, o, t, g.o, g.t)
            && forall k, l :: o <= k && t <= l && (k, l) != (o, t) && Cut(eo, et, k, l) ==> g.o <= k && g.t <= l
  {
    hide Grow, Within, Patch, Pending, Separated, NextBase, Cut;
    GrowRegion(base, eo, et, o, t, at);
    PendingRange(base, eo, o, at);
    PendingRange(base, et, t, at);
    PendingEnds(base, eo, o, at);
    PendingEnds(base, et, t, at);
    RegionEndsAtCut(base, eo, et, o, t, at);
    forall k, l | o <= k && t <= l && (k, l) != (o, t) && Cut(eo, et, k, l)
      ensures var g := Grow(eo, et, o, t, NextBase(eo, et, o, t)); g.o <= k && g.t <= l
    {
      CutIsBehind(eo, et, o, t, k, l);
    }
  }

  lemma RegionEndsAtCut(base: seq<Line>, eo: seq<Edit>, et: seq<Edit>, o: nat, t: nat, at: int)
    requires Separated(eo) && Separated(et)
    requires Pending(base, eo, o, at) && Pending(base, et, t, at) && (o < |eo| || t < |et|)
    ensures o <= |eo| && t <= |et|
    ensures var g := Grow(eo, et, o, t, NextBase(eo, et, o, t)); Cut(eo, et, g.o, g.t)
  {
    hide Grow, Within, Patch, Pending, Separated, NextBase, EndsBy;
    GrowRegion(base, eo, et, o, t, at);
    PendingRange(base, eo, o, at);
    PendingRange(base, et, t, at);
    var g := Grow(eo, et, o, t, NextBase(eo, et, o, t));
    PendingEndsBy(base, eo, g.o, g.end);
    PendingEndsBy(base, et, g.t, g.end);
  }

  // ---------- Conflicts ----------

  lemma PatchInside(base: seq<Line>, es: seq<Edit>, lo: int, nb: int, end: int, hi: int)
    requires 0 <= lo <= nb <= end <= hi <= |base| && Within(es, nb, end)
    ensures Within(es, lo, hi)
    ensures Patch(base, lo, hi, es) == base[lo..nb] + Patch(base, nb, end, es) + base[end..hi]
  {
    assert es[..|es|] == es && es[|es|..] == [];
    WithinSplit(es, nb, end, hi, |es|);
    PatchSplit(base, nb, end, hi, es, |es|);
    PatchSkip(base, lo, nb, hi, es);
  }

  /** A region conflicts exactly if its two groups of edits are there and disagree. */
  lemma RegionConflicts(base: seq<Line>, eo: seq<Edit>, et: seq<Edit>, o: nat, t: nat, at: int)
    requires NormalForm(base, eo) && NormalForm(base, et)
    requires Pending(base, eo, o, at) && Pending(base, et, t, at) && (o < |eo| || t < |et|)
    ensures var nb := NextBase(eo, et, o, t);
            var g := Grow(eo, et, o, t, nb);
            && Within(eo[o..g.o], nb, g.end) && Within(et[t..g.t], nb, g.end) && 0 <= nb <= g.end <= |base|
            && (Conflicting(Region(base, eo, et, o, t, nb, g))
                <==> o < g.o && t < g.t && Disagree(base, eo[o..g.o], et[t..g.t]))
  {
    hide NormalForm, Pending, Patch, Within, Grow;
    GrowRegion(base, eo, et, o, t, at);
    PendingRange(base, eo, o, at);
    var nb := NextBase(eo, et, o, t);
    var g := Grow(eo, et, o, t, nb);
    var es, fs := eo[o..g.o], et[t..g.t];
    if o == g.o {
      PatchNone(base, eo, o, nb, g.end);
    } else {
      RegionChanged(base, eo, o, nb, g.o, g.end);
    }
    if t == g.t {
      PatchNone(base, et, t, nb, g.end);
    } else {
      RegionChanged(base, et, t, nb, g.t, g.end);
    }
    if Patch(base, nb, g.end, es) != Patch(base, nb, g.end, fs) {
      assert DisagreeOn(base, es, fs, nb, g.end);
    }
    if o < g.o && t < g.t && Disagree(base, es, fs) {
      var lo, hi :| DisagreeOn(base, es, fs, lo, hi);
      GroupRange(eo, et, o, t, nb, lo, hi);
      PatchInside(base, es, lo, nb, g.end, hi);
      PatchInside(base, fs, lo, nb, g.end, hi);
    }
  }

  /** A range that holds all edits of a group holds its region. */
  lemma GroupRange(eo: seq<Edit>, et: seq<Edit>, o: nat, t: nat, nb: int, lo: int, hi: int)
    requires o < |eo| && t < |et| && nb == NextBase(eo, et, o, t)
    requires var g := Grow(eo, et, o, t, nb);
             o < g.o && t < g.t && Within(eo[o..g.o], lo, hi) && Within(et[t..g.t], lo, hi)
    ensures lo <= nb && Grow(eo, et, o, t, nb).end <= hi
  {
    hide Grow;
    var g := Grow(eo, et, o, t, nb);
    WithinEnds(eo[o..g.o], lo, hi);
    WithinEnds(et[t..g.t], lo, hi);
    assert forall k :: o <= k < g.o ==> eo[k] == eo[o..g.o][k - o];
    assert forall k :: t <= k < g.t ==> et[k] == et[t..g.t][k - t];
    GrowLimit(eo, et, o, t, nb, hi);
  }

  ghost predicate ConflictFrom(base: seq<Line>, eo: seq<Edit>, et: seq<Edit>, o: nat, t: nat) {
    exists p, q, p', q' :: o <= p && t <= q && ConflictGroup(base, eo, et, p, q, p', q')
  }

  lemma {:induction false} ConflictsAreGroups(base: seq<Line>, eo: seq<Edit>, et: seq<Edit>, o: nat, t: nat, at: int)
    requires NormalForm(base, eo) && NormalForm(base, et)
    requires Pending(base, eo, o, at) && Pending(base, et, t, at) && Cut(eo, et, o, t)
    ensures HasConflict(Chunks(base, eo, et, o, t, at)) <==> ConflictFrom(base, eo, et, o, t)
    decreases |eo| - o + |et| - t
  {
    hide NormalForm, Pending, Grow, NextBase, Cut, Disagree, HasConflict, Conflicting;
    PendingRange(base, eo, o, at);
    PendingRange(base, et, t, at);
    if o == |eo| && t == |et| {
      LastChunk(base, eo, et, at);
      UnchangedText(base[at..]);
      NoChunksNoConflict();
      HasConflictCons(Unchanged(base[at..]), []);
      assert [Unchanged(base[at..])] + [] == [Unchanged(base[at..])];
      NoCutBehind(eo, et);
    } else {
      WalkStart(base, eo);
      WalkStart(base, et);
      NextCut(base, eo, et, o, t, at);
      RegionConflicts(base, eo, et, o, t, at);
      GrowRegion(base, eo, et, o, t, at);
      var nb := NextBase(eo, et, o, t);
      var g := Grow(eo, et, o, t, nb);
      var stable, region := Unchanged(base[at..nb]), Region(base, eo, et, o, t, nb, g);
      var rest := Chunks(base, eo, et, g.o, g.t, g.end);
      ConflictsAreGroups(base, eo, et, g.o, g.t, g.end);
      UnchangedText(base[at..nb]);
      HasConflictCons(stable, [region] + rest);
      HasConflictCons(region, rest);
      SplitGroups(base, eo, et, o, t, g.o, g.t);
    }
  }

  lemma NoCutBehind(eo: seq<Edit>, et: seq<Edit>)
    ensures forall p, q, p', q' :: |eo| <= p && |et| <= q ==> !Touching(eo, et, p, q, p', q')
  {
  }

  /** A group is the first one or starts behind it. */
  lemma SplitGroups(base: seq<Line>, eo: seq<Edit>, et: seq<Edit>, o: nat, t: nat, o': nat, t': nat)
    requires Touching(eo, et, o, t, o', t')
    requires forall k, l :: o <= k && t <= l && (k, l) != (o, t) && Cut(eo, et, k, l) ==> o' <= k && t' <= l
    ensures ConflictFrom(base, eo, et, o, t)
       <==> ConflictGroup(base, eo, et, o, t, o', t') || ConflictFrom(base, eo, et, o', t')
  {
    hide Cut, Disagree;
    if ConflictFrom(base, eo, et, o, t) {
      var p, q, p', q' :| o <= p && t <= q && ConflictGroup(base, eo, et, p, q, p', q');
      if (p, q) == (o, t) {
        assert o' <= p' && t' <= q';
        assert (o', t') == (p', q');
      }
    }
  }

  ghost predicate SomeGroupConflicts(base: seq<Line>, eo: seq<Edit>, et: seq<Edit>) {
    exists o, t, o', t' :: ConflictGroup(base, eo, et, o, t, o', t')
  }

  /**
   A merge conflicts exactly if, in some group of edits that touch one another, both sides have
   edits, and these rebuild the lines differently.
   */
  lemma ConflictIff(base: string, ours: string, theirs: string)
    ensures var b := Lines.Split(base, '\n');
            var eo, et := EditsOf(b, Lines.Split(ours, '\n')), EditsOf(b, Lines.Split(theirs, '\n'));
            MergeText(base, ours, theirs).1 <==> SomeGroupConflicts(b, eo, et)
  {
    hide EditsOf, Chunks, NormalForm, HasConflict, ConflictGroup, Lines.Split, Assemble, Lines.Join;
    var b := Lines.Split(base, '\n');
    var eo, et := EditsOf(b, Lines.Split(ours, '\n')), EditsOf(b, Lines.Split(theirs, '\n'));
    EditsOfNormal(b, Lines.Split(ours, '\n'));
    EditsOfNormal(b, Lines.Split(theirs, '\n'));
    WalkStart(b, eo);
    WalkStart(b, et);
    StartCut(b, eo, et);
    ConflictsAreGroups(b, eo, et, 0, 0, 0);
    assert MergeText(base, ours, theirs).1 == HasConflict(Chunks(b, eo, et, 0, 0, 0));
    assert ConflictFrom(b, eo, et, 0, 0) <==> SomeGroupConflicts(b, eo, et);
  }

  lemma StartCut(base: seq<Line>, eo: seq<Edit>, et: seq<Edit>)
    requires Within(eo, 0, |base|) && Within(et, 0, |base|)
    ensures Cut(eo, et, 0, 0)
  {
    WithinEnds(eo, 0, |base|);
    WithinEnds(et, 0, |base|);
    assert EndsBy(eo, 0, -1) && EndsBy(et, 0, -1);
  }

  // ---------- Markers in the merged text ----------

  /** Merged lines are lines of ours or theirs, or markers of a conflict. */
  lemma {:induction false} MergedLines(cs: seq<Chunk>, line: Line)
    ensures line in Assemble(cs, Merged) ==>
              line in Assemble(cs, Ours) || line in Assemble(cs, Theirs) || (HasConflict(cs) && line in MARKERS)
    ensures HasConflict(cs) && line in MARKERS ==> line in Assemble(cs, Merged)
    ensures HasConflict(cs) ==> Assemble(cs, Merged) != []
  {
    if cs != [] {
      MergedLines(cs[1..], line);
      ConflictLater(cs);
    }
  }

  const MARKERS: set<Line> := {OURS_MARKER, DIVIDER, THEIRS_MARKER}

  lemma ConflictLater(cs: seq<Chunk>)
    requires cs != []
    ensures HasConflict(cs) <==> Conflicting(cs[0]) || HasConflict(cs[1..])
  {
    hide Conflicting;
    if i :| 0 <= i < |cs[1..]| && Conflicting(cs[1..][i]) {
      assert Conflicting(cs[i + 1]);
    }
    if i :| 0 < i < |cs| && Conflicting(cs[i]) {
      assert Conflicting(cs[1..][i - 1]);
    }
  }

  lemma MarkersOneLine()
    ensures forall line :: line in MARKERS ==> line != "" && '\n' !in line
  {
  }

  /**
   A merge that conflicts has all three markers as lines of its text; one that does not has
   them only where ours or theirs has such a line itself.
   */
  lemma MarkersIff(base: string, ours: string, theirs: string, marker: Line)
    requires marker in MARKERS
    ensures var (text, conflict) := MergeText(base, ours, theirs);
            && (conflict ==> marker in Lines.Split(text, '\n'))
            && (!conflict && marker in Lines.Split(text, '\n') ==>
                  marker in Lines.Split(ours, '\n') || marker in Lines.Split(theirs, '\n'))
  {
    hide Assemble, HasConflict, ChunksOf, Lines.Split, Lines.Join, Alternates;
    var b, o, t := Lines.Split(base, '\n'), Lines.Split(ours, '\n'), Lines.Split(theirs, '\n');
    var cs := ChunksOf(b, o, t);
    var merged := Assemble(cs, Merged);
    MergeDecomposition(b, o, t);
    MergedLines(cs, marker);
    MarkersOneLine();
    forall i | 0 <= i < |merged|
      ensures '\n' !in merged[i]
    {
      MergedLines(cs, merged[i]);
    }
    if merged == [] {
      EmptyText();
    } else {
      Lines.SplitJoin(merged, '\n');
    }
  }

  lemma EmptyText()
    ensures Lines.Split(Lines.Join([], '\n'), '\n') == [""]
  {
  }
}
