/**
 Three-way text merge.  The edits of both sides are grouped into regions; the text falls
 into aligned chunks of base, ours and theirs, and the merge is chunk by chunk: the side
 that changed wins, equal changes are taken once, and only chunks on which all three differ
 are written with conflict markers.
 */
module Merge3 {
  import opened Sequences
  import opened EditPlane
  import opened Myers
  import LineDiff
  import Lines
  import opened Wrappers
  import opened Edits

  function Max(x: int, y: int): int {
    if x < y then y else x
  }

  // ---------- Grouping edits into regions ----------

  /** How far a region reaches: edits up to (not including) `o` and `t` belong to it, base lines up to `end`. */
  datatype Group = Group(o: nat, t: nat, end: int)

  /** The region grown from `end`: any edit of either side that starts inside it, or touches it, joins. */
  function Grow(eo: seq<Edit>, et: seq<Edit>, o: nat, t: nat, end: int): (g: Group)
    requires o <= |eo| && t <= |et|
    ensures o <= g.o <= |eo| && t <= g.t <= |et| && end <= g.end
    ensures g.o < |eo| ==> g.end < eo[g.o].start
    ensures g.t < |et| ==> g.end < et[g.t].start
    decreases |eo| - o + |et| - t
  {
    if o < |eo| && eo[o].start <= end then Grow(eo, et, o + 1, t, Max(end, eo[o].end))
    else if t < |et| && et[t].start <= end then Grow(eo, et, o, t + 1, Max(end, et[t].end))
    else Group(o, t, end)
  }

  /** It does not matter which side's edit joins first. */
  lemma {:induction false} GrowByTheirs(eo: seq<Edit>, et: seq<Edit>, o: nat, t: nat, end: int)
    requires o <= |eo| && t < |et| && et[t].start <= end
    ensures Grow(eo, et, o, t, end) == Grow(eo, et, o, t + 1, Max(end, et[t].end))
    decreases |eo| - o
  {
    if o < |eo| && eo[o].start <= end {
      GrowByTheirs(eo, et, o + 1, t, Max(end, eo[o].end));
      assert Max(Max(end, eo[o].end), et[t].end) == Max(Max(end, et[t].end), eo[o].end);
    }
  }

  lemma {:induction false} GrowSwap(eo: seq<Edit>, et: seq<Edit>, o: nat, t: nat, end: int)
    requires o <= |eo| && t <= |et|
    ensures var g := Grow(eo, et, o, t, end); Grow(et, eo, t, o, end) == Group(g.t, g.o, g.end)
    decreases |eo| - o + |et| - t
  {
    if o < |eo| && eo[o].start <= end {
      GrowByTheirs(et, eo, t, o, end);
      GrowSwap(eo, et, o + 1, t, Max(end, eo[o].end));
    } else if t < |et| && et[t].start <= end {
      GrowSwap(eo, et, o, t + 1, Max(end, et[t].end));
    }
  }

  ghost predicate Covers(es: seq<Edit>, lo: int, hi: int, p: int) {
    exists k :: 0 <= lo <= k < hi <= |es| && es[k].start <= p < es[k].end
  }

  /** A region is tight: each of its base lines is deleted by an edit of one of the sides. */
  lemma {:induction false} GrowTight(eo: seq<Edit>, et: seq<Edit>, o: nat, t: nat, end: int, p: int)
    requires o <= |eo| && t <= |et|
    requires end <= p < Grow(eo, et, o, t, end).end
    ensures var g := Grow(eo, et, o, t, end); Covers(eo, o, g.o, p) || Covers(et, t, g.t, p)
    decreases |eo| - o + |et| - t
  {
    var g := Grow(eo, et, o, t, end);
    if o < |eo| && eo[o].start <= end {
      if p < Max(end, eo[o].end) {
        assert eo[o].start <= p < eo[o].end;
      } else {
        GrowTight(eo, et, o + 1, t, Max(end, eo[o].end), p);
      }
    } else if p < Max(end, et[t].end) {
      assert et[t].start <= p < et[t].end;
    } else {
      GrowTight(eo, et, o, t + 1, Max(end, et[t].end), p);
    }
  }

  lemma {:induction false} GrowEnd(eo: seq<Edit>, et: seq<Edit>, o: nat, t: nat, end: int, limit: int)
    requires o <= |eo| && t <= |et| && end <= limit
    requires forall k :: o <= k < |eo| ==> eo[k].end <= limit
    requires forall k :: t <= k < |et| ==> et[k].end <= limit
    ensures var g := Grow(eo, et, o, t, end);
            && g.end <= limit
            && (forall k :: o <= k < g.o ==> eo[k].end <= g.end)
            && (forall k :: t <= k < g.t ==> et[k].end <= g.end)
    decreases |eo| - o + |et| - t
  {
    if o < |eo| && eo[o].start <= end {
      GrowEnd(eo, et, o + 1, t, Max(end, eo[o].end), limit);
    } else if t < |et| && et[t].start <= end {
      GrowEnd(eo, et, o, t + 1, Max(end, et[t].end), limit);
    }
  }

  // ---------- Chunks ----------

  datatype Chunk = Chunk(base: seq<Line>, ours: seq<Line>, theirs: seq<Line>)

  datatype Side = Base | Ours | Theirs | Merged

  const OURS_MARKER: Line := "<<<<<<< HEAD"
  const DIVIDER: Line := "======="
  const THEIRS_MARKER: Line := ">>>>>>> MERGE_HEAD"

  predicate Conflicting(c: Chunk) {
    c.base != c.ours && c.base != c.theirs && c.ours != c.theirs
  }

  function Text(c: Chunk, side: Side): seq<Line> {
    match side
    case Base => c.base
    case Ours => c.ours
    case Theirs => c.theirs
    case Merged =>
      if Conflicting(c) then [OURS_MARKER] + c.ours + [DIVIDER] + c.theirs + [THEIRS_MARKER]
      else if c.base == c.ours then c.theirs
      else c.ours
  }

  function Assemble(cs: seq<Chunk>, side: Side): seq<Line> {
    if cs == [] then [] else Text(cs[0], side) + Assemble(cs[1..], side)
  }

  predicate HasConflict(cs: seq<Chunk>) {
    exists i :: 0 <= i < |cs| && Conflicting(cs[i])
  }

  function Unchanged(lines: seq<Line>): Chunk {
    Chunk(lines, lines, lines)
  }

  /** Everything before position `at` is behind edit `i`, everything after it is still to come. */
  ghost predicate Pending(base: seq<Line>, es: seq<Edit>, i: nat, at: int) {
    && i <= |es| && 0 <= at <= |base|
    && Within(es[..i], 0, at) && Within(es[i..], at, |base|)
  }

  function NextBase(eo: seq<Edit>, et: seq<Edit>, o: nat, t: nat): int
    requires o <= |eo| && t <= |et| && (o < |eo| || t < |et|)
  {
    if o < |eo| && t < |et| then Min(eo[o].start, et[t].start)
    else if o < |eo| then eo[o].start
    else et[t].start
  }

  lemma {:induction false} WithinCut(es: seq<Edit>, from: int, mid: int, to: int, k: nat)
    requires Within(es, from, to) && k <= |es| && from <= mid <= to
    requires forall j :: 0 <= j < k ==> es[j].end <= mid
    requires k < |es| ==> mid <= es[k].start
    ensures Within(es[..k], from, mid) && Within(es[k..], mid, to)
    decreases k
  {
    if k == 0 {
      assert es[..0] == [] && es[0..] == es;
    } else {
      assert es[..k][0] == es[0] && es[..k][1..] == es[1..][..k - 1] && es[1..][k - 1..] == es[k..];
      forall j | 0 <= j < k - 1
        ensures es[1..][j].end <= mid
      {
        assert es[1..][j] == es[j + 1];
      }
      WithinCut(es[1..], es[0].end, mid, to, k - 1);
    }
  }

  lemma {:induction false} WithinEnds(es: seq<Edit>, from: int, to: int)
    requires Within(es, from, to)
    ensures forall k :: 0 <= k < |es| ==> from <= es[k].start <= es[k].end <= to
  {
    if es != [] {
      WithinEnds(es[1..], es[0].end, to);
      assert forall k :: 1 <= k < |es| ==> es[k] == es[1..][k - 1];
    }
  }

  lemma PendingRange(base: seq<Line>, es: seq<Edit>, i: nat, at: int)
    requires Pending(base, es, i, at)
    ensures i <= |es| && 0 <= at <= |base|
  {
  }

  lemma PendingEnds(base: seq<Line>, es: seq<Edit>, i: nat, at: int)
    requires Pending(base, es, i, at)
    ensures forall k :: i <= k < |es| ==> at <= es[k].start <= es[k].end <= |base|
  {
    WithinEnds(es[i..], at, |base|);
    assert forall k :: i <= k < |es| ==> es[k] == es[i..][k - i];
  }

  /** Moving on to the edits from `k` at position `mid`; those in between lie in base[lo..mid]. */
  lemma PendingAdvance(base: seq<Line>, es: seq<Edit>, i: nat, at: int, lo: int, k: nat, mid: int)
    requires Pending(base, es, i, at) && i <= k <= |es| && at <= lo <= mid <= |base|
    requires i < |es| ==> lo <= es[i].start
    requires forall j :: i <= j < k ==> es[j].end <= mid
    requires k < |es| ==> mid <= es[k].start
    ensures Within(es[i..k], lo, mid) && Pending(base, es, k, mid) && Pending(base, es, i, lo)
  {
    hide Within;
    CutAgain(es, i, k);
    WithinCut(es[i..], at, lo, |base|, 0);
    WithinNext(base, es, i, lo, k, mid);
    WithinLast(es[..i], 0, at, lo);
    WithinSplit(es[..k], 0, lo, mid, i);
  }

  lemma WithinNext(base: seq<Line>, es: seq<Edit>, i: nat, lo: int, k: nat, mid: int)
    requires i <= k <= |es| && Within(es[i..], lo, |base|) && lo <= mid <= |base|
    requires forall j :: i <= j < k ==> es[j].end <= mid
    requires k < |es| ==> mid <= es[k].start
    ensures Within(es[i..k], lo, mid) && Within(es[k..], mid, |base|)
  {
    hide Within;
    CutAgain(es, i, k);
    RestAt(es, i, k, mid);
    WithinCut(es[i..], lo, mid, |base|, k - i);
  }

  lemma RestAt(es: seq<Edit>, i: nat, k: nat, mid: int)
    requires i <= k <= |es| && forall j :: i <= j < k ==> es[j].end <= mid
    ensures forall j :: 0 <= j < k - i ==> es[i..][j].end <= mid
    ensures k < |es| ==> es[i..][k - i] == es[k]
  {
  }

  lemma CutAgain<T>(s: seq<T>, i: nat, k: nat)
    requires i <= k <= |s|
    ensures s[i..][0..] == s[i..] && s[i..][..k - i] == s[i..k] && s[i..][k - i..] == s[k..]
    ensures s[..k][..i] == s[..i] && s[..k][i..] == s[i..k]
  {
  }

  lemma {:induction false} WithinLast(es: seq<Edit>, from: int, to: int, to': int)
    requires Within(es, from, to) && to <= to'
    ensures Within(es, from, to')
  {
    if es != [] {
      WithinLast(es[1..], es[0].end, to, to');
    }
  }

  /** The region grown from the next edit: where it lies and what is left after it. */
  lemma GrowRegion(base: seq<Line>, eo: seq<Edit>, et: seq<Edit>, o: nat, t: nat, at: int)
    requires Pending(base, eo, o, at) && Pending(base, et, t, at) && (o < |eo| || t < |et|)
    ensures var nb := NextBase(eo, et, o, t);
            var g := Grow(eo, et, o, t, nb);
            && at <= nb <= g.end <= |base| && o + t < g.o + g.t
            && Within(eo[o..g.o], nb, g.end) && Within(et[t..g.t], nb, g.end)
            && Pending(base, eo, o, nb) && Pending(base, et, t, nb)
            && Pending(base, eo, g.o, g.end) && Pending(base, et, g.t, g.end)
  {
    PendingEnds(base, eo, o, at);
    PendingEnds(base, et, t, at);
    var nb := NextBase(eo, et, o, t);
    var g := Grow(eo, et, o, t, nb);
    GrowEnd(eo, et, o, t, nb, |base|);
    PendingAdvance(base, eo, o, at, nb, g.o, g.end);
    PendingAdvance(base, et, t, at, nb, g.t, g.end);
  }

  ghost function Region(base: seq<Line>, eo: seq<Edit>, et: seq<Edit>, o: nat, t: nat, lo: int, g: Group): Chunk
    requires o <= g.o <= |eo| && t <= g.t <= |et| && 0 <= lo <= g.end <= |base|
    requires Within(eo[o..g.o], lo, g.end) && Within(et[t..g.t], lo, g.end)
  {
    Chunk(base[lo..g.end], Patch(base, lo, g.end, eo[o..g.o]), Patch(base, lo, g.end, et[t..g.t]))
  }

  /** The rest of the base from `at` on, in chunks: unchanged lines and regions in alternation. */
  ghost function Chunks(base: seq<Line>, eo: seq<Edit>, et: seq<Edit>, o: nat, t: nat, at: int): seq<Chunk>
    requires Pending(base, eo, o, at) && Pending(base, et, t, at)
    decreases |eo| - o + |et| - t
  {
    if o == |eo| && t == |et| then [Unchanged(base[at..])]
    else
      GrowRegion(base, eo, et, o, t, at);
      var nb := NextBase(eo, et, o, t);
      var g := Grow(eo, et, o, t, nb);
      [Unchanged(base[at..nb])] + ([Region(base, eo, et, o, t, nb, g)] + Chunks(base, eo, et, g.o, g.t, g.end))
  }

  lemma StartPending(base: seq<Line>, es: seq<Edit>)
    requires Within(es, 0, |base|)
    ensures Pending(base, es, 0, 0)
  {
    assert es[..0] == [] && es[0..] == es;
  }

  /** All chunks of a merge. */
  ghost function AllChunks(base: seq<Line>, eo: seq<Edit>, et: seq<Edit>): seq<Chunk>
    requires Within(eo, 0, |base|) && Within(et, 0, |base|)
  {
    StartPending(base, eo);
    StartPending(base, et);
    Chunks(base, eo, et, 0, 0, 0)
  }

  // ---------- The chunks are a decomposition of all three texts ----------

  lemma {:induction false} ChunksAligned(base: seq<Line>, eo: seq<Edit>, et: seq<Edit>, o: nat, t: nat, at: int)
    requires Pending(base, eo, o, at) && Pending(base, et, t, at)
    ensures var cs := Chunks(base, eo, et, o, t, at);
            && Assemble(cs, Base) == base[at..]
            && Assemble(cs, Ours) == Patch(base, at, |base|, eo[o..])
            && Assemble(cs, Theirs) == Patch(base, at, |base|, et[t..])
    decreases |eo| - o + |et| - t
  {
    hide Grow, NextBase, Pending, Within, Patch, Assemble, Conflicting;
    PendingRange(base, eo, o, at);
    PendingRange(base, et, t, at);
    if o == |eo| && t == |et| {
      AssembleOne(Unchanged(base[at..]));
      PatchNothing(base, at, eo);
      PatchNothing(base, at, et);
    } else {
      GrowRegion(base, eo, et, o, t, at);
      var nb := NextBase(eo, et, o, t);
      var g := Grow(eo, et, o, t, nb);
      var stable, region := Unchanged(base[at..nb]), Region(base, eo, et, o, t, nb, g);
      var rest := Chunks(base, eo, et, g.o, g.t, g.end);
      ChunksAligned(base, eo, et, g.o, g.t, g.end);
      AssembleCons(stable, [region] + rest);
      AssembleCons(region, rest);
      RestOfBase(base, at, nb, g.end);
      RegionPatch(base, eo, o, at, nb, g.o, g.end);
      RegionPatch(base, et, t, at, nb, g.t, g.end);
    }
  }

  lemma PatchNothing(base: seq<Line>, at: int, es: seq<Edit>)
    requires 0 <= at <= |base|
    ensures Within(es[|es|..], at, |base|) && Patch(base, at, |base|, es[|es|..]) == base[at..]
  {
    assert es[|es|..] == [] && base[at..|base|] == base[at..];
  }

  lemma RestOfBase(base: seq<Line>, at: int, lo: int, hi: int)
    requires 0 <= at <= lo <= hi <= |base|
    ensures base[at..lo] + (base[lo..hi] + base[hi..]) == base[at..]
  {
  }

  lemma AssembleOne(c: Chunk)
    ensures forall side :: Assemble([c], side) == Text(c, side)
  {
    assert [c][1..] == [];
  }

  lemma AssembleCons(c: Chunk, cs: seq<Chunk>)
    ensures forall side :: Assemble([c] + cs, side) == Text(c, side) + Assemble(cs, side)
  {
    assert ([c] + cs)[1..] == cs;
  }

  lemma RegionPatch(base: seq<Line>, es: seq<Edit>, i: nat, at: int, lo: int, k: nat, hi: int)
    requires Pending(base, es, i, at) && Pending(base, es, i, lo) && Pending(base, es, k, hi)
    requires at <= lo <= hi && i <= k && Within(es[i..k], lo, hi)
    ensures Patch(base, at, |base|, es[i..])
         == base[at..lo] + (Patch(base, lo, hi, es[i..k]) + Patch(base, hi, |base|, es[k..]))
  {
    hide Patch;
    PatchSkip(base, at, lo, |base|, es[i..]);
    assert es[i..][..k - i] == es[i..k] && es[i..][k - i..] == es[k..];
    PatchSplit(base, lo, hi, |base|, es[i..], k - i);
  }

  /** Base, ours and theirs are the concatenations of their chunks. */
  lemma Decomposition(base: seq<Line>, eo: seq<Edit>, et: seq<Edit>)
    requires Within(eo, 0, |base|) && Within(et, 0, |base|)
    ensures Assemble(AllChunks(base, eo, et), Base) == base
    ensures Assemble(AllChunks(base, eo, et), Ours) == Patch(base, 0, |base|, eo)
    ensures Assemble(AllChunks(base, eo, et), Theirs) == Patch(base, 0, |base|, et)
  {
    hide Patch, Assemble;
    StartPending(base, eo);
    StartPending(base, et);
    ChunksAligned(base, eo, et, 0, 0, 0);
    assert base[0..] == base && eo[0..] == eo && et[0..] == et;
  }

  /**
   Unchanged chunks and regions alternate; a region is really changed by a side that has an
   edit in it, and unchanged lines separate any two regions.
   */
  ghost predicate Alternates(cs: seq<Chunk>, first: bool) {
    && cs != [] && cs[0].base == cs[0].ours == cs[0].theirs
    && (!first && |cs| > 1 ==> cs[0].base != [])
    && (|cs| > 1 ==> (cs[1].base != cs[1].ours || cs[1].base != cs[1].theirs) && Alternates(cs[2..], false))
  }

  /** No run of edits of a shortest list rebuilds the very base lines it replaces. */
  lemma RegionChanged(base: seq<Line>, es: seq<Edit>, i: nat, lo: int, k: nat, hi: int)
    requires NormalForm(base, es) && i < k && lo <= hi
    requires Pending(base, es, i, lo) && Pending(base, es, k, hi) && Within(es[i..k], lo, hi)
    ensures Patch(base, lo, hi, es[i..k]) != base[lo..hi]
  {
    hide Dist, Pending, Patch, Within;
    PendingRange(base, es, i, lo);
    PendingRange(base, es, k, hi);
    if Patch(base, lo, hi, es[i..k]) == base[lo..hi] {
      var fewer := es[..i] + es[k..];
      SameWithout(base, es, i, lo, k, hi);
      EditsCostAtLeast(base, fewer);
      CostWithout(es, i, k);
      RunCost(es, i, lo, k, hi);
    }
  }

  lemma RunCost(es: seq<Edit>, i: nat, lo: int, k: nat, hi: int)
    requires Separated(es) && i < k <= |es| && Within(es[i..k], lo, hi)
    ensures 0 < EditsCost(es[i..k])
  {
    assert forall j :: 0 <= j < k - i ==> es[i..k][j] == es[i + j];
    EditsCostPositive(es[i..k], lo, hi);
  }

  lemma CostWithout(es: seq<Edit>, i: nat, k: nat)
    requires i <= k <= |es|
    ensures EditsCost(es) == EditsCost(es[..i] + es[k..]) + EditsCost(es[i..k])
  {
    hide EditsCost;
    var p, q, r := es[..i], es[i..k], es[k..];
    ThreeParts(es, i, k);
    EditsCostConcat(p, r);
    EditsCostConcat(p, q + r);
    EditsCostConcat(q, r);
  }

  lemma ThreeParts<T>(s: seq<T>, i: nat, k: nat)
    requires i <= k <= |s|
    ensures s == s[..i] + (s[i..k] + s[k..])
  {
  }

  /** Leaving out edits that rebuild what they replace does not change the text. */
  lemma SameWithout(base: seq<Line>, es: seq<Edit>, i: nat, lo: int, k: nat, hi: int)
    requires Pending(base, es, i, lo) && Pending(base, es, k, hi) && i <= k && lo <= hi
    requires Within(es[i..k], lo, hi) && Patch(base, lo, hi, es[i..k]) == base[lo..hi]
    ensures Within(es, 0, |base|) && Within(es[..i] + es[k..], 0, |base|)
    ensures Patch(base, 0, |base|, es[..i] + es[k..]) == Patch(base, 0, |base|, es)
  {
    var fewer := es[..i] + es[k..];
    assert fewer[..i] == es[..i] && fewer[i..] == es[k..];
    PendingSkip(base, es, i, lo, k, hi);
    hide Patch, Within;
    PatchSplit(base, 0, lo, |base|, fewer, i);
    PatchSplit(base, 0, lo, |base|, es, i);
  }

  lemma PendingSkip(base: seq<Line>, es: seq<Edit>, i: nat, lo: int, k: nat, hi: int)
    requires Pending(base, es, i, lo) && Pending(base, es, k, hi) && i <= k && lo <= hi
    requires Within(es[i..k], lo, hi) && Patch(base, lo, hi, es[i..k]) == base[lo..hi]
    ensures Within(es[k..], lo, |base|)
    ensures Patch(base, lo, |base|, es[k..]) == Patch(base, lo, |base|, es[i..])
  {
    hide Patch;
    WithinLower(es[k..], lo, hi, |base|);
    PatchSkip(base, lo, hi, |base|, es[k..]);
    assert es[i..][..k - i] == es[i..k] && es[i..][k - i..] == es[k..];
    PatchSplit(base, lo, hi, |base|, es[i..], k - i);
  }

  lemma {:induction false} ChunksAlternate(
    base: seq<Line>, eo: seq<Edit>, et: seq<Edit>, o: nat, t: nat, at: int, first: bool)
    requires NormalForm(base, eo) && NormalForm(base, et)
    requires Pending(base, eo, o, at) && Pending(base, et, t, at)
    requires !first ==> (o < |eo| ==> at < eo[o].start) && (t < |et| ==> at < et[t].start)
    ensures Alternates(Chunks(base, eo, et, o, t, at), first)
    decreases |eo| - o + |et| - t
  {
    hide Pending, Within, Patch, NormalForm, Grow, Alternates;
    PendingRange(base, eo, o, at);
    PendingRange(base, et, t, at);
    if o == |eo| && t == |et| {
      AlternatesOne(base[at..]);
    } else {
      GrowRegion(base, eo, et, o, t, at);
      var nb := NextBase(eo, et, o, t);
      var g := Grow(eo, et, o, t, nb);
      if o < g.o {
        RegionChanged(base, eo, o, nb, g.o, g.end);
      }
      if t < g.t {
        RegionChanged(base, et, t, nb, g.t, g.end);
      }
      ChunksAlternate(base, eo, et, g.o, g.t, g.end, false);
      var rest := Chunks(base, eo, et, g.o, g.t, g.end);
      AlternatesCons(Unchanged(base[at..nb]), Region(base, eo, et, o, t, nb, g), rest, first);
    }
  }

  lemma AlternatesOne(lines: seq<Line>)
    ensures Alternates([Unchanged(lines)], true) && Alternates([Unchanged(lines)], false)
  {
  }

  lemma AlternatesCons(stable: Chunk, region: Chunk, rest: seq<Chunk>, first: bool)
    requires stable.base == stable.ours == stable.theirs && (!first ==> stable.base != [])
    requires region.base != region.ours || region.base != region.theirs
    requires Alternates(rest, false)
    ensures Alternates([stable] + ([region] + rest), first)
  {
    assert ([stable] + ([region] + rest))[2..] == rest;
  }

  // ---------- Symmetry ----------

  function Swap(c: Chunk): Chunk {
    Chunk(c.base, c.theirs, c.ours)
  }

  ghost predicate Swapped(cs: seq<Chunk>, cs': seq<Chunk>) {
    |cs| == |cs'| && forall i :: 0 <= i < |cs| ==> cs'[i] == Swap(cs[i])
  }

  lemma {:induction false} ChunksSwap(base: seq<Line>, eo: seq<Edit>, et: seq<Edit>, o: nat, t: nat, at: int)
    requires Pending(base, eo, o, at) && Pending(base, et, t, at)
    ensures Swapped(Chunks(base, eo, et, o, t, at), Chunks(base, et, eo, t, o, at))
    decreases |eo| - o + |et| - t
  {
    hide Pending, Within, Patch, Grow;
    PendingRange(base, eo, o, at);
    PendingRange(base, et, t, at);
    if o < |eo| || t < |et| {
      GrowRegion(base, eo, et, o, t, at);
      var nb := NextBase(eo, et, o, t);
      var g := Grow(eo, et, o, t, nb);
      GrowSwap(eo, et, o, t, nb);
      ChunksSwap(base, eo, et, g.o, g.t, g.end);
      SwappedCons(Region(base, eo, et, o, t, nb, g), Chunks(base, eo, et, g.o, g.t, g.end),
                  Region(base, et, eo, t, o, nb, Group(g.t, g.o, g.end)), Chunks(base, et, eo, g.t, g.o, g.end));
      SwappedCons(Unchanged(base[at..nb]), [Region(base, eo, et, o, t, nb, g)] + Chunks(base, eo, et, g.o, g.t, g.end),
                  Unchanged(base[at..nb]),
                  [Region(base, et, eo, t, o, nb, Group(g.t, g.o, g.end))] + Chunks(base, et, eo, g.t, g.o, g.end));
    }
  }

  lemma SwappedCons(c: Chunk, cs: seq<Chunk>, c': Chunk, cs': seq<Chunk>)
    requires c' == Swap(c) && Swapped(cs, cs')
    ensures Swapped([c] + cs, [c'] + cs')
  {
  }

  lemma {:induction false} SwappedAssemble(cs: seq<Chunk>, cs': seq<Chunk>)
    requires Swapped(cs, cs') && !HasConflict(cs)
    ensures Assemble(cs', Merged) == Assemble(cs, Merged)
  {
    if cs != [] {
      assert forall i :: 0 <= i < |cs| - 1 ==> cs[1..][i] == cs[i + 1] && cs'[1..][i] == cs'[i + 1];
      assert !Conflicting(cs[0]);
      SwappedAssemble(cs[1..], cs'[1..]);
    }
  }

  lemma SwappedConflict(cs: seq<Chunk>, cs': seq<Chunk>)
    requires Swapped(cs, cs')
    ensures HasConflict(cs') == HasConflict(cs)
  {
    forall i | 0 <= i < |cs|
      ensures Conflicting(cs'[i]) == Conflicting(cs[i])
    {
    }
  }

  // ---------- Merging texts ----------

  /** The chunks of three texts. */
  ghost function ChunksOf(base: seq<Line>, ours: seq<Line>, theirs: seq<Line>): seq<Chunk> {
    EditsOfNormal(base, ours);
    EditsOfNormal(base, theirs);
    AllChunks(base, EditsOf(base, ours), EditsOf(base, theirs))
  }

  /** The merge of three texts, without any shortcut. */
  ghost function MergeText(base: string, ours: string, theirs: string): (string, bool) {
    var cs := ChunksOf(Lines.Split(base, '\n'), Lines.Split(ours, '\n'), Lines.Split(theirs, '\n'));
    (Lines.Join(Assemble(cs, Merged), '\n'), HasConflict(cs))
  }

  /**
   diff3: the three texts are the concatenations of aligned chunks, in which lines nobody
   changed separate the regions somebody changed.
   */
  lemma MergeDecomposition(base: seq<Line>, ours: seq<Line>, theirs: seq<Line>)
    ensures var cs := ChunksOf(base, ours, theirs);
            && Assemble(cs, Base) == base && Assemble(cs, Ours) == ours && Assemble(cs, Theirs) == theirs
            && Alternates(cs, true)
  {
    hide Diffs, Dist, Patch, Assemble, Alternates;
    var eo, et := EditsOf(base, ours), EditsOf(base, theirs);
    EditsOfNormal(base, ours);
    EditsOfNormal(base, theirs);
    Decomposition(base, eo, et);
    StartPending(base, eo);
    StartPending(base, et);
    ChunksAlternate(base, eo, et, 0, 0, 0, true);
  }

  /** Swapping the sides swaps them in every chunk, and nothing else. */
  lemma MergeChunksSwap(base: seq<Line>, ours: seq<Line>, theirs: seq<Line>)
    ensures Swapped(ChunksOf(base, ours, theirs), ChunksOf(base, theirs, ours))
  {
    hide Diffs, Dist, Swapped, Patch, Chunks;
    EditsOfNormal(base, ours);
    EditsOfNormal(base, theirs);
    var eo, et := EditsOf(base, ours), EditsOf(base, theirs);
    StartPending(base, eo);
    StartPending(base, et);
    ChunksSwap(base, eo, et, 0, 0, 0);
  }

  /** Merging is symmetric: the same conflicts, and the same text unless there are any. */
  lemma MergeSymmetric(base: string, ours: string, theirs: string)
    ensures MergeText(base, theirs, ours).1 == MergeText(base, ours, theirs).1
    ensures !MergeText(base, ours, theirs).1 ==> MergeText(base, theirs, ours) == MergeText(base, ours, theirs)
  {
    hide ChunksOf, Assemble, HasConflict, Swapped;
    var b, o, t := Lines.Split(base, '\n'), Lines.Split(ours, '\n'), Lines.Split(theirs, '\n');
    MergeChunksSwap(b, o, t);
    SwappedConflict(ChunksOf(b, o, t), ChunksOf(b, t, o));
    if !HasConflict(ChunksOf(b, o, t)) {
      SwappedAssemble(ChunksOf(b, o, t), ChunksOf(b, t, o));
    }
  }

  /** Equal sides are taken as they are. */
  lemma MergeEqual(base: string, text: string)
    ensures MergeText(base, text, text) == (text, false)
  {
    hide ChunksOf, Assemble;
    var b, x := Lines.Split(base, '\n'), Lines.Split(text, '\n');
    var cs := ChunksOf(b, x, x);
    MergeChunksSwap(b, x, x);
    MergeDecomposition(b, x, x);
    forall i | 0 <= i < |cs|
      ensures cs[i].ours == cs[i].theirs
    {
      assert cs[i] == Swap(cs[i]);
    }
    AssembleSame(cs, Ours);
    Lines.JoinSplit(text, '\n');
  }

  /** The chunks' merged text is one side's text wherever that is so chunk by chunk. */
  lemma {:induction false} AssembleSame(cs: seq<Chunk>, side: Side)
    requires forall i :: 0 <= i < |cs| ==> Text(cs[i], Merged) == Text(cs[i], side)
    ensures Assemble(cs, Merged) == Assemble(cs, side)
  {
    if cs != [] {
      assert forall i :: 0 <= i < |cs| - 1 ==> cs[1..][i] == cs[i + 1];
      AssembleSame(cs[1..], side);
    }
  }

  /** If one side is the base, the other side is the result. */
  lemma MergeUnchanged(base: string, text: string)
    ensures MergeText(base, base, text) == (text, false)
    ensures MergeText(base, text, base) == (text, false)
  {
    hide ChunksOf, Assemble, Swapped, HasConflict;
    var b, x := Lines.Split(base, '\n'), Lines.Split(text, '\n');
    var cs := ChunksOf(b, b, x);
    OursUnchanged(b, x);
    MergeDecomposition(b, b, x);
    NoConflictOnBase(cs);
    AssembleSame(cs, Theirs);
    Lines.JoinSplit(text, '\n');
    MergeSymmetric(base, base, text);
  }

  ghost predicate OursIsBase(cs: seq<Chunk>) {
    forall i :: 0 <= i < |cs| ==> cs[i].base == cs[i].ours
  }

  lemma NoConflictOnBase(cs: seq<Chunk>)
    requires OursIsBase(cs)
    ensures !HasConflict(cs)
    ensures forall i :: 0 <= i < |cs| ==> Text(cs[i], Merged) == Text(cs[i], Theirs)
  {
  }

  lemma OursUnchanged(base: seq<Line>, theirs: seq<Line>)
    ensures OursIsBase(ChunksOf(base, base, theirs))
  {
    hide Diffs, Dist, Patch, Chunks, OursIsBase;
    EditsOfNormal(base, base);
    EditsOfNormal(base, theirs);
    NoEdits(base);
    var eo, et := EditsOf(base, base), EditsOf(base, theirs);
    StartPending(base, eo);
    StartPending(base, et);
    NoOurs(base, et, 0, 0);
  }

  lemma NoEdits(base: seq<Line>)
    ensures EditsOf(base, base) == []
  {
    hide Diffs, Dist, Patch;
    var es := EditsOf(base, base);
    EditsOfNormal(base, base);
    if es != [] {
      var keep := Diff(EQUAL, base);
      ScriptSingle(keep);
      assert Transforms([keep], base, base);
      EditDistanceIsLeast(base, base);
      EditsCostPositive(es, 0, |base|);
    }
  }

  lemma {:induction false} NoOurs(base: seq<Line>, et: seq<Edit>, t: nat, at: int)
    requires Pending(base, [], 0, at) && Pending(base, et, t, at)
    ensures OursIsBase(Chunks(base, [], et, 0, t, at))
    decreases |et| - t
  {
    hide Pending, Within, Grow;
    PendingRange(base, et, t, at);
    if t < |et| {
      GrowRegion(base, [], et, 0, t, at);
      var nb := NextBase([], et, 0, t);
      var g := Grow([], et, 0, t, nb);
      NoOurs(base, et, g.t, g.end);
      var none: seq<Edit> := [];
      assert none[0..g.o] == [];
      OursIsBaseCons(Region(base, [], et, 0, t, nb, g), Chunks(base, [], et, g.o, g.t, g.end));
      var rest := Chunks(base, [], et, g.o, g.t, g.end);
      OursIsBaseCons(Unchanged(base[at..nb]), [Region(base, [], et, 0, t, nb, g)] + rest);
    }
  }

  lemma OursIsBaseCons(c: Chunk, cs: seq<Chunk>)
    requires c.base == c.ours && OursIsBase(cs)
    ensures OursIsBase([c] + cs)
  {
  }

  // ---------- The algorithm ----------

  method DiffToEdits(diffs: seq<Diff<Line>>) returns (edits: seq<Edit>)
    ensures edits == ToEdits(diffs, 0, None)
  {
    edits := [];
    var baseIdx := 0;
    var currentEdit: Option<Edit> := None;
    for i := 0 to |diffs|
      invariant edits + ToEdits(diffs[i..], baseIdx, currentEdit) == ToEdits(diffs, 0, None)
    {
      var d := diffs[i];
      assert diffs[i..][0] == d && diffs[i..][1..] == diffs[i + 1..];
      match d.operation
      case EQUAL =>
        if currentEdit.Some? {
          edits := edits + [currentEdit.value];
          currentEdit := None;
        }
        baseIdx := baseIdx + |d.text|;
      case DELETE =>
        currentEdit := Some(Deleted(currentEdit, baseIdx, |d.text|));
        baseIdx := baseIdx + |d.text|;
      case INSERT =>
        currentEdit := Some(Inserted(currentEdit, baseIdx, d.text));
    }
    assert diffs[|diffs|..] == [];
    if currentEdit.Some? {
      edits := edits + [currentEdit.value];
    }
  }

  method CopyLines(result: seq<Line>, baseLines: seq<Line>, from: int, to: int) returns (res: seq<Line>)
    requires 0 <= from <= to <= |baseLines|
    ensures res == result + baseLines[from..to]
  {
    res := result;
    for i := from to to
      invariant res == result + baseLines[from..i]
    {
      res := res + [baseLines[i]];
    }
  }

  method BuildRegion(baseLines: seq<Line>, start: int, end: int, edits: seq<Edit>) returns (res: seq<Line>)
    requires 0 <= start && end <= |baseLines| && Within(edits, start, end)
    ensures res == Patch(baseLines, start, end, edits)
  {
    res := [];
    var bIdx := start;
    for i := 0 to |edits|
      invariant start <= bIdx <= end && Within(edits[i..], bIdx, end)
      invariant res + Patch(baseLines, bIdx, end, edits[i..]) == Patch(baseLines, start, end, edits)
    {
      var e := edits[i];
      assert edits[i..][0] == e && edits[i..][1..] == edits[i + 1..];
      WithinEnd(edits[i + 1..], e.end, end);
      Regroup(res, baseLines[bIdx..e.start] + e.lines, Patch(baseLines, e.end, end, edits[i + 1..]));
      Regroup(res, baseLines[bIdx..e.start], e.lines);
      res := CopyLines(res, baseLines, bIdx, e.start);
      res := res + e.lines;
      bIdx := e.end;
    }
    res := CopyLines(res, baseLines, bIdx, end);
    assert edits[|edits|..] == [];
  }

  method SlicesEqual(a: seq<Line>, b: seq<Line>) returns (equal: bool)
    ensures equal == (a == b)
  {
    if |a| != |b| {
      return false;
    }
    for i := 0 to |a|
      invariant a[..i] == b[..i]
    {
      if a[i] != b[i] {
        return false;
      }
    }
    return true;
  }

  /** Groups the edits that overlap or touch, trying ours first in every round. */
  method GroupRegion(eo: seq<Edit>, et: seq<Edit>, o: nat, t: nat, nextBase: int)
    returns (oIdx: nat, tIdx: nat, regionEnd: int)
    requires o <= |eo| && t <= |et|
    ensures Grow(eo, et, o, t, nextBase) == Group(oIdx, tIdx, regionEnd)
  {
    oIdx, tIdx, regionEnd := o, t, nextBase;
    var expanded := true;
    while expanded
      invariant oIdx <= |eo| && tIdx <= |et|
      invariant Grow(eo, et, oIdx, tIdx, regionEnd) == Grow(eo, et, o, t, nextBase)
      invariant !expanded ==> Grow(eo, et, oIdx, tIdx, regionEnd) == Group(oIdx, tIdx, regionEnd)
      decreases |eo| - oIdx + |et| - tIdx, expanded
    {
      expanded := false;
      if oIdx < |eo| && eo[oIdx].start <= regionEnd {
        if eo[oIdx].end > regionEnd {
          regionEnd := eo[oIdx].end;
        }
        oIdx := oIdx + 1;
        expanded := true;
      }
      if tIdx < |et| && et[tIdx].start <= regionEnd {
        GrowByTheirs(eo, et, oIdx, tIdx, regionEnd);
        if et[tIdx].end > regionEnd {
          regionEnd := et[tIdx].end;
        }
        tIdx := tIdx + 1;
        expanded := true;
      }
    }
  }

  /** What one pass of the walk adds: the unchanged lines, then the resolved region. */
  method ResolveRegion(baseLines: seq<Line>, eo: seq<Edit>, et: seq<Edit>, o: nat, t: nat, o': nat, t': nat,
                       regionStart: int, regionEnd: int)
    returns (lines: seq<Line>, conflict: bool)
    requires NormalForm(baseLines, eo) && NormalForm(baseLines, et)
    requires Pending(baseLines, eo, o, regionStart) && Pending(baseLines, et, t, regionStart)
    requires Pending(baseLines, eo, o', regionEnd) && Pending(baseLines, et, t', regionEnd)
    requires o <= o' && t <= t' && o + t < o' + t' && regionStart <= regionEnd
    requires Within(eo[o..o'], regionStart, regionEnd) && Within(et[t..t'], regionStart, regionEnd)
    requires t == t' ==> OneEdit(eo, o, o', regionStart, regionEnd)
    requires o == o' ==> OneEdit(et, t, t', regionStart, regionEnd)
    ensures var c := Region(baseLines, eo, et, o, t, regionStart, Group(o', t', regionEnd));
            lines == Text(c, Merged) && conflict == Conflicting(c)
  {
    hide Pending, NormalForm, Within, Patch;
    PendingRange(baseLines, eo, o, regionStart);
    PendingRange(baseLines, eo, o', regionEnd);
    PendingRange(baseLines, et, t', regionEnd);
    conflict := false;
    if o < o' {
      RegionChanged(baseLines, eo, o, regionStart, o', regionEnd);
    }
    if t < t' {
      RegionChanged(baseLines, et, t, regionStart, t', regionEnd);
    }
    if o < o' && t == t' {
      OneEditPatch(baseLines, eo, o, o', regionStart, regionEnd);
      PatchNone(baseLines, et, t, regionStart, regionEnd);
      lines := eo[o].lines;
    } else if t < t' && o == o' {
      OneEditPatch(baseLines, et, t, t', regionStart, regionEnd);
      PatchNone(baseLines, eo, o, regionStart, regionEnd);
      lines := et[t].lines;
    } else {
      var oStr := BuildRegion(baseLines, regionStart, regionEnd, eo[o..o']);
      var tStr := BuildRegion(baseLines, regionStart, regionEnd, et[t..t']);
      var same := SlicesEqual(oStr, tStr);
      if same {
        lines := oStr;
      } else {
        conflict := true;
        lines := [OURS_MARKER] + oStr + [DIVIDER] + tStr + [THEIRS_MARKER];
      }
    }
  }

  lemma PatchNone(base: seq<Line>, es: seq<Edit>, i: nat, lo: int, hi: int)
    requires 0 <= lo <= hi <= |base| && i <= |es| && Within(es[i..i], lo, hi)
    ensures Patch(base, lo, hi, es[i..i]) == base[lo..hi]
  {
  }

  ghost predicate OneEdit(es: seq<Edit>, i: nat, k: nat, lo: int, hi: int) {
    k == i + 1 && k <= |es| && es[i].start == lo && es[i].end == hi
  }

  lemma OneEditPatch(base: seq<Line>, es: seq<Edit>, i: nat, k: nat, lo: int, hi: int)
    requires OneEdit(es, i, k, lo, hi) && 0 <= lo && hi <= |base| && Within(es[i..k], lo, hi)
    ensures Patch(base, lo, hi, es[i..k]) == es[i].lines
  {
    assert es[i..k] == [es[i]] && es[i..k][1..] == [];
    assert base[lo..lo] == [] && base[hi..hi] == [];
  }

  /**
   A region that only one side touches holds exactly one edit, which spans it: the next edit
   of that side starts beyond a base line that nobody changed.
   */
  lemma {:induction false} LoneEdit(base: seq<Line>, eo: seq<Edit>, et: seq<Edit>, o: nat, t: nat)
    requires Separated(eo) && Separated(et) && o <= |eo| && t <= |et| && (o < |eo| || t < |et|)
    requires forall k :: 0 <= k < |eo| ==> eo[k].start <= eo[k].end
    requires forall k :: 0 <= k < |et| ==> et[k].start <= et[k].end
    ensures var nb := NextBase(eo, et, o, t);
            var g := Grow(eo, et, o, t, nb);
            && (g.t == t ==> OneEdit(eo, o, g.o, nb, g.end))
            && (g.o == o ==> OneEdit(et, t, g.t, nb, g.end))
  {
    hide Grow, Separated;
    FirstJoins(eo, et, o, t);
    if o < |eo| && eo[o].start == NextBase(eo, et, o, t) {
      AloneFrom(eo, et, o + 1, t, eo[o].end);
    } else {
      AloneFrom(eo, et, o, t + 1, et[t].end);
    }
  }

  lemma FirstJoins(eo: seq<Edit>, et: seq<Edit>, o: nat, t: nat)
    requires o <= |eo| && t <= |et| && (o < |eo| || t < |et|)
    requires o < |eo| ==> eo[o].start <= eo[o].end
    requires t < |et| ==> et[t].start <= et[t].end
    ensures var nb := NextBase(eo, et, o, t);
            Grow(eo, et, o, t, nb) ==
              if o < |eo| && eo[o].start == nb then Grow(eo, et, o + 1, t, eo[o].end)
              else Grow(eo, et, o, t + 1, et[t].end)
    ensures var nb := NextBase(eo, et, o, t);
            (o < |eo| && eo[o].start == nb) || (t < |et| && et[t].start == nb)
  {
  }

  /** Behind an edit of one side only an edit of the other can join. */
  lemma AloneFrom(eo: seq<Edit>, et: seq<Edit>, o: nat, t: nat, end: int)
    requires Separated(eo) && Separated(et) && o <= |eo| && t <= |et|
    requires forall k :: 0 <= k < |eo| ==> eo[k].start <= eo[k].end
    requires forall k :: 0 <= k < |et| ==> et[k].start <= et[k].end
    ensures var g := Grow(eo, et, o, t, end);
            && (o > 0 && end == eo[o - 1].end && g.t == t ==> g == Group(o, t, end))
            && (t > 0 && end == et[t - 1].end && g.o == o ==> g == Group(o, t, end))
  {
  }

  method Merge3(base: string, ours: string, theirs: string) returns (text: string, conflict: bool)
    ensures (text, conflict) == MergeText(base, ours, theirs)
  {
    hide Diffs, Dist, ToEdits, Patch, Chunks, NormalForm, Assemble, HasConflict;
    if ours == theirs {
      MergeEqual(base, ours);
      return ours, false;
    }
    if base == ours {
      MergeUnchanged(base, theirs);
      return theirs, false;
    }
    if base == theirs {
      MergeUnchanged(base, ours);
      return ours, false;
    }
    var baseLines := Lines.Split(base, '\n');
    var oursLines := Lines.Split(ours, '\n');
    var theirsLines := Lines.Split(theirs, '\n');
    var oursDiffs := LineDiff.DiffLines(baseLines, oursLines);
    var theirsDiffs := LineDiff.DiffLines(baseLines, theirsLines);
    var oursEdits := DiffToEdits(oursDiffs);
    var theirsEdits := DiffToEdits(theirsDiffs);
    EditsOfNormal(baseLines, oursLines);
    EditsOfNormal(baseLines, theirsLines);
    var result;
    result, conflict := Walk(baseLines, oursEdits, theirsEdits);
    text := Lines.Join(result, '\n');
  }

  /** The walk over both edit lists. */
  method Walk(baseLines: seq<Line>, oursEdits: seq<Edit>, theirsEdits: seq<Edit>)
    returns (result: seq<Line>, conflict: bool)
    requires NormalForm(baseLines, oursEdits) && NormalForm(baseLines, theirsEdits)
    ensures result == Assemble(AllChunks(baseLines, oursEdits, theirsEdits), Merged)
    ensures conflict == HasConflict(AllChunks(baseLines, oursEdits, theirsEdits))
  {
    hide Within, Patch, Chunks, Assemble, HasConflict, Pending, NormalForm, Separated;
    WalkStart(baseLines, oursEdits);
    WalkStart(baseLines, theirsEdits);
    ghost var all := AllChunks(baseLines, oursEdits, theirsEdits);
    result := [];
    conflict := false;
    var baseIdx := 0;
    var oIdx: nat, tIdx: nat := 0, 0;
    assert [] + Assemble(all, Merged) == Assemble(all, Merged);
    while oIdx < |oursEdits| || tIdx < |theirsEdits|
      invariant Pending(baseLines, oursEdits, oIdx, baseIdx) && Pending(baseLines, theirsEdits, tIdx, baseIdx)
      invariant oIdx <= |oursEdits| && tIdx <= |theirsEdits| && 0 <= baseIdx <= |baseLines|
      invariant result + Assemble(Chunks(baseLines, oursEdits, theirsEdits, oIdx, tIdx, baseIdx), Merged)
             == Assemble(all, Merged)
      invariant (conflict || HasConflict(Chunks(baseLines, oursEdits, theirsEdits, oIdx, tIdx, baseIdx)))
             == HasConflict(all)
      decreases |oursEdits| - oIdx + |theirsEdits| - tIdx
    {
      var nextBase := NextBase(oursEdits, theirsEdits, oIdx, tIdx);
      GrowRegion(baseLines, oursEdits, theirsEdits, oIdx, tIdx, baseIdx);
      LoneEdit(baseLines, oursEdits, theirsEdits, oIdx, tIdx);
      WalkStep(baseLines, oursEdits, theirsEdits, oIdx, tIdx, baseIdx, result, conflict);
      result := CopyLines(result, baseLines, baseIdx, nextBase);
      var o', t', regionEnd := GroupRegion(oursEdits, theirsEdits, oIdx, tIdx, nextBase);
      var lines, clash := ResolveRegion(baseLines, oursEdits, theirsEdits, oIdx, tIdx, o', t', nextBase, regionEnd);
      result := result + lines;
      conflict := conflict || clash;
      oIdx, tIdx, baseIdx := o', t', regionEnd;
    }
    WalkEnd(baseLines, oursEdits, theirsEdits, baseIdx);
    result := CopyLines(result, baseLines, baseIdx, |baseLines|);
    assert baseLines[baseIdx..|baseLines|] == baseLines[baseIdx..];
  }

  lemma WalkStart(base: seq<Line>, es: seq<Edit>)
    requires NormalForm(base, es)
    ensures Within(es, 0, |base|) && Separated(es) && Pending(base, es, 0, 0)
    ensures forall k :: 0 <= k < |es| ==> es[k].start <= es[k].end
  {
    StartPending(base, es);
    WithinEnds(es, 0, |base|);
  }

  /** One pass of the walk against the chunk list. */
  lemma WalkStep(base: seq<Line>, eo: seq<Edit>, et: seq<Edit>, o: nat, t: nat, at: int, before: seq<Line>,
                 conflict: bool)
    requires Pending(base, eo, o, at) && Pending(base, et, t, at) && (o < |eo| || t < |et|)
    requires var nb := NextBase(eo, et, o, t);
             var g := Grow(eo, et, o, t, nb);
             && 0 <= at <= nb <= g.end <= |base|
             && Within(eo[o..g.o], nb, g.end) && Within(et[t..g.t], nb, g.end)
             && Pending(base, eo, g.o, g.end) && Pending(base, et, g.t, g.end)
    ensures var nb := NextBase(eo, et, o, t);
            var g := Grow(eo, et, o, t, nb);
            var c := Region(base, eo, et, o, t, nb, g);
            var rest := Chunks(base, eo, et, g.o, g.t, g.end);
            var cs := Chunks(base, eo, et, o, t, at);
            && before + base[at..nb] + Text(c, Merged) + Assemble(rest, Merged) == before + Assemble(cs, Merged)
            && HasConflict(cs) == (Conflicting(c) || HasConflict(rest))
  {
    hide Pending, Within, Patch, Grow, NextBase, HasConflict, Assemble;
    var nb := NextBase(eo, et, o, t);
    var g := Grow(eo, et, o, t, nb);
    var c := Region(base, eo, et, o, t, nb, g);
    var rest := Chunks(base, eo, et, g.o, g.t, g.end);
    AssembleCons(Unchanged(base[at..nb]), [c] + rest);
    AssembleCons(c, rest);
    HasConflictCons(Unchanged(base[at..nb]), [c] + rest);
    HasConflictCons(c, rest);
    Regroup(before, base[at..nb], Text(c, Merged) + Assemble(rest, Merged));
    Regroup(before + base[at..nb], Text(c, Merged), Assemble(rest, Merged));
  }

  lemma WalkEnd(base: seq<Line>, eo: seq<Edit>, et: seq<Edit>, at: int)
    requires Pending(base, eo, |eo|, at) && Pending(base, et, |et|, at)
    ensures var cs := Chunks(base, eo, et, |eo|, |et|, at);
            Assemble(cs, Merged) == base[at..] && !HasConflict(cs)
  {
    hide Chunks, Pending, Conflicting, HasConflict, Assemble;
    PendingRange(base, eo, |eo|, at);
    LastChunk(base, eo, et, at);
    UnchangedText(base[at..]);
    AssembleOne(Unchanged(base[at..]));
    HasConflictCons(Unchanged(base[at..]), []);
    NoChunksNoConflict();
    AppendNothing([Unchanged(base[at..])]);
  }

  lemma UnchangedText(lines: seq<Line>)
    ensures Text(Unchanged(lines), Merged) == lines && !Conflicting(Unchanged(lines))
  {
  }

  lemma AppendNothing<T>(s: seq<T>)
    ensures s + [] == s
  {
  }

  lemma NoChunksNoConflict()
    ensures !HasConflict([])
  {
  }

  lemma LastChunk(base: seq<Line>, eo: seq<Edit>, et: seq<Edit>, at: int)
    requires Pending(base, eo, |eo|, at) && Pending(base, et, |et|, at)
    ensures Chunks(base, eo, et, |eo|, |et|, at) == [Unchanged(base[at..])]
  {
    hide Within, Patch, Grow;
  }

  lemma HasConflictCons(c: Chunk, cs: seq<Chunk>)
    ensures HasConflict([c] + cs) == (Conflicting(c) || HasConflict(cs))
  {
    var all := [c] + cs;
    assert all[0] == c && forall i :: 0 <= i < |cs| ==> all[i + 1] == cs[i];
  }
}
