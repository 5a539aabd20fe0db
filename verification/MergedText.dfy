/**
 What stands in a merged text, said about the three texts and the lines that are written: the
 pieces of which it consists, and what is left when the conflicts are resolved to one side.
 */
module MergedText {
  import opened Sequences
  import opened Edits
  import Merge3
  import Lines

  type Text = seq<string>

  /** The pieces put together. */
  function Flat(pieces: seq<Text>): Text {
    if pieces == [] then [] else pieces[0] + Flat(pieces[1..])
  }

  predicate Differ(base: Text, ours: Text, theirs: Text) {
    base != ours && base != theirs && ours != theirs
  }

  /** Ours before theirs, between the three marker lines. */
  function Marked(ours: Text, theirs: Text): Text {
    ["<<<<<<< HEAD"] + ours + ["======="] + theirs + [">>>>>>> MERGE_HEAD"]
  }

  /** One piece of the merge of aligned pieces of the three texts. */
  ghost predicate IsPiece(base: Text, ours: Text, theirs: Text, merged: Text) {
    && (Differ(base, ours, theirs) ==> merged == Marked(ours, theirs))
    && (base == ours ==> merged == theirs)
    && (base == theirs ==> merged == ours)
    && (ours == theirs ==> merged == ours)
  }

  /** The pieces of a merge: the first and every other one is common to the three texts, the rest are changed. */
  ghost predicate IsMerge(bs: seq<Text>, os: seq<Text>, ts: seq<Text>, ms: seq<Text>) {
    && |bs| == |os| == |ts| == |ms| && |bs| % 2 == 1
    && (forall i :: 0 <= i < |bs| ==> IsPiece(bs[i], os[i], ts[i], ms[i]))
    && (forall i :: 0 <= i < |bs| && i % 2 == 0 ==> bs[i] == os[i] == ts[i] && (0 < i < |bs| - 1 ==> bs[i] != []))
    && (forall i :: 0 <= i < |bs| && i % 2 == 1 ==> bs[i] != os[i] || bs[i] != ts[i])
  }

  ghost predicate SomeDiffer(bs: seq<Text>, os: seq<Text>, ts: seq<Text>)
    requires |bs| == |os| == |ts|
  {
    exists i :: 0 <= i < |bs| && Differ(bs[i], os[i], ts[i])
  }

  // ---------- The chunks in these terms ----------

  function Sides(cs: seq<Merge3.Chunk>, side: Merge3.Side): (r: seq<Text>)
    ensures |r| == |cs| && forall i :: 0 <= i < |cs| ==> r[i] == Merge3.Text(cs[i], side)
  {
    seq(|cs|, i requires 0 <= i < |cs| => Merge3.Text(cs[i], side))
  }

  lemma {:induction false} FlatSides(cs: seq<Merge3.Chunk>, side: Merge3.Side)
    ensures Flat(Sides(cs, side)) == Merge3.Assemble(cs, side)
    decreases |cs|
  {
    hide Merge3.Text;
    if cs != [] {
      FlatSides(cs[1..], side);
      assert Sides(cs, side)[1..] == Sides(cs[1..], side);
    }
  }

  lemma ChunkIsPiece(c: Merge3.Chunk)
    ensures IsPiece(Merge3.Text(c, Merge3.Base), Merge3.Text(c, Merge3.Ours), Merge3.Text(c, Merge3.Theirs),
                    Merge3.Text(c, Merge3.Merged))
    ensures Merge3.Conflicting(c) <==>
              Differ(Merge3.Text(c, Merge3.Base), Merge3.Text(c, Merge3.Ours), Merge3.Text(c, Merge3.Theirs))
  {
  }

  lemma {:induction false} AlternatesAt(cs: seq<Merge3.Chunk>, first: bool, i: nat)
    requires Merge3.Alternates(cs, first) && i < |cs|
    ensures |cs| % 2 == 1
    ensures i % 2 == 0 ==> cs[i].base == cs[i].ours == cs[i].theirs
    ensures i % 2 == 0 && (i > 0 || !first) && i < |cs| - 1 ==> cs[i].base != []
    ensures i % 2 == 1 ==> cs[i].base != cs[i].ours || cs[i].base != cs[i].theirs
    decreases |cs|
  {
    if |cs| > 1 {
      if i >= 2 {
        AlternatesAt(cs[2..], false, i - 2);
      } else {
        AlternatesAt(cs[2..], false, 0);
      }
    }
  }

  lemma ChunksMerge(cs: seq<Merge3.Chunk>)
    requires Merge3.Alternates(cs, true)
    ensures IsMerge(Sides(cs, Merge3.Base), Sides(cs, Merge3.Ours), Sides(cs, Merge3.Theirs), Sides(cs, Merge3.Merged))
    ensures Merge3.HasConflict(cs)
       <==> SomeDiffer(Sides(cs, Merge3.Base), Sides(cs, Merge3.Ours), Sides(cs, Merge3.Theirs))
  {
    hide Merge3.Alternates, Merge3.Conflicting, IsPiece, Differ;
    var bs, os, ts := Sides(cs, Merge3.Base), Sides(cs, Merge3.Ours), Sides(cs, Merge3.Theirs);
    var ms := Sides(cs, Merge3.Merged);
    HasOne(cs);
    forall i | 0 <= i < |cs|
      ensures IsPiece(bs[i], os[i], ts[i], ms[i])
      ensures Merge3.Conflicting(cs[i]) <==> Differ(bs[i], os[i], ts[i])
      ensures i % 2 == 0 ==> bs[i] == os[i] == ts[i] && (0 < i < |bs| - 1 ==> bs[i] != [])
      ensures i % 2 == 1 ==> bs[i] != os[i] || bs[i] != ts[i]
    {
      ChunkIsPiece(cs[i]);
      AlternatesAt(cs, true, i);
    }
    AlternatesAt(cs, true, 0);
  }

  lemma HasOne(cs: seq<Merge3.Chunk>)
    requires Merge3.Alternates(cs, true)
    ensures cs != []
  {
  }

  // ---------- Where the pieces are ----------

  /** The edits delete or replace line `p`. */
  ghost predicate Deletes(es: seq<Edit>, p: int) {
    exists k :: 0 <= k < |es| && es[k].start <= p < es[k].end
  }

  /** Of the base lines just those are in changed pieces that a side deletes or replaces. */
  ghost predicate CutAtEdits(bs: seq<Text>, eo: seq<Edit>, et: seq<Edit>) {
    forall i, p :: 0 <= i < |bs| && |Flat(bs[..i])| <= p < |Flat(bs[..i])| + |bs[i]| ==>
      (Deletes(eo, p) || Deletes(et, p) <==> i % 2 == 1)
  }

  lemma NoEditHere(base: Text, es: seq<Edit>, o: nat, at: int, nb: int)
    requires Merge3.Pending(base, es, o, at) && (o < |es| ==> nb <= es[o].start)
    ensures forall p :: at <= p < nb ==> !Deletes(es, p)
  {
    hide Within;
    Merge3.WithinEnds(es[..o], 0, at);
    assert forall k :: 0 <= k < o ==> es[..o][k] == es[k];
    if o < |es| {
      OrderedFrom(es, o, at, |base|);
    }
  }

  lemma OrderedFrom(es: seq<Edit>, o: nat, at: int, to: int)
    requires o < |es| && Within(es[o..], at, to)
    ensures forall k :: o <= k < |es| ==> es[o].start <= es[k].start
  {
    assert es[o..][0] == es[o] && es[o..][1..] == es[o + 1..];
    Merge3.WithinEnds(es[o + 1..], es[o].end, to);
    assert forall k :: o < k < |es| ==> es[o + 1..][k - o - 1] == es[k];
  }

  lemma {:induction false} ChunksCut(
    base: Text, eo: seq<Edit>, et: seq<Edit>, o: nat, t: nat, at: int, i: nat, p: int)
    requires Merge3.Pending(base, eo, o, at) && Merge3.Pending(base, et, t, at)
    requires var cs := Merge3.Chunks(base, eo, et, o, t, at);
             && i < |cs|
             && var from := at + |Merge3.Assemble(cs[..i], Merge3.Base)|; from <= p < from + |cs[i].base|
    ensures Deletes(eo, p) || Deletes(et, p) <==> i % 2 == 1
    decreases |eo| - o + |et| - t
  {
    hide Within, Deletes, Merge3.Grow, Merge3.Assemble;
    var cs := Merge3.Chunks(base, eo, et, o, t, at);
    FirstChunks(cs, i);
    Merge3.PendingRange(base, eo, o, at);
    Merge3.PendingRange(base, et, t, at);
    if o == |eo| && t == |et| {
      NoEditHere(base, eo, o, at, |base|);
      NoEditHere(base, et, t, at, |base|);
    } else {
      Merge3.GrowRegion(base, eo, et, o, t, at);
      var nb := Merge3.NextBase(eo, et, o, t);
      var g := Merge3.Grow(eo, et, o, t, nb);
      if i == 0 {
        NoEditHere(base, eo, o, at, nb);
        NoEditHere(base, et, t, at, nb);
      } else if i == 1 {
        Merge3.GrowTight(eo, et, o, t, nb, p);
        CoveredIsDeleted(eo, o, g.o, p);
        CoveredIsDeleted(et, t, g.t, p);
      } else {
        assert cs[2..] == Merge3.Chunks(base, eo, et, g.o, g.t, g.end);
        ChunksCut(base, eo, et, g.o, g.t, g.end, i - 2, p);
      }
    }
  }

  lemma CoveredIsDeleted(es: seq<Edit>, lo: int, hi: int, p: int)
    ensures Merge3.Covers(es, lo, hi, p) ==> Deletes(es, p)
  {
  }

  lemma FirstChunks(cs: seq<Merge3.Chunk>, i: nat)
    requires i < |cs|
    ensures i == 0 ==> |Merge3.Assemble(cs[..i], Merge3.Base)| == 0
    ensures i == 1 ==> |Merge3.Assemble(cs[..i], Merge3.Base)| == |cs[0].base|
    ensures i >= 2 ==>
              |Merge3.Assemble(cs[..i], Merge3.Base)|
              == |cs[0].base| + |cs[1].base| + |Merge3.Assemble(cs[2..][..i - 2], Merge3.Base)|
  {
    if i >= 2 {
      assert cs[..i][1..] == cs[1..i] && cs[1..i][1..] == cs[2..][..i - 2];
    } else if i == 1 {
      assert cs[..1][1..] == [];
    }
  }

  lemma ChunksCutAtEdits(base: Text, eo: seq<Edit>, et: seq<Edit>)
    requires Within(eo, 0, |base|) && Within(et, 0, |base|)
    ensures CutAtEdits(Sides(Merge3.AllChunks(base, eo, et), Merge3.Base), eo, et)
  {
    hide Within, Deletes, Flat, Merge3.Assemble, Merge3.Chunks;
    Merge3.StartPending(base, eo);
    Merge3.StartPending(base, et);
    var cs := Merge3.AllChunks(base, eo, et);
    var bs := Sides(cs, Merge3.Base);
    forall i, p | 0 <= i < |bs| && |Flat(bs[..i])| <= p < |Flat(bs[..i])| + |bs[i]|
      ensures Deletes(eo, p) || Deletes(et, p) <==> i % 2 == 1
    {
      FlatSides(cs[..i], Merge3.Base);
      assert bs[..i] == Sides(cs[..i], Merge3.Base);
      ChunksCut(base, eo, et, 0, 0, 0, i, p);
    }
  }

  // ---------- The merged text ----------

  /** A merge that has some line in the middle piece, or any two pieces, has a line. */
  lemma MergeNotEmpty(bs: seq<Text>, os: seq<Text>, ts: seq<Text>, ms: seq<Text>)
    requires IsMerge(bs, os, ts, ms) && Flat(bs) != [] && Flat(os) != [] && Flat(ts) != []
    ensures Flat(ms) != []
  {
    hide Flat;
    if |bs| == 1 {
      FlatOne(bs);
      FlatOne(ms);
    } else if |bs| == 3 {
      FlatThree(bs);
      FlatThree(os);
      FlatThree(ts);
      FlatThree(ms);
    } else {
      FlatHas(ms, 2);
    }
  }

  lemma FlatOne(ps: seq<Text>)
    requires |ps| == 1
    ensures Flat(ps) == ps[0]
  {
  }

  lemma FlatThree(ps: seq<Text>)
    requires |ps| == 3
    ensures Flat(ps) == ps[0] + ps[1] + ps[2]
  {
    assert ps[1..][1..] == [ps[2]] && ps[1..][0] == ps[1] && Flat([ps[2]]) == ps[2];
  }

  lemma {:induction false} FlatHas(ps: seq<Text>, i: nat)
    requires i < |ps|
    ensures |Flat(ps)| >= |ps[i]|
    ensures forall line :: line in ps[i] ==> line in Flat(ps)
    decreases |ps|
  {
    if i > 0 {
      FlatHas(ps[1..], i - 1);
    }
  }

  lemma {:induction false} FlatLines(ps: seq<Text>, line: string)
    requires line in Flat(ps)
    ensures exists i :: 0 <= i < |ps| && line in ps[i]
    decreases |ps|
  {
    if line in ps[0] {
    } else {
      FlatLines(ps[1..], line);
      var i :| 0 <= i < |ps[1..]| && line in ps[1..][i];
      assert line in ps[i + 1];
    }
  }

  lemma PieceLines(base: Text, ours: Text, theirs: Text, merged: Text, line: string)
    requires IsPiece(base, ours, theirs, merged) && line in merged
    ensures line in ours || line in theirs || line in MarkerLines()
  {
  }

  function MarkerLines(): set<string> {
    {"<<<<<<< HEAD", "=======", ">>>>>>> MERGE_HEAD"}
  }

  lemma MarkersAreLines()
    ensures forall line :: line in MarkerLines() ==> '\n' !in line
  {
  }

  lemma MergedOneLine(bs: seq<Text>, os: seq<Text>, ts: seq<Text>, ms: seq<Text>)
    requires IsMerge(bs, os, ts, ms)
    requires forall line :: line in Flat(os) || line in Flat(ts) ==> '\n' !in line
    ensures forall line :: line in Flat(ms) ==> '\n' !in line
  {
    hide Flat, IsPiece, Differ, MarkerLines;
    forall line | line in Flat(ms)
      ensures '\n' !in line
    {
      FlatLines(ms, line);
      var i :| 0 <= i < |ms| && line in ms[i];
      PieceLines(bs[i], os[i], ts[i], ms[i], line);
      FlatHas(os, i);
      FlatHas(ts, i);
      MarkersAreLines();
    }
  }

  /**
   The lines of a merged text are aligned pieces of the three texts, merged piece by piece, and the
   merge reports a conflict exactly if all three differ in some piece.  The pieces are cut where the
   shortest edits of the two sides are.
   */
  lemma MergeMeans(base: string, ours: string, theirs: string)
    returns (bs: seq<Text>, os: seq<Text>, ts: seq<Text>, ms: seq<Text>)
    ensures IsMerge(bs, os, ts, ms)
    ensures var b := Lines.Split(base, '\n');
            CutAtEdits(bs, EditsOf(b, Lines.Split(ours, '\n')), EditsOf(b, Lines.Split(theirs, '\n')))
    ensures Lines.Split(base, '\n') == Flat(bs)
    ensures Lines.Split(ours, '\n') == Flat(os)
    ensures Lines.Split(theirs, '\n') == Flat(ts)
    ensures var (text, conflict) := Merge3.MergeText(base, ours, theirs);
            Lines.Split(text, '\n') == Flat(ms) && (conflict <==> SomeDiffer(bs, os, ts))
  {
    hide Merge3.Assemble, Merge3.HasConflict, Merge3.ChunksOf, Lines.Split, Lines.Join, Merge3.Alternates, IsMerge,
         Flat, CutAtEdits;
    var b, o, t := Lines.Split(base, '\n'), Lines.Split(ours, '\n'), Lines.Split(theirs, '\n');
    var cs := Merge3.ChunksOf(b, o, t);
    Merge3.MergeDecomposition(b, o, t);
    ChunksMerge(cs);
    CutPieces(b, o, t);
    FlatSides(cs, Merge3.Base);
    FlatSides(cs, Merge3.Ours);
    FlatSides(cs, Merge3.Theirs);
    FlatSides(cs, Merge3.Merged);
    bs, os, ts := Sides(cs, Merge3.Base), Sides(cs, Merge3.Ours), Sides(cs, Merge3.Theirs);
    ms := Sides(cs, Merge3.Merged);
    MergeNotEmpty(bs, os, ts, ms);
    SplitLines(ours);
    SplitLines(theirs);
    MergedOneLine(bs, os, ts, ms);
    Lines.SplitJoin(Flat(ms), '\n');
  }

  lemma CutPieces(base: Text, ours: Text, theirs: Text)
    ensures var bs := Sides(Merge3.ChunksOf(base, ours, theirs), Merge3.Base);
            CutAtEdits(bs, EditsOf(base, ours), EditsOf(base, theirs))
  {
    hide EditsOf, CutAtEdits, Merge3.Chunks;
    EditsOfNormal(base, ours);
    EditsOfNormal(base, theirs);
    ChunksCutAtEdits(base, EditsOf(base, ours), EditsOf(base, theirs));
  }

  lemma SplitLines(text: string)
    ensures Lines.Split(text, '\n') != [] && forall line :: line in Lines.Split(text, '\n') ==> '\n' !in line
  {
  }

  // ---------- Resolving the conflicts to one side ----------

  datatype Where = Outside | InOurs | InTheirs

  /** The lines of a marked text outside its conflicts, and those of one side inside. */
  function Keep(lines: Text, at: Where, ours: bool): Text {
    if lines == [] then []
    else
      match at
      case Outside =>
        if lines[0] == "<<<<<<< HEAD" then Keep(lines[1..], InOurs, ours)
        else [lines[0]] + Keep(lines[1..], Outside, ours)
      case InOurs =>
        if lines[0] == "=======" then Keep(lines[1..], InTheirs, ours)
        else (if ours then [lines[0]] else []) + Keep(lines[1..], InOurs, ours)
      case InTheirs =>
        if lines[0] == ">>>>>>> MERGE_HEAD" then Keep(lines[1..], Outside, ours)
        else (if ours then [] else [lines[0]]) + Keep(lines[1..], InTheirs, ours)
  }

  ghost predicate Unmarked(lines: Text) {
    forall line :: line in lines ==> line !in MarkerLines()
  }

  lemma {:induction false} KeepThrough(lines: Text, rest: Text, at: Where, ours: bool)
    requires Unmarked(lines)
    ensures var kept := at.Outside? || (at.InOurs? && ours) || (at.InTheirs? && !ours);
            Keep(lines + rest, at, ours) == (if kept then lines else []) + Keep(rest, at, ours)
    decreases |lines|
  {
    if lines == [] {
      assert lines + rest == rest;
    } else {
      assert (lines + rest)[1..] == lines[1..] + rest;
      assert lines[0] in lines && lines == [lines[0]] + lines[1..];
      KeepThrough(lines[1..], rest, at, ours);
    }
  }

  lemma KeepMarker(marker: string, rest: Text, at: Where, ours: bool)
    ensures at.Outside? && marker == "<<<<<<< HEAD" ==> Keep([marker] + rest, at, ours) == Keep(rest, InOurs, ours)
    ensures at.InOurs? && marker == "=======" ==> Keep([marker] + rest, at, ours) == Keep(rest, InTheirs, ours)
    ensures at.InTheirs? && marker == ">>>>>>> MERGE_HEAD" ==>
              Keep([marker] + rest, at, ours) == Keep(rest, Outside, ours)
  {
    assert ([marker] + rest)[1..] == rest;
  }

  lemma KeepMarked(o: Text, t: Text, rest: Text, ours: bool)
    requires Unmarked(o) && Unmarked(t)
    ensures Keep(Marked(o, t) + rest, Outside, ours) == (if ours then o else t) + Keep(rest, Outside, ours)
  {
    hide Keep, MarkerLines;
    var r3 := [">>>>>>> MERGE_HEAD"] + rest;
    var r2 := ["======="] + (t + r3);
    assert Marked(o, t) + rest == ["<<<<<<< HEAD"] + (o + r2);
    KeepMarker("<<<<<<< HEAD", o + r2, Outside, ours);
    KeepThrough(o, r2, InOurs, ours);
    KeepMarker("=======", t + r3, InOurs, ours);
    KeepThrough(t, r3, InTheirs, ours);
    KeepMarker(">>>>>>> MERGE_HEAD", rest, InTheirs, ours);
    assert o + ([] + (t + Keep(rest, Outside, ours))) == o + (t + Keep(rest, Outside, ours));
  }

  /** The pieces, conflicts resolved to one side. */
  ghost function Resolved(bs: seq<Text>, os: seq<Text>, ts: seq<Text>, ms: seq<Text>, ours: bool): seq<Text>
    requires |bs| == |os| == |ts| == |ms|
  {
    seq(|bs|, i requires 0 <= i < |bs| =>
      if Differ(bs[i], os[i], ts[i]) then (if ours then os[i] else ts[i]) else ms[i])
  }

  lemma {:induction false} KeepPieces(bs: seq<Text>, os: seq<Text>, ts: seq<Text>, ms: seq<Text>, ours: bool)
    requires |bs| == |os| == |ts| == |ms|
    requires forall i :: 0 <= i < |bs| ==> IsPiece(bs[i], os[i], ts[i], ms[i])
    requires forall i :: 0 <= i < |bs| ==> Unmarked(os[i]) && Unmarked(ts[i])
    ensures Keep(Flat(ms), Outside, ours) == Flat(Resolved(bs, os, ts, ms, ours))
    decreases |bs|
  {
    hide Keep, MarkerLines, IsPiece, Differ, Unmarked;
    if bs != [] {
      KeepPieces(bs[1..], os[1..], ts[1..], ms[1..], ours);
      assert Resolved(bs, os, ts, ms, ours)[1..] == Resolved(bs[1..], os[1..], ts[1..], ms[1..], ours);
      KeepPiece(bs[0], os[0], ts[0], ms[0], Flat(ms[1..]), ours);
    } else {
      KeepNothing(ours);
    }
  }

  lemma KeepNothing(ours: bool)
    ensures Keep([], Outside, ours) == []
  {
  }

  lemma KeepPiece(b: Text, o: Text, t: Text, m: Text, rest: Text, ours: bool)
    requires IsPiece(b, o, t, m) && Unmarked(o) && Unmarked(t)
    ensures Keep(m + rest, Outside, ours)
         == (if Differ(b, o, t) then (if ours then o else t) else m) + Keep(rest, Outside, ours)
  {
    hide Keep, Unmarked;
    if Differ(b, o, t) {
      KeepMarked(o, t, rest, ours);
    } else {
      KeepThrough(m, rest, Outside, ours);
    }
  }

  /**
   If no line of ours or theirs is a marker, keeping one half of each conflict in the merged text
   gives the merge in which that side wins where all three differ.
   */
  lemma ConflictsResolve(base: string, ours: string, theirs: string, keepOurs: bool)
    returns (bs: seq<Text>, os: seq<Text>, ts: seq<Text>, ms: seq<Text>)
    requires Unmarked(Lines.Split(ours, '\n')) && Unmarked(Lines.Split(theirs, '\n'))
    ensures IsMerge(bs, os, ts, ms)
    ensures Lines.Split(base, '\n') == Flat(bs)
    ensures Lines.Split(ours, '\n') == Flat(os)
    ensures Lines.Split(theirs, '\n') == Flat(ts)
    ensures Keep(Lines.Split(Merge3.MergeText(base, ours, theirs).0, '\n'), Outside, keepOurs)
         == Flat(Resolved(bs, os, ts, ms, keepOurs))
  {
    hide Merge3.MergeText, Lines.Split, Flat, Keep, MarkerLines, IsPiece, Resolved;
    bs, os, ts, ms := MergeMeans(base, ours, theirs);
    forall i | 0 <= i < |bs|
      ensures Unmarked(os[i]) && Unmarked(ts[i])
    {
      FlatHas(os, i);
      FlatHas(ts, i);
    }
    KeepPieces(bs, os, ts, ms, keepOurs);
  }
}
