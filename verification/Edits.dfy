/**
 Edits against a base text: how a diff script becomes a list of replaced base ranges, what
 such a list rebuilds, and that a list obtained from a shortest script wastes no edit.
 */
module Edits {
  import opened Sequences
  import opened EditPlane
  import opened Wrappers
  import opened Myers

  type Line = string

  datatype Edit = Edit(start: int, end: int, lines: seq<Line>)

  // ---------- Rebuilding a region ----------

  /** The edits lie in order inside base[from..to]. */
  ghost predicate Within(es: seq<Edit>, from: int, to: int) {
    if es == [] then from <= to
    else from <= es[0].start <= es[0].end <= to && Within(es[1..], es[0].end, to)
  }

  /** base[from..to] with the edits applied. */
  ghost function Patch(base: seq<Line>, from: int, to: int, es: seq<Edit>): seq<Line>
    requires 0 <= from && to <= |base| && Within(es, from, to)
    decreases |es|
  {
    if es == [] then base[from..to]
    else base[from..es[0].start] + es[0].lines + Patch(base, es[0].end, to, es[1..])
  }

  ghost function EditsCost(es: seq<Edit>): int {
    if es == [] then 0 else es[0].end - es[0].start + |es[0].lines| + EditsCost(es[1..])
  }

  lemma {:induction false} WithinSplit(es: seq<Edit>, from: int, mid: int, to: int, k: nat)
    requires k <= |es| && Within(es[..k], from, mid) && Within(es[k..], mid, to)
    ensures Within(es, from, to)
  {
    if k > 0 {
      assert es[..k][0] == es[0] && es[..k][1..] == es[1..][..k - 1] && es[1..][k - 1..] == es[k..];
      WithinSplit(es[1..], es[0].end, mid, to, k - 1);
      WithinEnd(es[k..], mid, to);
    } else {
      assert es[..0] == [] && es[0..] == es;
      WithinLower(es, from, mid, to);
    }
  }

  lemma {:induction false} WithinEnd(es: seq<Edit>, from: int, to: int)
    requires Within(es, from, to)
    ensures from <= to
  {
    if es != [] {
      WithinEnd(es[1..], es[0].end, to);
    }
  }

  lemma WithinLower(es: seq<Edit>, from: int, mid: int, to: int)
    requires from <= mid && Within(es, mid, to)
    ensures Within(es, from, to)
  {
    WithinEnd(es, mid, to);
  }

  /** A patch can be computed part by part. */
  lemma {:induction false} PatchSplit(base: seq<Line>, from: int, mid: int, to: int, es: seq<Edit>, k: nat)
    requires 0 <= from && to <= |base|
    requires k <= |es| && Within(es[..k], from, mid) && Within(es[k..], mid, to)
    ensures from <= mid <= to && Within(es, from, to)
    ensures Patch(base, from, to, es) == Patch(base, from, mid, es[..k]) + Patch(base, mid, to, es[k..])
    decreases |es|
  {
    WithinSplit(es, from, mid, to, k);
    WithinEnd(es[..k], from, mid);
    WithinEnd(es[k..], mid, to);
    if k > 0 {
      assert es[..k][0] == es[0] && es[..k][1..] == es[1..][..k - 1] && es[1..][k - 1..] == es[k..];
      PatchSplit(base, es[0].end, mid, to, es[1..], k - 1);
      var head := base[from..es[0].start] + es[0].lines;
      assert head + (Patch(base, es[0].end, mid, es[1..][..k - 1]) + Patch(base, mid, to, es[k..]))
          == head + Patch(base, es[0].end, mid, es[1..][..k - 1]) + Patch(base, mid, to, es[k..]);
    } else {
      assert es[..0] == [] && es[0..] == es;
      PatchSkip(base, from, mid, to, es);
    }
  }

  lemma PatchSkip(base: seq<Line>, from: int, mid: int, to: int, es: seq<Edit>)
    requires 0 <= from <= mid && to <= |base| && Within(es, mid, to)
    ensures mid <= to && Within(es, from, to)
    ensures Patch(base, from, to, es) == base[from..mid] + Patch(base, mid, to, es)
  {
    WithinLower(es, from, mid, to);
    WithinEnd(es, mid, to);
    if es == [] {
      SliceConcat(base, from, mid, to);
    } else {
      var e, tail := es[0], es[0].lines + Patch(base, es[0].end, to, es[1..]);
      SliceConcat(base, from, mid, e.start);
      Regroup(base[from..e.start], e.lines, Patch(base, e.end, to, es[1..]));
      Regroup(base[mid..e.start], e.lines, Patch(base, e.end, to, es[1..]));
      Regroup(base[from..mid], base[mid..e.start], tail);
    }
  }

  lemma SliceConcat<T>(s: seq<T>, from: int, mid: int, to: int)
    requires 0 <= from <= mid <= to <= |s|
    ensures s[from..to] == s[from..mid] + s[mid..to]
  {
  }

  // ---------- From a script to edits ----------

  function Flush(current: Option<Edit>): seq<Edit> {
    match current
    case None => []
    case Some(e) => [e]
  }

  /** The edits of the rest of a script, at base position `at`, with an edit possibly still open. */
  function ToEdits(ds: seq<Diff<Line>>, at: int, current: Option<Edit>): seq<Edit> {
    if ds == [] then Flush(current)
    else
      var n := |ds[0].text|;
      match ds[0].operation
      case EQUAL => Flush(current) + ToEdits(ds[1..], at + n, None)
      case DELETE => ToEdits(ds[1..], at + n, Some(Deleted(current, at, n)))
      case INSERT => ToEdits(ds[1..], at, Some(Inserted(current, at, ds[0].text)))
  }

  function Deleted(current: Option<Edit>, at: int, n: nat): Edit {
    match current
    case None => Edit(at, at + n, [])
    case Some(e) => e.(end := e.end + n)
  }

  function Inserted(current: Option<Edit>, at: int, text: seq<Line>): Edit {
    match current
    case None => Edit(at, at, text)
    case Some(e) => e.(lines := e.lines + text)
  }

  /** Every edit does something, and a base line separates it from the next. */
  ghost predicate Separated(es: seq<Edit>) {
    && (forall k :: 0 <= k < |es| ==> es[k].start < es[k].end || es[k].lines != [])
    && (forall k :: 0 <= k < |es| - 1 ==> es[k].end < es[k + 1].start)
  }

  lemma SeparatedCons(e: Edit, es: seq<Edit>)
    requires Separated(es) && (e.start < e.end || e.lines != [])
    requires es != [] ==> e.end < es[0].start
    ensures Separated([e] + es)
  {
    var all := [e] + es;
    forall k | 0 <= k < |all| - 1
      ensures all[k].end < all[k + 1].start
    {
      if k > 0 {
        assert all[k] == es[k - 1] && all[k + 1] == es[k];
      }
    }
  }

  /** From base position `from` on, the edits rebuild `text` at the given cost. */
  ghost predicate Rebuilds(base: seq<Line>, es: seq<Edit>, from: int, text: seq<Line>, cost: int) {
    && 0 <= from && Separated(es) && Within(es, from, |base|)
    && Patch(base, from, |base|, es) == text && EditsCost(es) == cost
  }

  lemma RebuildsSkip(base: seq<Line>, es: seq<Edit>, from: int, mid: int, text: seq<Line>, cost: int)
    requires 0 <= from <= mid && Rebuilds(base, es, mid, text, cost)
    ensures mid <= |base| && Rebuilds(base, es, from, base[from..mid] + text, cost)
  {
    PatchSkip(base, from, mid, |base|, es);
  }

  lemma RebuildsCons(base: seq<Line>, e: Edit, es: seq<Edit>, mid: int, text: seq<Line>, cost: int)
    requires 0 <= e.start <= e.end < mid && (e.start < e.end || e.lines != [])
    requires Rebuilds(base, es, mid, text, cost)
    ensures mid <= |base|
    ensures Rebuilds(base, [e] + es, e.start, e.lines + (base[e.end..mid] + text), e.end - e.start + |e.lines| + cost)
  {
    RebuildsSkip(base, es, e.end, mid, text, cost);
    SeparatedCons(e, es);
    assert ([e] + es)[1..] == es;
    assert base[e.start..e.start] == [];
  }

  lemma RebuildsLast(base: seq<Line>, e: Edit)
    requires 0 <= e.start <= e.end == |base| && (e.start < e.end || e.lines != [])
    ensures Rebuilds(base, [e], e.start, e.lines, e.end - e.start + |e.lines|)
  {
    assert [e][1..] == [];
    assert base[e.start..e.start] == [] && base[e.end..|base|] == [];
  }

  /** The first piece of a script for the rest of the base. */
  lemma FirstPiece(base: seq<Line>, ds: seq<Diff<Line>>, at: nat)
    requires at <= |base| && ds != [] && OldText(ds) == base[at..] && NoEmptyPiece(ds)
    ensures NoEmptyPiece(ds[1..]) && ds[0].text != []
    ensures ds[0].operation != INSERT ==>
              && at + |ds[0].text| <= |base| && ds[0].text == base[at..at + |ds[0].text|]
              && OldText(ds[1..]) == base[at + |ds[0].text|..]
    ensures ds[0].operation == INSERT ==> OldText(ds[1..]) == base[at..]
    ensures NewText(ds) == (if ds[0].operation == DELETE then [] else ds[0].text) + NewText(ds[1..])
    ensures Cost(ds) == (if ds[0].operation == EQUAL then 0 else |ds[0].text|) + Cost(ds[1..])
  {
    var n := |ds[0].text|;
    if ds[0].operation == INSERT {
      assert OldText(ds) == [] + OldText(ds[1..]);
    } else {
      assert OldText(ds) == ds[0].text + OldText(ds[1..]);
      assert ds[0].text == base[at..][..n] && OldText(ds[1..]) == base[at..][n..];
    }
  }

  /** What the edits of a script are worth, from a position with no edit open. */
  lemma {:induction false} ToEditsClosed(base: seq<Line>, ds: seq<Diff<Line>>, at: nat)
    requires at <= |base| && OldText(ds) == base[at..] && NoEmptyPiece(ds)
    ensures Rebuilds(base, ToEdits(ds, at, None), at, NewText(ds), Cost(ds))
    decreases |ds|, 1
  {
    hide Rebuilds, OldText, NewText, Cost;
    if ds == [] {
      RebuildsNothing(base, ds, at);
    } else if ds[0].operation == EQUAL {
      FirstPiece(base, ds, at);
      var n := |ds[0].text|;
      ToEditsClosed(base, ds[1..], at + n);
      var rest := ToEdits(ds[1..], at + n, None);
      RebuildsSkip(base, rest, at, at + n, NewText(ds[1..]), Cost(ds[1..]));
      assert Flush(None) + rest == rest;
    } else {
      ToEditsOpen(base, ds, at, Edit(at, at, []));
      assert Inserted(None, at, ds[0].text).lines == [] + ds[0].text;
      assert [] + NewText(ds) == NewText(ds);
    }
  }

  lemma RebuildsNothing(base: seq<Line>, ds: seq<Diff<Line>>, at: nat)
    requires at <= |base| && ds == [] && OldText(ds) == base[at..]
    ensures Rebuilds(base, [], at, NewText(ds), Cost(ds))
    ensures at == |base| && NewText(ds) == [] && Cost(ds) == 0
  {
    assert base[at..|base|] == [];
  }

  /** The same with an edit open that ends at the current position, unless nothing is left of it. */
  lemma {:induction false} ToEditsOpen(base: seq<Line>, ds: seq<Diff<Line>>, at: nat, e: Edit)
    requires at <= |base| && OldText(ds) == base[at..] && NoEmptyPiece(ds)
    requires 0 <= e.start <= e.end == at
    requires (e.start < e.end || e.lines != []) || (ds != [] && ds[0].operation != EQUAL)
    ensures Rebuilds(base, ToEdits(ds, at, Some(e)), e.start, e.lines + NewText(ds),
                     e.end - e.start + |e.lines| + Cost(ds))
    decreases |ds|, 0
  {
    hide Rebuilds, OldText, NewText, Cost;
    if ds == [] {
      RebuildsNothing(base, ds, at);
      RebuildsLast(base, e);
      assert e.lines + [] == e.lines;
    } else {
      FirstPiece(base, ds, at);
      var d, n := ds[0], |ds[0].text|;
      if d.operation == EQUAL {
        ToEditsClosed(base, ds[1..], at + n);
        RebuildsCons(base, e, ToEdits(ds[1..], at + n, None), at + n, NewText(ds[1..]), Cost(ds[1..]));
      } else if d.operation == DELETE {
        ToEditsOpen(base, ds[1..], at + n, e.(end := e.end + n));
        assert [] + NewText(ds[1..]) == NewText(ds[1..]);
      } else {
        ToEditsOpen(base, ds[1..], at, e.(lines := e.lines + d.text));
        Regroup(e.lines, d.text, NewText(ds[1..]));
      }
    }
  }

  // ---------- Minimal edit lists ----------

  /** `es` is a normal form: in order, strictly separated, within the base, and as short as can be. */
  ghost predicate NormalForm(base: seq<Line>, es: seq<Edit>) {
    && Separated(es) && Within(es, 0, |base|)
    && EditsCost(es) == EditDistance(base, Patch(base, 0, |base|, es))
  }

  ghost function EditsOf(base: seq<Line>, text: seq<Line>): seq<Edit> {
    ToEdits(Diffs(base, text), 0, None)
  }

  /** The edits of a computed diff are a normal form that rebuilds the other text. */
  lemma EditsOfNormal(base: seq<Line>, text: seq<Line>)
    ensures NormalForm(base, EditsOf(base, text))
    ensures Patch(base, 0, |base|, EditsOf(base, text)) == text
  {
    hide Diffs, Dist;
    DiffsCorrect(base, text);
    assert base[0..] == base;
    ToEditsClosed(base, Diffs(base, text), 0);
  }

  /** An edit list costs at least the distance between the base and what it rebuilds. */
  lemma EditsCostAtLeast(base: seq<Line>, es: seq<Edit>)
    requires Within(es, 0, |base|)
    ensures EditDistance(base, Patch(base, 0, |base|, es)) <= EditsCost(es)
  {
    hide Dist;
    var ds := ScriptOf(base, 0, es);
    assert base[0..] == base;
    EditDistanceIsLeast(base, Patch(base, 0, |base|, es));
  }

  lemma {:induction false} ScriptOf(base: seq<Line>, from: nat, es: seq<Edit>) returns (ds: seq<Diff<Line>>)
    requires Within(es, from, |base|)
    ensures from <= |base| && Transforms(ds, base[from..], Patch(base, from, |base|, es))
    ensures Cost(ds) == EditsCost(es)
    decreases |es|
  {
    WithinEnd(es, from, |base|);
    if es == [] {
      ds := [Diff(EQUAL, base[from..])];
      ScriptSingle(ds[0]);
      assert base[from..|base|] == base[from..];
    } else {
      var e := es[0];
      var rest := ScriptOf(base, e.end, es[1..]);
      ds := EditScript(base, from, e, rest);
    }
  }

  lemma EditScript(base: seq<Line>, from: nat, e: Edit, rest: seq<Diff<Line>>) returns (ds: seq<Diff<Line>>)
    requires from <= e.start <= e.end <= |base| && OldText(rest) == base[e.end..]
    ensures OldText(ds) == base[from..]
    ensures NewText(ds) == base[from..e.start] + e.lines + NewText(rest)
    ensures Cost(ds) == e.end - e.start + |e.lines| + Cost(rest)
  {
    hide OldText, NewText, Cost;
    var added := Prepend(Diff(INSERT, e.lines), rest);
    var dropped := Prepend(Diff(DELETE, base[e.start..e.end]), added);
    ds := Prepend(Diff(EQUAL, base[from..e.start]), dropped);
    SliceConcat(base, from, e.start, |base|);
    SliceConcat(base, e.start, e.end, |base|);
    assert base[e.end..|base|] == base[e.end..] && base[from..|base|] == base[from..];
    assert [] + OldText(rest) == OldText(rest) && [] + NewText(added) == NewText(added);
    Regroup(base[from..e.start], e.lines, NewText(rest));
  }

  lemma Prepend<T>(d: Diff<T>, ds: seq<Diff<T>>) returns (r: seq<Diff<T>>)
    ensures OldText(r) == (if d.operation == INSERT then [] else d.text) + OldText(ds)
    ensures NewText(r) == (if d.operation == DELETE then [] else d.text) + NewText(ds)
    ensures Cost(r) == (if d.operation == EQUAL then 0 else |d.text|) + Cost(ds)
  {
    r := [d] + ds;
    assert r[0] == d && r[1..] == ds;
  }

  lemma {:induction false} EditsCostConcat(p: seq<Edit>, q: seq<Edit>)
    ensures EditsCost(p + q) == EditsCost(p) + EditsCost(q)
  {
    if p == [] {
      assert p + q == q;
    } else {
      assert (p + q)[0] == p[0] && (p + q)[1..] == p[1..] + q;
      EditsCostConcat(p[1..], q);
    }
  }

  lemma {:induction false} EditsCostPositive(es: seq<Edit>, from: int, to: int)
    requires es != [] && Within(es, from, to)
    requires forall k :: 0 <= k < |es| ==> es[k].start < es[k].end || es[k].lines != []
    ensures 0 < EditsCost(es)
  {
    if |es| > 1 {
      EditsCostPositive(es[1..], es[0].end, to);
    }
  }
}
