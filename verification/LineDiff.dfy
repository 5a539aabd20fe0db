/**
 Line diffing: lines are interned as numbers, the numbers are diffed, and the script is
 spelled out in lines again.  The result is the very script the generic diff computes on
 the lines themselves, because the diff only ever compares elements for equality.
 */
module LineDiff {
  import opened Sequences
  import opened EditPlane
  import opened Frontier
  import opened Myers

  // ---------- The diff depends on equality only ----------

  /** `a`, `b` and `a'`, `b'` agree on which elements match. */
  ghost predicate SameMatches<T, U>(a: seq<T>, b: seq<T>, a': seq<U>, b': seq<U>) {
    && |a| == |a'| && |b| == |b'|
    && forall i, j :: 0 <= i < |a| && 0 <= j < |b| ==> (a[i] == b[j] <==> a'[i] == b'[j])
  }

  lemma {:induction false} SameDist<T, U>(a: seq<T>, b: seq<T>, a': seq<U>, b': seq<U>, x: nat, y: nat)
    requires SameMatches(a, b, a', b')
    ensures Dist(a, b, x, y) == Dist(a', b', x, y)
    decreases x + y
  {
    if x > 0 && y > 0 {
      SameDist(a, b, a', b', x - 1, y - 1);
      SameDist(a, b, a', b', x - 1, y);
      SameDist(a, b, a', b', x, y - 1);
    }
  }

  lemma SameReverse<T, U>(a: seq<T>, b: seq<T>, a': seq<U>, b': seq<U>)
    requires SameMatches(a, b, a', b')
    ensures SameMatches(Reverse(a), Reverse(b), Reverse(a'), Reverse(b'))
  {
  }

  lemma SameFurthestX<T, U>(a: seq<T>, b: seq<T>, a': seq<U>, b': seq<U>, d: int, k: int)
    requires SameMatches(a, b, a', b') && -d <= k <= d
    ensures FurthestX(a, b, d, k) == FurthestX(a', b', d, k)
  {
    hide Dist;
    var x := FurthestX(a', b', d, k);
    SameDist(a, b, a', b', x, x - k);
    SameDist(a, b, a', b', x + 1, x + 1 - k);
    FurthestUnique(a, b, d, k, x, FurthestX(a, b, d, k));
  }

  lemma SameMeets<T, U>(a: seq<T>, b: seq<T>, a': seq<U>, b': seq<U>, d: int, e: int, k: int)
    requires SameMatches(a, b, a', b')
    ensures Meets(a, b, d, e, k) == Meets(a', b', d, e, k)
  {
    hide Dist;
    if -d <= k <= d && -e <= |a| - |b| - k <= e {
      SameFurthestX(a, b, a', b', d, k);
      SameReverse(a, b, a', b');
      SameFurthestX(Reverse(a), Reverse(b), Reverse(a'), Reverse(b'), e, |a| - |b| - k);
    }
  }

  lemma SameSplitPoint<T, U>(a: seq<T>, b: seq<T>, a': seq<U>, b': seq<U>)
    requires SameMatches(a, b, a', b')
    ensures EditDistance(a, b) == EditDistance(a', b')
    ensures SplitPoint(a, b) == SplitPoint(a', b')
  {
    hide Dist, Meets;
    SameDist(a, b, a', b', |a|, |b|);
    var total := EditDistance(a, b);
    var d, e := (total + 1) / 2, total / 2;
    forall k
      ensures Meets(a, b, d, e, k) == Meets(a', b', d, e, k)
    {
      SameMeets(a, b, a', b', d, e, k);
    }
    SameSplitDiagonal(a, b, a', b', d, e);
    DiagonalInRange(a, b);
    SameFurthestX(a, b, a', b', d, SplitDiagonal(a, b));
  }

  lemma DiagonalInRange<T>(a: seq<T>, b: seq<T>)
    ensures var d := (EditDistance(a, b) + 1) / 2; -d <= SplitDiagonal(a, b) <= d
  {
    hide Dist;
    var k := SplitDiagonal(a, b);
  }

  lemma SameSplitDiagonal<T, U>(a: seq<T>, b: seq<T>, a': seq<U>, b': seq<U>, d: int, e: int)
    requires EditDistance(a, b) == EditDistance(a', b')
    requires d == (EditDistance(a, b) + 1) / 2 && e == EditDistance(a, b) / 2
    requires forall k :: Meets(a, b, d, e, k) == Meets(a', b', d, e, k)
    ensures SplitDiagonal(a, b) == SplitDiagonal(a', b')
  {
    hide Dist, Meets, EditDistance;
    var k, k' := SplitDiagonal(a, b), SplitDiagonal(a', b');
    assert IsSplitDiagonal(a, b, k) && IsSplitDiagonal(a', b', k');
  }

  lemma PrefixAgrees<T>(a: seq<T>, b: seq<T>, n: nat, i: nat)
    requires i < n <= |a| && n <= |b| && a[..n] == b[..n]
    ensures a[i] == b[i]
  {
    assert a[i] == a[..n][i];
  }

  lemma SuffixAgrees<T>(a: seq<T>, b: seq<T>, n: nat, i: nat)
    requires i < n && SameSuffix(a, b, n)
    ensures a[|a| - i - 1] == b[|b| - i - 1]
  {
    assert a[|a| - i - 1] == a[|a| - n..][n - i - 1];
  }

  lemma CommonPrefixUnique<T>(a: seq<T>, b: seq<T>, n: nat)
    requires n <= |a| && n <= |b| && a[..n] == b[..n]
    requires n < |a| && n < |b| ==> a[n] != b[n]
    ensures n == CommonPrefix(a, b)
  {
    var m := CommonPrefix(a, b);
    if m < n {
      PrefixAgrees(a, b, n, m);
    }
  }

  lemma CommonSuffixUnique<T>(a: seq<T>, b: seq<T>, n: nat)
    requires SameSuffix(a, b, n)
    requires n < |a| && n < |b| ==> a[|a| - n - 1] != b[|b| - n - 1]
    ensures n == CommonSuffix(a, b)
  {
    var m := CommonSuffix(a, b);
    if n < m {
      SuffixAgrees(a, b, m, n);
    }
  }

  // ---------- Spelling numbers out as lines ----------

  function Names(table: seq<string>, ids: seq<int>): (r: seq<string>)
    ensures |r| == |ids|
    ensures forall i :: 0 <= i < |ids| && 0 <= ids[i] < |table| ==> r[i] == table[ids[i]]
  {
    seq(|ids|, i requires 0 <= i < |ids| => if 0 <= ids[i] < |table| then table[ids[i]] else "")
  }

  ghost function Named(table: seq<string>, ds: seq<Diff<int>>): (r: seq<Diff<string>>)
    ensures |r| == |ds|
    ensures forall i :: 0 <= i < |ds| ==> r[i] == Diff(ds[i].operation, Names(table, ds[i].text))
  {
    seq(|ds|, i requires 0 <= i < |ds| => Diff(ds[i].operation, Names(table, ds[i].text)))
  }

  ghost predicate InTable(table: seq<string>, ids: seq<int>) {
    forall i :: 0 <= i < |ids| ==> 0 <= ids[i] < |table|
  }

  lemma NamesMatch(table: seq<string>, a: seq<int>, b: seq<int>)
    requires NoRepeats(table) && InTable(table, a) && InTable(table, b)
    ensures SameMatches(Names(table, a), Names(table, b), a, b)
  {
  }

  lemma NamesSlice(table: seq<string>, ids: seq<int>, lo: nat, hi: nat)
    requires lo <= hi <= |ids| && InTable(table, ids)
    ensures Names(table, ids[lo..hi]) == Names(table, ids)[lo..hi] && InTable(table, ids[lo..hi])
  {
    var s, t := Names(table, ids[lo..hi]), Names(table, ids)[lo..hi];
    assert |s| == |t| == hi - lo;
    forall i | 0 <= i < hi - lo
      ensures s[i] == t[i]
    {
      assert ids[lo..hi][i] == ids[lo + i];
    }
  }

  lemma NamedConcat(table: seq<string>, p: seq<Diff<int>>, q: seq<Diff<int>>)
    ensures Named(table, p + q) == Named(table, p) + Named(table, q)
  {
  }

  lemma NamedPiece(table: seq<string>, operation: Operation, ids: seq<int>)
    ensures Named(table, Piece(operation, ids)) == Piece(operation, Names(table, ids))
  {
  }

  lemma NamedPrefix(table: seq<string>, a: seq<int>, b: seq<int>)
    requires NoRepeats(table) && InTable(table, a) && InTable(table, b)
    ensures CommonPrefix(Names(table, a), Names(table, b)) == CommonPrefix(a, b)
  {
    hide CommonPrefix;
    var p := CommonPrefix(a, b);
    NamesMatch(table, a, b);
    NamedHalves(table, a, p);
    NamedHalves(table, b, p);
    CommonPrefixUnique(Names(table, a), Names(table, b), p);
  }

  lemma NamedSuffix(table: seq<string>, a: seq<int>, b: seq<int>)
    requires NoRepeats(table) && InTable(table, a) && InTable(table, b)
    ensures CommonSuffix(Names(table, a), Names(table, b)) == CommonSuffix(a, b)
  {
    hide CommonSuffix, Names, InTable, NoRepeats;
    var s := CommonSuffix(a, b);
    NamesMatch(table, a, b);
    NamedHalves(table, a, |a| - s);
    NamedHalves(table, b, |b| - s);
    CommonSuffixUnique(Names(table, a), Names(table, b), s);
  }

  lemma NamedTrim(table: seq<string>, a: seq<int>, b: seq<int>)
    requires NoRepeats(table) && InTable(table, a) && InTable(table, b)
    ensures var t, n := Trim(a, b), Trim(Names(table, a), Names(table, b));
            && n == Trimmed(Names(table, t.prefix), Names(table, t.a), Names(table, t.b), Names(table, t.suffix))
            && InTable(table, t.a) && InTable(table, t.b)
  {
    hide CommonPrefix, CommonSuffix, Names, SameSuffix, SuffixEnds, EndsDiffer, InTable, NoRepeats, Trim;
    NamedLengths(table, a, b);
    var p := CommonPrefix(a, b);
    var s := CommonSuffix(a[p..], b[p..]);
    TrimIs(a, b, p, s);
    TrimIs(Names(table, a), Names(table, b), p, s);
    NamedCut(table, a, p, s);
    NamedCut(table, b, p, s);
  }

  /** The names share as long a prefix and suffix as the ids. */
  lemma NamedLengths(table: seq<string>, a: seq<int>, b: seq<int>)
    requires NoRepeats(table) && InTable(table, a) && InTable(table, b)
    ensures |Names(table, a)| == |a| && |Names(table, b)| == |b|
    ensures var p := CommonPrefix(a, b);
            && p <= |a| && p <= |b| && p == CommonPrefix(Names(table, a), Names(table, b))
            && var s := CommonSuffix(a[p..], b[p..]);
               p + s <= |a| && p + s <= |b| && s == CommonSuffix(Names(table, a)[p..], Names(table, b)[p..])
  {
    hide CommonPrefix, CommonSuffix, Names, SameSuffix, SuffixEnds, InTable, NoRepeats;
    NamesLength(table, a);
    NamesLength(table, b);
    PrefixFits(a, b);
    var p := CommonPrefix(a, b);
    NamedPrefix(table, a, b);
    NamedHalves(table, a, p);
    NamedHalves(table, b, p);
    SuffixFits(a[p..], b[p..]);
    NamedSuffix(table, a[p..], b[p..]);
  }

  lemma NamedCut(table: seq<string>, ids: seq<int>, p: nat, s: nat)
    requires p + s <= |ids| && InTable(table, ids)
    ensures |Names(table, ids)| == |ids|
    ensures var hi := |ids| - s;
            && Names(table, ids[..p]) == Names(table, ids)[..p] && Names(table, ids[hi..]) == Names(table, ids)[hi..]
            && Names(table, ids[p..hi]) == Names(table, ids)[p..hi] && InTable(table, ids[p..hi])
  {
    hide Names, InTable;
    NamesLength(table, ids);
    NamedHalves(table, ids, p);
    NamedHalves(table, ids, |ids| - s);
    NamesSlice(table, ids, p, |ids| - s);
  }

  lemma NamesLength(table: seq<string>, ids: seq<int>)
    ensures |Names(table, ids)| == |ids|
  {
  }

  /** Diffing numbers and spelling them out is diffing the lines. */
  lemma {:induction false} NamedDiffs(table: seq<string>, a: seq<int>, b: seq<int>)
    requires NoRepeats(table) && InTable(table, a) && InTable(table, b)
    ensures Diffs(Names(table, a), Names(table, b)) == Named(table, Diffs(a, b))
    decreases |a| + |b|, 1
  {
    hide Dist, Trim, InTable, NoRepeats, MiddleDiffs, Piece;
    var t := Trim(a, b);
    NamedTrim(table, a, b);
    NamedMiddleDiffs(table, t.a, t.b);
    NamedPiece(table, EQUAL, t.prefix);
    NamedPiece(table, EQUAL, t.suffix);
    NamedConcat(table, Piece(EQUAL, t.prefix), MiddleDiffs(t.a, t.b));
    NamedConcat(table, Piece(EQUAL, t.prefix) + MiddleDiffs(t.a, t.b), Piece(EQUAL, t.suffix));
  }

  lemma {:induction false} NamedMiddleDiffs(table: seq<string>, a: seq<int>, b: seq<int>)
    requires NoRepeats(table) && InTable(table, a) && InTable(table, b) && EndsDiffer(a, b)
    ensures EndsDiffer(Names(table, a), Names(table, b))
    ensures MiddleDiffs(Names(table, a), Names(table, b)) == Named(table, MiddleDiffs(a, b))
    decreases |a| + |b|, 0
  {
    hide Dist, SplitPoint, Diffs, NoRepeats, Piece, SameMatches;
    var na, nb := Names(table, a), Names(table, b);
    NamesMatch(table, a, b);
    NamedEnds(table, a, b);
    SameSplitPoint(na, nb, a, b);
    if a == [] || b == [] || EditDistance(a, b) == |a| + |b| {
      NamedPiece(table, DELETE, a);
      NamedPiece(table, INSERT, b);
      NamedConcat(table, Piece(DELETE, a), Piece(INSERT, b));
    } else {
      var (x, y) := SplitPoint(a, b);
      SplitPointDivides(a, b);
      NamedHalves(table, a, x);
      NamedHalves(table, b, y);
      NamedDiffs(table, a[..x], b[..y]);
      NamedDiffs(table, a[x..], b[y..]);
      NamedConcat(table, Diffs(a[..x], b[..y]), Diffs(a[x..], b[y..]));
    }
  }

  lemma NamedEnds(table: seq<string>, a: seq<int>, b: seq<int>)
    requires NoRepeats(table) && InTable(table, a) && InTable(table, b) && EndsDiffer(a, b)
    ensures EndsDiffer(Names(table, a), Names(table, b))
  {
  }

  lemma NamedHalves(table: seq<string>, ids: seq<int>, x: nat)
    requires x <= |ids| && InTable(table, ids)
    ensures Names(table, ids[..x]) == Names(table, ids)[..x] && InTable(table, ids[..x])
    ensures Names(table, ids[x..]) == Names(table, ids)[x..] && InTable(table, ids[x..])
  {
    NamesSlice(table, ids, 0, x);
    NamesSlice(table, ids, x, |ids|);
    assert ids[0..x] == ids[..x] && ids[x..|ids|] == ids[x..];
  }

  // ---------- Interning ----------

  /** The table and the list of interned lines are inverse to each other. */
  ghost predicate Interned(table: map<string, int>, names: seq<string>) {
    && (forall s :: s in table ==> 0 <= table[s] < |names| && names[table[s]] == s)
    && (forall i :: 0 <= i < |names| ==> names[i] in table && table[names[i]] == i)
  }

  method InternAll(table: map<string, int>, names: seq<string>, lines: seq<string>)
    returns (table': map<string, int>, names': seq<string>, ids: seq<int>)
    requires Interned(table, names)
    ensures Interned(table', names') && names <= names'
    ensures InTable(names', ids) && Names(names', ids) == lines
  {
    table', names' := table, names;
    ids := [];
    for i := 0 to |lines|
      invariant Interned(table', names') && names <= names'
      invariant |ids| == i
      invariant forall j :: 0 <= j < i ==> 0 <= ids[j] < |names'| && names'[ids[j]] == lines[j]
    {
      var s := lines[i];
      if s in table' {
        ids := ids + [table'[s]];
      } else {
        var id := |names'|;
        table' := table'[s := id];
        names' := names' + [s];
        ids := ids + [id];
      }
    }
  }

  lemma PieceInTexts<T>(ds: seq<Diff<T>>, i: nat)
    requires i < |ds|
    ensures forall x :: x in ds[i].text ==> x in OldText(ds) || x in NewText(ds)
  {
    if i > 0 {
      PieceInTexts(ds[1..], i - 1);
      assert ds[1..][i - 1] == ds[i];
    }
  }

  lemma TextInTable(table: seq<string>, a: seq<int>, b: seq<int>, text: seq<int>)
    requires InTable(table, a) && InTable(table, b) && forall x :: x in text ==> x in a || x in b
    ensures InTable(table, text)
  {
    forall i | 0 <= i < |text|
      ensures 0 <= text[i] < |table|
    {
      assert text[i] in text;
    }
  }

  /** The computed pieces only hold interned numbers. */
  lemma PiecesInTable(table: seq<string>, a: seq<int>, b: seq<int>)
    requires InTable(table, a) && InTable(table, b)
    ensures forall i :: 0 <= i < |Diffs(a, b)| ==> InTable(table, Diffs(a, b)[i].text)
  {
    hide Diffs, Dist;
    DiffsCorrect(a, b);
    forall i | 0 <= i < |Diffs(a, b)|
      ensures InTable(table, Diffs(a, b)[i].text)
    {
      PieceInTexts(Diffs(a, b), i);
      TextInTable(table, a, b, Diffs(a, b)[i].text);
    }
  }

  method DiffLines(lines1: seq<string>, lines2: seq<string>) returns (res: seq<Diff<string>>)
    ensures res == Diffs(lines1, lines2)
  {
    hide Diffs, Dist;
    var table, names, ids1 := InternAll(map[], [], lines1);
    ghost var names1 := names;
    var ids2;
    table, names, ids2 := InternAll(table, names, lines2);
    assert Names(names, ids1) == lines1;
    var intDiffs := DiffMain(ids1, ids2);
    NamedDiffs(names, ids1, ids2);
    PiecesInTable(names, ids1, ids2);
    res := [];
    for i := 0 to |intDiffs|
      invariant |res| == i
      invariant res == Named(names, intDiffs)[..i]
    {
      var text := [];
      for j := 0 to |intDiffs[i].text|
        invariant |text| == j
        invariant text == Names(names, intDiffs[i].text)[..j]
      {
        text := text + [names[intDiffs[i].text[j]]];
      }
      assert text == Names(names, intDiffs[i].text);
      res := res + [Diff(intDiffs[i].operation, text)];
    }
  }
}
