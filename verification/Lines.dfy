/** Splitting at a separator and joining again, as Go's `strings.Split` and `strings.Join` do. */
module Lines {

  function Split<T(==)>(s: seq<T>, sep: T): (parts: seq<seq<T>>)
    ensures parts != []
    ensures forall i :: 0 <= i < |parts| ==> sep !in parts[i]
  {
    if s == [] then [[]]
    else
      var rest := Split(s[1..], sep);
      if s[0] == sep then [[]] + rest
      else [[s[0]] + rest[0]] + rest[1..]
  }

  function Join<T>(parts: seq<seq<T>>, sep: T): seq<T> {
    if parts == [] then []
    else if |parts| == 1 then parts[0]
    else parts[0] + [sep] + Join(parts[1..], sep)
  }

  /** Joining what was split gives the text back. */
  lemma {:induction false} JoinSplit<T>(s: seq<T>, sep: T)
    ensures Join(Split(s, sep), sep) == s
  {
    if s != [] {
      JoinSplit(s[1..], sep);
      var rest := Split(s[1..], sep);
      if s[0] == sep {
        assert ([[]] + rest)[1..] == rest;
        assert s == [] + [sep] + s[1..];
      } else {
        var parts := [[s[0]] + rest[0]] + rest[1..];
        assert parts[1..] == rest[1..];
        assert s == [s[0]] + s[1..];
        if |rest| > 1 {
          assert [s[0]] + (rest[0] + [sep] + Join(rest[1..], sep)) == ([s[0]] + rest[0]) + [sep] + Join(rest[1..], sep);
        }
      }
    }
  }

  lemma {:induction false} SplitWhole<T>(s: seq<T>, sep: T)
    requires sep !in s
    ensures Split(s, sep) == [s]
  {
    if s != [] {
      SplitWhole(s[1..], sep);
      assert s == [s[0]] + s[1..];
    }
  }

  lemma {:induction false} SplitFirst<T>(first: seq<T>, rest: seq<T>, sep: T)
    requires sep !in first
    ensures Split(first + [sep] + rest, sep) == [first] + Split(rest, sep)
  {
    var s := first + [sep] + rest;
    if first == [] {
      assert s[1..] == rest;
    } else {
      assert s[1..] == first[1..] + [sep] + rest;
      SplitFirst(first[1..], rest, sep);
      assert first == [first[0]] + first[1..];
    }
  }

  /** Splitting what was joined from parts without a separator gives the parts back. */
  lemma {:induction false} SplitJoin<T>(parts: seq<seq<T>>, sep: T)
    requires parts != [] && forall i :: 0 <= i < |parts| ==> sep !in parts[i]
    ensures Split(Join(parts, sep), sep) == parts
  {
    if |parts| == 1 {
      SplitWhole(parts[0], sep);
    } else {
      SplitJoin(parts[1..], sep);
      SplitFirst(parts[0], Join(parts[1..], sep), sep);
      assert parts == [parts[0]] + parts[1..];
    }
  }

  lemma {:induction false} JoinConcat<T>(parts: seq<seq<T>>, more: seq<seq<T>>, sep: T)
    requires parts != [] && more != []
    ensures Join(parts + more, sep) == Join(parts, sep) + [sep] + Join(more, sep)
  {
    if |parts| == 1 {
      assert (parts + more)[1..] == more;
    } else {
      assert (parts + more)[1..] == parts[1..] + more;
      JoinConcat(parts[1..], more, sep);
      var rest := Join(parts[1..], sep);
      assert parts[0] + [sep] + (rest + [sep] + Join(more, sep)) == parts[0] + [sep] + rest + [sep] + Join(more, sep);
    }
  }

  /** A separator between two texts separates their parts. */
  lemma SplitConcat<T>(s: seq<T>, sep: T, t: seq<T>)
    ensures Split(s + [sep] + t, sep) == Split(s, sep) + Split(t, sep)
  {
    JoinSplit(s, sep);
    JoinSplit(t, sep);
    JoinConcat(Split(s, sep), Split(t, sep), sep);
    SplitJoin(Split(s, sep) + Split(t, sep), sep);
  }

  /** Every part makes at least one part, and only one if it has no separator. */
  lemma {:induction false} SplitCounts<T>(parts: seq<seq<T>>, sep: T)
    requires parts != []
    ensures |Split(Join(parts, sep), sep)| >= |parts|
    ensures |Split(Join(parts, sep), sep)| == |parts| ==> forall i :: 0 <= i < |parts| ==> sep !in parts[i]
  {
    JoinSplit(parts[0], sep);
    if |parts| > 1 {
      SplitConcat(parts[0], sep, Join(parts[1..], sep));
      SplitCounts(parts[1..], sep);
      assert parts == [parts[0]] + parts[1..];
    }
  }

  /** Each part begins a part. */
  lemma {:induction false} SplitJoinFirst<T>(parts: seq<seq<T>>, sep: T, i: nat)
    requires i < |parts|
    ensures Split(parts[i], sep)[0] in Split(Join(parts, sep), sep)
  {
    if |parts| > 1 {
      SplitConcat(parts[0], sep, Join(parts[1..], sep));
      if i > 0 {
        SplitJoinFirst(parts[1..], sep, i - 1);
      }
    }
  }

  /** A beginning without separators belongs to the first part. */
  lemma {:induction false} SplitPrefix<T>(p: seq<T>, s: seq<T>, sep: T)
    requires sep !in p
    ensures Split(p + s, sep) == [p + Split(s, sep)[0]] + Split(s, sep)[1..]
  {
    if p == [] {
      assert [] + s == s && [] + Split(s, sep)[0] == Split(s, sep)[0];
    } else {
      assert (p + s)[1..] == p[1..] + s;
      SplitPrefix(p[1..], s, sep);
      assert p == [p[0]] + p[1..];
      assert [p[0]] + (p[1..] + Split(s, sep)[0]) == p + Split(s, sep)[0];
    }
  }

  /** Splitting a joined text gives the parts, with the one that may have separators split. */
  lemma SplitJoinAround<T>(before: seq<seq<T>>, x: seq<T>, after: seq<seq<T>>, sep: T)
    requires forall i :: 0 <= i < |before| ==> sep !in before[i]
    requires forall i :: 0 <= i < |after| ==> sep !in after[i]
    ensures Split(Join(before + [x] + after, sep), sep) == before + Split(x, sep) + after
  {
    hide Join, Split;
    var lines := Split(x, sep);
    JoinSplit(x, sep);
    JoinOne(x, sep);
    JoinLike(before, [x], lines, sep);
    if after == [] {
      assert before + [x] + after == before + [x] && before + lines + after == before + lines;
    } else {
      JoinConcat(before + [x], after, sep);
      JoinConcat(before + lines, after, sep);
    }
    SplitJoin(before + lines + after, sep);
  }

  lemma JoinOne<T>(x: seq<T>, sep: T)
    ensures Join([x], sep) == x
  {
  }

  lemma JoinLike<T>(before: seq<seq<T>>, parts: seq<seq<T>>, parts': seq<seq<T>>, sep: T)
    requires parts != [] && parts' != [] && Join(parts, sep) == Join(parts', sep)
    ensures Join(before + parts, sep) == Join(before + parts', sep)
  {
    hide Join;
    if before == [] {
      assert before + parts == parts && before + parts' == parts';
    } else {
      JoinConcat(before, parts, sep);
      JoinConcat(before, parts', sep);
    }
  }
}
