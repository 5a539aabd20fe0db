/**
 Minimality of a diff in terms that do not mention diffs: the text that it keeps is a longest
 common subsequence.
 */
module LongestCommon {
  import opened EditPlane
  import opened Myers

  ghost predicate Subsequence<T>(s: seq<T>, a: seq<T>) {
    s == [] || (a != [] && ((s[0] == a[0] && Subsequence(s[1..], a[1..])) || Subsequence(s, a[1..])))
  }

  ghost predicate Common<T>(s: seq<T>, a: seq<T>, b: seq<T>) {
    Subsequence(s, a) && Subsequence(s, b)
  }

  /** The text of the EQUAL pieces. */
  ghost function Kept<T>(ds: seq<Diff<T>>): seq<T> {
    if ds == [] then [] else (if ds[0].operation == EQUAL then ds[0].text else []) + Kept(ds[1..])
  }

  lemma {:induction false} SubsequenceAfter<T>(p: seq<T>, s: seq<T>, a: seq<T>)
    requires Subsequence(s, a)
    ensures Subsequence(s, p + a)
  {
    if p == [] {
      assert [] + a == a;
    } else {
      SubsequenceAfter(p[1..], s, a);
      assert (p + a)[1..] == p[1..] + a;
    }
  }

  lemma {:induction false} SubsequenceBoth<T>(p: seq<T>, s: seq<T>, a: seq<T>)
    requires Subsequence(s, a)
    ensures Subsequence(p + s, p + a)
  {
    if p == [] {
      assert [] + a == a && [] + s == s;
    } else {
      SubsequenceBoth(p[1..], s, a);
      assert (p + a)[1..] == p[1..] + a && (p + s)[1..] == p[1..] + s;
    }
  }

  /** What a script keeps is common to both texts, and the rest is its cost. */
  lemma {:induction false} KeptIsCommon<T>(ds: seq<Diff<T>>)
    ensures Common(Kept(ds), OldText(ds), NewText(ds))
    ensures Cost(ds) == |OldText(ds)| + |NewText(ds)| - 2 * |Kept(ds)|
  {
    if ds != [] {
      KeptIsCommon(ds[1..]);
      var text, kept := ds[0].text, Kept(ds[1..]);
      var old', new' := OldText(ds[1..]), NewText(ds[1..]);
      match ds[0].operation
      case EQUAL =>
        SubsequenceBoth(text, kept, old');
        SubsequenceBoth(text, kept, new');
      case DELETE =>
        SubsequenceAfter(text, kept, old');
        assert [] + new' == new' && [] + kept == kept;
      case INSERT =>
        SubsequenceAfter(text, kept, new');
        assert [] + old' == old' && [] + kept == kept;
    }
  }

  lemma ConsScript<T>(d: Diff<T>, ds: seq<Diff<T>>)
    ensures OldText([d] + ds) == (if d.operation == INSERT then [] else d.text) + OldText(ds)
    ensures NewText([d] + ds) == (if d.operation == DELETE then [] else d.text) + NewText(ds)
    ensures Kept([d] + ds) == (if d.operation == EQUAL then d.text else []) + Kept(ds)
  {
    assert ([d] + ds)[1..] == ds;
  }

  /** Any common subsequence can be kept. */
  lemma {:induction false} CommonIsKept<T>(s: seq<T>, a: seq<T>, b: seq<T>) returns (ds: seq<Diff<T>>)
    requires Common(s, a, b)
    ensures Transforms(ds, a, b) && Kept(ds) == s
    decreases |a| + |b|
  {
    hide OldText, NewText, Kept;
    if a != [] && (s == [] || !(s[0] == a[0] && Subsequence(s[1..], a[1..]))) {
      ds := CommonIsKept(s, a[1..], b);
      ConsScript(Diff(DELETE, [a[0]]), ds);
      ds := [Diff(DELETE, [a[0]])] + ds;
      assert [a[0]] + a[1..] == a && [] + b == b && [] + s == s;
    } else if b != [] && (s == [] || !(s[0] == b[0] && Subsequence(s[1..], b[1..]))) {
      ds := CommonIsKept(s, a, b[1..]);
      ConsScript(Diff(INSERT, [b[0]]), ds);
      ds := [Diff(INSERT, [b[0]])] + ds;
      assert [b[0]] + b[1..] == b && [] + a == a && [] + s == s;
    } else if s == [] {
      ds := [];
      NothingScript<T>();
    } else {
      ds := CommonIsKept(s[1..], a[1..], b[1..]);
      ConsScript(Diff(EQUAL, [s[0]]), ds);
      ds := [Diff(EQUAL, [s[0]])] + ds;
      assert [s[0]] + a[1..] == a && [s[0]] + b[1..] == b && [s[0]] + s[1..] == s;
    }
  }

  lemma NothingScript<T>()
    ensures OldText<T>([]) == [] && NewText<T>([]) == [] && Kept<T>([]) == []
  {
  }

  /**
   The diff keeps a longest common subsequence, so its insertions and deletions have the length
   of both texts less twice the length of that.
   */
  lemma DiffsKeepLongest<T>(a: seq<T>, b: seq<T>)
    ensures Common(Kept(Diffs(a, b)), a, b)
    ensures forall s :: Common(s, a, b) ==> |s| <= |Kept(Diffs(a, b))|
    ensures Cost(Diffs(a, b)) == |a| + |b| - 2 * |Kept(Diffs(a, b))|
  {
    hide Diffs, Kept, Subsequence, Cost;
    DiffsCorrect(a, b);
    KeptIsCommon(Diffs(a, b));
    forall s | Common(s, a, b)
      ensures |s| <= |Kept(Diffs(a, b))|
    {
      var ds := CommonIsKept(s, a, b);
      KeptIsCommon(ds);
      DiffsMinimal(a, b, ds);
    }
  }
}
