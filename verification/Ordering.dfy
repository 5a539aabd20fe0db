/** The byte-wise order of Go strings. */
module Ordering {

  predicate Less(a: seq<int>, b: seq<int>) {
    b != [] && (a == [] || a[0] < b[0] || (a[0] == b[0] && Less(a[1..], b[1..])))
  }

  /** Up to `i` they agree; there `a` ends or has the smaller item. */
  ghost predicate DiffersAt(a: seq<int>, b: seq<int>, i: nat) {
    i <= |a| && i < |b| && a[..i] == b[..i] && (i == |a| || a[i] < b[i])
  }

  ghost predicate Before(a: seq<int>, b: seq<int>) {
    exists i :: DiffersAt(a, b, i)
  }

  lemma {:induction false} LessIff(a: seq<int>, b: seq<int>)
    ensures Less(a, b) <==> Before(a, b)
  {
    if a == [] || b == [] || a[0] != b[0] {
      if b != [] && (a == [] || a[0] < b[0]) {
        assert DiffersAt(a, b, 0);
      }
      if i :| DiffersAt(a, b, i) {
        FirstItem(a, b, i);
      }
    } else {
      LessIff(a[1..], b[1..]);
      if i :| DiffersAt(a[1..], b[1..], i) {
        assert a == [a[0]] + a[1..] && b == [b[0]] + b[1..];
        DiffersLater(a, b, i);
      }
      if i :| DiffersAt(a, b, i) {
        FirstItem(a, b, i);
        DiffersSooner(a, b, i);
      }
    }
  }

  lemma FirstItem(a: seq<int>, b: seq<int>, i: nat)
    requires DiffersAt(a, b, i)
    ensures if i == 0 then a == [] || a[0] < b[0] else a != [] && a[0] == b[0]
  {
    if i > 0 {
      assert a[..i][0] == a[0] && b[..i][0] == b[0];
    }
  }

  lemma DiffersLater(a: seq<int>, b: seq<int>, i: nat)
    requires a != [] && b != [] && a[0] == b[0] && DiffersAt(a[1..], b[1..], i)
    ensures DiffersAt(a, b, i + 1)
  {
    assert a[..i + 1] == [a[0]] + a[1..][..i] && b[..i + 1] == [b[0]] + b[1..][..i];
  }

  lemma DiffersSooner(a: seq<int>, b: seq<int>, i: nat)
    requires i > 0 && DiffersAt(a, b, i)
    ensures DiffersAt(a[1..], b[1..], i - 1)
  {
    assert a[1..][..i - 1] == a[..i][1..] && b[1..][..i - 1] == b[..i][1..];
  }

  /** Ascending keys stand in this order. */
  lemma AscendingBefore<T>(s: seq<T>, key: T -> seq<int>, i: nat, j: nat)
    requires Ascending(s, key) && i < j < |s|
    ensures Before(key(s[i]), key(s[j]))
  {
    LessIff(key(s[i]), key(s[j]));
  }

  lemma {:induction false} LessTotal(a: seq<int>, b: seq<int>)
    ensures Less(a, b) || Less(b, a) || a == b
    ensures !(Less(a, b) && Less(b, a))
    ensures !Less(a, a)
  {
    if a != [] && b != [] && a[0] == b[0] {
      LessTotal(a[1..], b[1..]);
      assert a == [a[0]] + a[1..] && b == [b[0]] + b[1..];
    }
    if a != [] {
      LessTotal(a[1..], a[1..]);
    }
  }

  lemma {:induction false} LessTrans(a: seq<int>, b: seq<int>, c: seq<int>)
    requires Less(a, b) && Less(b, c)
    ensures Less(a, c)
  {
    if a != [] && a[0] == b[0] == c[0] {
      LessTrans(a[1..], b[1..], c[1..]);
    }
  }

  /** The keys of a sequence of items ascend strictly. */
  ghost predicate Ascending<T>(s: seq<T>, key: T -> seq<int>) {
    forall i, j :: 0 <= i < j < |s| ==> Less(key(s[i]), key(s[j]))
  }

  lemma AscendingTail<T>(s: seq<T>, key: T -> seq<int>)
    requires Ascending(s, key) && s != []
    ensures Ascending(s[1..], key)
    ensures forall x :: x in s[1..] ==> Less(key(s[0]), key(x))
  {
    forall x | x in s[1..]
      ensures Less(key(s[0]), key(x))
    {
      var i :| 0 <= i < |s| - 1 && s[1..][i] == x;
      assert s[i + 1] == x;
    }
  }

  lemma HasElement<T>(t: seq<T>)
    requires t != []
    ensures exists x :: x in t
  {
    assert t[0] in t;
  }

  /** Only one strictly ascending sequence has given elements. */
  lemma {:induction false} AscendingUnique<T>(s: seq<T>, t: seq<T>, key: T -> seq<int>)
    requires Ascending(s, key) && Ascending(t, key) && forall x :: x in s <==> x in t
    ensures s == t
    decreases |s|
  {
    if s == [] {
      if t != [] {
        HasElement(t);
      }
    } else {
      assert s[0] in s;
      assert t != [] && t[0] in t;
      AscendingTail(s, key);
      AscendingTail(t, key);
      assert s == [s[0]] + s[1..] && t == [t[0]] + t[1..];
      if s[0] != t[0] {
        assert s[0] in t[1..] && t[0] in s[1..];
        LessTotal(key(s[0]), key(t[0]));
      }
      LessTotal(key(s[0]), key(s[0]));
      forall x
        ensures x in s[1..] <==> x in t[1..]
      {
        assert x in s <==> x == s[0] || x in s[1..];
        assert x in t <==> x == t[0] || x in t[1..];
      }
      AscendingUnique(s[1..], t[1..], key);
    }
  }

  /** `s` with `x` before the first item that has a greater key. */
  function Insert<T>(s: seq<T>, x: T, key: T -> seq<int>): seq<T> {
    if s == [] || Less(key(x), key(s[0])) then [x] + s else [s[0]] + Insert(s[1..], x, key)
  }

  lemma AscendingCons<T>(x: T, s: seq<T>, key: T -> seq<int>)
    requires Ascending(s, key) && forall y :: y in s ==> Less(key(x), key(y))
    ensures Ascending([x] + s, key)
  {
    forall i, j | 0 <= i < j < |s| + 1
      ensures Less(key(([x] + s)[i]), key(([x] + s)[j]))
    {
      assert s[j - 1] in s;
    }
  }

  /** Insertion keeps the order, if the key of `x` is a new one. */
  lemma {:induction false} InsertAscends<T>(s: seq<T>, x: T, key: T -> seq<int>)
    requires Ascending(s, key) && forall y :: y in s ==> key(y) != key(x)
    ensures Ascending(Insert(s, x, key), key)
    ensures forall y :: y in Insert(s, x, key) ==> y in s || y == x
    ensures x in Insert(s, x, key) && forall y :: y in s ==> y in Insert(s, x, key)
  {
    if s == [] {
    } else {
      assert s == [s[0]] + s[1..] && s[0] in s;
      AscendingTail(s, key);
      if Less(key(x), key(s[0])) {
        forall y | y in s
          ensures Less(key(x), key(y))
        {
          if y != s[0] {
            LessTrans(key(x), key(s[0]), key(y));
          }
        }
        AscendingCons(x, s, key);
      } else {
        LessTotal(key(x), key(s[0]));
        assert Less(key(s[0]), key(x));
        InsertAscends(s[1..], x, key);
        AscendingCons(s[0], Insert(s[1..], x, key), key);
      }
    }
  }

  /** `es` has the elements of `s` in the order of their keys. */
  ghost predicate Enumerates<T>(es: seq<T>, s: set<T>, key: T -> seq<int>) {
    Ascending(es, key) && (forall x :: x in es ==> x in s) && (forall x :: x in s ==> x in es)
  }

  /** The elements of `s` in the order of their keys, if no two keys are equal. */
  ghost function InOrder<T(!new)>(s: set<T>, key: T -> seq<int>): seq<T> {
    if exists es :: Enumerates(es, s, key) then
      var es :| Enumerates(es, s, key);
      es
    else []
  }

  lemma InOrderIs<T(!new)>(es: seq<T>, s: set<T>, key: T -> seq<int>)
    requires Enumerates(es, s, key)
    ensures InOrder(s, key) == es
  {
    AscendingUnique(es, InOrder(s, key), key);
  }

  lemma {:induction false} InOrderEnumerates<T(!new)>(s: set<T>, key: T -> seq<int>)
    requires forall x, y :: x in s && y in s && x != y ==> key(x) != key(y)
    ensures Enumerates(InOrder(s, key), s, key)
  {
    if s == {} {
      assert Enumerates([], s, key);
    } else {
      var x :| x in s;
      InOrderEnumerates(s - {x}, key);
      var es := InOrder(s - {x}, key);
      InsertAscends(es, x, key);
      assert Enumerates(Insert(es, x, key), s, key);
    }
  }
}
