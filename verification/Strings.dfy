/** The string functions that the text formats are read and written with. */
module Strings {

  // ---------- White space ----------

  /** The characters that Go's `strings.TrimSpace` removes. */
  predicate IsSpace(c: char) {
    || '\t' <= c <= '\r' || c == ' ' || c == '\U{85}' || c == '\U{A0}' || c == '\U{1680}'
    || '\U{2000}' <= c <= '\U{200A}' || c == '\U{2028}' || c == '\U{2029}'
    || c == '\U{202F}' || c == '\U{205F}' || c == '\U{3000}'
  }

  function TrimLeft(s: string): (r: string)
    ensures r != [] ==> !IsSpace(r[0])
    ensures |r| <= |s|
  {
    if s != [] && IsSpace(s[0]) then TrimLeft(s[1..]) else s
  }

  function TrimRight(s: string): (r: string)
    ensures r != [] ==> !IsSpace(r[|r| - 1])
    ensures r <= s
  {
    if s != [] && IsSpace(s[|s| - 1]) then TrimRight(s[..|s| - 1]) else s
  }

  function Trim(s: string): (r: string)
    ensures IsTrimmed(r)
    ensures IsTrimmed(s) ==> r == s
  {
    TrimRight(TrimLeft(s))
  }

  /** Neither end is white space. */
  predicate IsTrimmed(s: string) {
    s != [] ==> !IsSpace(s[0]) && !IsSpace(s[|s| - 1])
  }

  ghost predicate AllSpace(s: string) {
    forall i :: 0 <= i < |s| ==> IsSpace(s[i])
  }

  /** Trimming takes white space off both ends, and only that; there is one way to do so. */
  lemma TrimMeans(s: string, left: string, middle: string, right: string)
    requires s == left + middle + right && AllSpace(left) && AllSpace(right) && IsTrimmed(middle)
    ensures Trim(s) == middle
  {
    if middle == [] {
      assert forall i :: 0 <= i < |s| ==> IsSpace(s[i]);
      TrimSpaces(s);
    } else {
      TrimLeftOff(left, middle + right);
      assert s == left + (middle + right) && (middle + right)[0] == middle[0];
      TrimRightAfter(middle, right);
      TrimRightOff(right);
      assert middle + [] == middle;
    }
  }

  lemma {:induction false} TrimSpaces(s: string)
    requires AllSpace(s)
    ensures Trim(s) == []
  {
    if s != [] {
      TrimSpaces(s[1..]);
      TrimAfterSpace(s[0], s[1..]);
      assert s == [s[0]] + s[1..];
    }
  }

  lemma {:induction false} TrimLeftOff(left: string, rest: string)
    requires AllSpace(left) && rest != [] && !IsSpace(rest[0])
    ensures TrimLeft(left + rest) == rest
    decreases |left|
  {
    if left == [] {
      assert left + rest == rest;
    } else {
      assert (left + rest)[1..] == left[1..] + rest;
      TrimLeftOff(left[1..], rest);
    }
  }

  lemma {:induction false} TrimRightOff(right: string)
    requires AllSpace(right)
    ensures TrimRight(right) == []
  {
    if right != [] {
      TrimRightOff(right[..|right| - 1]);
    }
  }

  /** There is always such a way. */
  lemma TrimParts(s: string) returns (left: string, right: string)
    ensures s == left + Trim(s) + right && AllSpace(left) && AllSpace(right)
  {
    left := LeftSpaces(s);
    right := RightSpaces(TrimLeft(s));
    assert s == left + TrimLeft(s);
    assert left + (Trim(s) + right) == left + Trim(s) + right;
  }

  lemma LeftSpaces(s: string) returns (left: string)
    ensures s == left + TrimLeft(s) && AllSpace(left)
  {
    hide TrimLeft, IsSpace;
    LeftIsSpace(s);
    TrimLeftIsSuffix(s);
    TrimLeftShorter(s);
    left := s[..|s| - |TrimLeft(s)|];
  }

  lemma TrimLeftShorter(s: string)
    ensures |TrimLeft(s)| <= |s|
  {
  }

  lemma {:induction false} LeftIsSpace(s: string)
    ensures forall i :: 0 <= i < |s| - |TrimLeft(s)| ==> IsSpace(s[i])
  {
    hide IsSpace;
    if s != [] && IsSpace(s[0]) {
      LeftIsSpace(s[1..]);
      forall i | 0 <= i < |s| - |TrimLeft(s)|
        ensures IsSpace(s[i])
      {
        if i > 0 {
          assert s[1..][i - 1] == s[i];
        }
      }
    }
  }

  lemma {:induction false} RightSpaces(s: string) returns (right: string)
    ensures s == TrimRight(s) + right && AllSpace(right)
  {
    if s != [] && IsSpace(s[|s| - 1]) {
      var rest := RightSpaces(s[..|s| - 1]);
      right := rest + [s[|s| - 1]];
      assert s == s[..|s| - 1] + [s[|s| - 1]];
    } else {
      right := [];
    }
  }

  /** The white space of Unicode: tab to carriage return, the blank, and what other alphabets use. */
  lemma SpacesAre(c: char)
    ensures IsSpace(c) <==>
              || 9 <= c as int <= 13 || c as int in {0x20, 0x85, 0xA0, 0x1680, 0x2028, 0x2029, 0x202F, 0x205F, 0x3000}
              || 0x2000 <= c as int <= 0x200A
  {
  }

  lemma TrimFixpoint(s: string)
    ensures Trim(s) == s <==> IsTrimmed(s)
  {
    hide TrimLeft, TrimRight;
    var r := Trim(s);
  }

  lemma {:induction false} TrimAfterSpace(c: char, s: string)
    requires IsSpace(c)
    ensures Trim([c] + s) == Trim(s)
  {
    assert ([c] + s)[1..] == s;
  }

  lemma {:induction false} TrimRightBeforeSpace(s: string, c: char)
    requires IsSpace(c)
    ensures TrimRight(s + [c]) == TrimRight(s)
  {
    assert (s + [c])[..|s + [c]| - 1] == s;
  }

  lemma {:induction false} TrimRightAfter(p: string, s: string)
    requires p != [] && !IsSpace(p[|p| - 1])
    ensures TrimRight(p + s) == p + TrimRight(s)
  {
    if s == [] {
      assert p + s == p;
    } else if IsSpace(s[|s| - 1]) {
      assert (p + s)[..|p + s| - 1] == p + s[..|s| - 1];
      TrimRightAfter(p, s[..|s| - 1]);
    }
  }

  lemma TrimFrom(p: string, s: string)
    requires p != [] && !IsSpace(p[0]) && !IsSpace(p[|p| - 1])
    ensures Trim(p + s) == p + TrimRight(s)
  {
    assert TrimLeft(p + s) == p + s;
    TrimRightAfter(p, s);
  }

  lemma {:induction false} TrimRightCons(c: char, s: string)
    ensures TrimRight([c] + s) == if TrimRight(s) == [] && IsSpace(c) then [] else [c] + TrimRight(s)
  {
    if s == [] {
      assert [c] + s == [c] && TrimRight([]) == [];
    } else if IsSpace(s[|s| - 1]) {
      assert ([c] + s)[..|s|] == [c] + s[..|s| - 1];
      TrimRightCons(c, s[..|s| - 1]);
    }
  }

  /** White space may be removed at either end first. */
  lemma {:induction false} TrimEitherFirst(s: string)
    ensures TrimLeft(TrimRight(s)) == Trim(s)
  {
    if s != [] {
      assert s == [s[0]] + s[1..];
      TrimEitherFirst(s[1..]);
      TrimRightCons(s[0], s[1..]);
      if IsSpace(s[0]) {
        if TrimRight(s[1..]) != [] {
          assert ([s[0]] + TrimRight(s[1..]))[1..] == TrimRight(s[1..]);
        }
      }
    }
  }

  lemma TrimAfterTrimRight(s: string)
    ensures Trim(TrimRight(s)) == Trim(s)
  {
    TrimEitherFirst(s);
    assert TrimRight(TrimLeft(TrimRight(s))) == TrimRight(Trim(s));
    TrimRightTwice(TrimLeft(s));
  }

  lemma TrimRightTwice(s: string)
    ensures TrimRight(TrimRight(s)) == TrimRight(s)
  {
  }

  lemma {:induction false} TrimLeftIsSuffix(s: string)
    ensures s[|s| - |TrimLeft(s)|..] == TrimLeft(s)
  {
    if s != [] && IsSpace(s[0]) {
      TrimLeftIsSuffix(s[1..]);
    }
  }

  lemma TrimWithin(s: string, c: char)
    requires c in Trim(s)
    ensures c in s
  {
    assert TrimRight(TrimLeft(s)) <= TrimLeft(s);
    TrimLeftIsSuffix(s);
  }

  predicate HasPrefix(s: string, p: string) {
    p <= s
  }

  // ---------- Cutting at the first separator ----------

  datatype Cut<T> = Whole | Parts(before: seq<T>, after: seq<T>)

  function CutAt<T(==)>(s: seq<T>, sep: T): (r: Cut<T>)
    ensures r.Whole? <==> sep !in s
    ensures r.Parts? ==> s == r.before + [sep] + r.after && sep !in r.before
  {
    if s == [] then Whole
    else if s[0] == sep then Parts([], s[1..])
    else
      match CutAt(s[1..], sep)
      case Whole => Whole
      case Parts(before, after) =>
        assert s == [s[0]] + s[1..];
        Parts([s[0]] + before, after)
  }

  lemma {:induction false} CutFirst<T>(before: seq<T>, sep: T, after: seq<T>)
    requires sep !in before
    ensures CutAt(before + [sep] + after, sep) == Parts(before, after)
  {
    var s := before + [sep] + after;
    if before == [] {
      assert s[1..] == after;
    } else {
      assert s[1..] == before[1..] + [sep] + after;
      CutFirst(before[1..], sep, after);
      CutBehind(s, sep);
      assert before == [before[0]] + before[1..];
    }
  }

  lemma CutBehind<T>(s: seq<T>, sep: T)
    requires s != [] && s[0] != sep
    ensures CutAt(s, sep) ==
              match CutAt(s[1..], sep)
              case Whole => Whole
              case Parts(before, after) => Parts([s[0]] + before, after)
  {
  }

  // ---------- Decimal numbers ----------

  function Digit(d: nat): char
    requires d < 10
  {
    '0' + d as char
  }

  predicate IsDigit(c: char) {
    '0' <= c <= '9'
  }

  function Decimal(n: nat): (s: string)
    ensures s != [] && forall i :: 0 <= i < |s| ==> IsDigit(s[i])
  {
    if n < 10 then [Digit(n)] else Decimal(n / 10) + [Digit(n % 10)]
  }

  /** The value of a string of digits. */
  function Value(s: string): nat
    requires forall i :: 0 <= i < |s| ==> IsDigit(s[i])
  {
    if s == [] then 0
    else
      assert IsDigit(s[|s| - 1]);
      10 * Value(s[..|s| - 1]) + (s[|s| - 1] as int - '0' as int)
  }

  function Unsigned(s: string): string {
    if s != [] && (s[0] == '+' || s[0] == '-') then s[1..] else s
  }

  predicate AllDigits(s: string) {
    forall i :: 0 <= i < |s| ==> IsDigit(s[i])
  }

  /** Go's `strconv.Atoi`, with 0 where it reports an error. */
  function Atoi(s: string): int {
    if Unsigned(s) == [] || !AllDigits(Unsigned(s)) then 0
    else if s[0] == '-' then 0 - Value(Unsigned(s))
    else Value(Unsigned(s))
  }

  function Tens(n: nat): nat {
    if n == 0 then 1 else 10 * Tens(n - 1)
  }

  /** The number that digits spell, each weighted by its place. */
  function DigitSum(s: string): int {
    if s == [] then 0 else (s[0] as int - '0' as int) * Tens(|s| - 1) + DigitSum(s[1..])
  }

  /** The digits of a number, without leading zeros. */
  ghost predicate SpellsDecimal(s: string, n: int) {
    s != [] && (forall i :: 0 <= i < |s| ==> '0' <= s[i] <= '9') && (|s| > 1 ==> s[0] != '0') && DigitSum(s) == n
  }

  lemma {:induction false} DigitSumSnoc(s: string, c: char)
    ensures DigitSum(s + [c]) == 10 * DigitSum(s) + (c as int - '0' as int)
    decreases |s|
  {
    if s == [] {
      assert [] + [c] == [c] && DigitSum([c][1..]) == 0;
    } else {
      assert (s + [c])[1..] == s[1..] + [c];
      DigitSumSnoc(s[1..], c);
      var x, w := s[0] as int - '0' as int, Tens(|s| - 1);
      assert x * (10 * w) == 10 * (x * w);
    }
  }

  lemma {:induction false} DecimalSpells(n: nat)
    ensures SpellsDecimal(Decimal(n), n) && (n > 0 ==> Decimal(n)[0] != '0')
  {
    if n < 10 {
      assert DigitSum([Digit(n)][1..]) == 0;
    } else {
      DecimalSpells(n / 10);
      DigitSumSnoc(Decimal(n / 10), Digit(n % 10));
    }
  }

  lemma {:induction false} ValueIsDigitSum(s: string)
    requires forall i :: 0 <= i < |s| ==> IsDigit(s[i])
    ensures Value(s) == DigitSum(s)
    decreases |s|
  {
    if s != [] {
      var init, last := s[..|s| - 1], s[|s| - 1];
      assert s == init + [last];
      ValueIsDigitSum(init);
      DigitSumSnoc(init, last);
    }
  }

  /**
   A text of digits, maybe with a sign before them, is read as the number that they spell, and
   anything else as 0.
   */
  lemma AtoiReads(sign: string, digits: string)
    requires sign == "+" || sign == "-" || (sign == "" && (digits == "" || (digits[0] != '+' && digits[0] != '-')))
    ensures Atoi(sign + digits)
         == if digits == "" || exists i :: 0 <= i < |digits| && !('0' <= digits[i] <= '9') then 0
            else if sign == "-" then 0 - DigitSum(digits)
            else DigitSum(digits)
  {
    hide Value, DigitSum, AllDigits;
    var s := sign + digits;
    UnsignedIs(sign, digits);
    DigitsAre(digits);
    if digits != "" && AllDigits(digits) {
      ValueIsDigitSum(digits);
    }
  }

  lemma UnsignedIs(sign: string, digits: string)
    requires sign == "+" || sign == "-" || (sign == "" && (digits == "" || (digits[0] != '+' && digits[0] != '-')))
    ensures Unsigned(sign + digits) == digits && (digits != "" ==> ((sign + digits)[0] == '-' <==> sign == "-"))
  {
    assert "" + digits == digits;
  }

  lemma DigitsAre(s: string)
    ensures AllDigits(s) <==> !exists i :: 0 <= i < |s| && !('0' <= s[i] <= '9')
    ensures AllDigits(s) <==> forall i :: 0 <= i < |s| ==> IsDigit(s[i])
  {
  }

  lemma {:induction false} ValueDecimal(n: nat)
    ensures Value(Decimal(n)) == n
  {
    if n >= 10 {
      ValueDecimal(n / 10);
      assert Decimal(n)[..|Decimal(n)| - 1] == Decimal(n / 10);
    }
  }

  lemma AtoiDecimal(n: nat)
    ensures Atoi(Decimal(n)) == n && IsTrimmed(Decimal(n))
  {
    ValueDecimal(n);
    assert IsDigit(Decimal(n)[0]) && IsDigit(Decimal(n)[|Decimal(n)| - 1]);
  }
}
