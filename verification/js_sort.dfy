/**
  JavaScript's default `Array.prototype.sort()` on arrays of non-negative
  integers. Without a comparator the elements are compared as strings:
  `x` goes before `y` when `String(x)` precedes `String(y)` by code units,
  so 10 sorts before 2. Because `String` is injective on integers this order
  is total and antisymmetric, and a sorted arrangement of a multiset is
  unique: any sorting algorithm gives the same array as the insertion sort
  written here.
 */
module JsSort {
  import opened Seqs

  function Digit(d: nat): char
    requires d < 10
  {
    (48 + d) as char
  }

  predicate AllDigits(s: string)
  {
    forall k :: 0 <= k < |s| ==> '0' <= s[k] <= '9'
  }

  /** `String(n)`: the decimal digits of `n`. */
  function DecimalString(n: nat): (s: string)
    ensures |s| >= 1
    ensures AllDigits(s)
    ensures n >= 10 ==> |s| >= 2
  {
    if n < 10 then [Digit(n)] else DecimalString(n / 10) + [Digit(n % 10)]
  }

  /** The number a non-empty string of decimal digits denotes; the inverse
      of `DecimalString`, used to show that `DecimalString` is injective. */
  function ParseDecimal(s: string): (n: nat)
    requires |s| >= 1
    requires AllDigits(s)
  {
    var last := (s[|s| - 1] as int) - 48;
    if |s| == 1 then last else ParseDecimal(s[..|s| - 1]) * 10 + last
  }

  /** Reading back the digits of `n` gives `n`. */
  lemma {:induction false} ParseDecimalString(n: nat)
    ensures ParseDecimal(DecimalString(n)) == n
  {
    if n >= 10 {
      var s := DecimalString(n);
      assert s[..|s| - 1] == DecimalString(n / 10);
      ParseDecimalString(n / 10);
    }
  }

  /** Different numbers have different decimal strings. */
  lemma DecimalStringInjective(a: nat, b: nat)
    requires DecimalString(a) == DecimalString(b)
    ensures a == b
  {
    ParseDecimalString(a);
    ParseDecimalString(b);
  }

  /** `a <= b` on JavaScript strings: lexicographic by code unit, a prefix first. */
  predicate LexLeq(a: string, b: string)
    decreases |a|
  {
    if |a| == 0 then true
    else if |b| == 0 then false
    else if a[0] < b[0] then true
    else if a[0] == b[0] then LexLeq(a[1..], b[1..])
    else false
  }

  lemma {:induction false} LexTotal(a: string, b: string)
    ensures LexLeq(a, b) || LexLeq(b, a)
    decreases |a|
  {
    if |a| > 0 && |b| > 0 && a[0] == b[0] {
      LexTotal(a[1..], b[1..]);
    }
  }

  lemma {:induction false} LexAntisymmetric(a: string, b: string)
    requires LexLeq(a, b) && LexLeq(b, a)
    ensures a == b
    decreases |a|
  {
    if |a| > 0 {
      LexAntisymmetric(a[1..], b[1..]);
      assert a == [a[0]] + a[1..];
      assert b == [b[0]] + b[1..];
    }
  }

  lemma {:induction false} LexTransitive(a: string, b: string, c: string)
    requires LexLeq(a, b) && LexLeq(b, c)
    ensures LexLeq(a, c)
    decreases |a|
  {
    if |a| > 0 && a[0] == b[0] && b[0] == c[0] {
      LexTransitive(a[1..], b[1..], c[1..]);
    }
  }

  /** The order the default sort puts numbers in. */
  predicate KeyLeq(x: nat, y: nat)
  {
    LexLeq(DecimalString(x), DecimalString(y))
  }

  lemma KeyTotal(x: nat, y: nat)
    ensures KeyLeq(x, y) || KeyLeq(y, x)
  {
    LexTotal(DecimalString(x), DecimalString(y));
  }

  lemma KeyAntisymmetric(x: nat, y: nat)
    requires KeyLeq(x, y) && KeyLeq(y, x)
    ensures x == y
  {
    LexAntisymmetric(DecimalString(x), DecimalString(y));
    DecimalStringInjective(x, y);
  }

  lemma KeyTransitive(x: nat, y: nat, z: nat)
    requires KeyLeq(x, y) && KeyLeq(y, z)
    ensures KeyLeq(x, z)
  {
    LexTransitive(DecimalString(x), DecimalString(y), DecimalString(z));
  }

  /** Ordered as the default sort leaves an array. */
  predicate JsSorted(s: seq<nat>)
  {
    forall i, j :: 0 <= i < j < |s| ==> KeyLeq(s[i], s[j])
  }

  /** Puts `x` before the first element it does not follow. */
  function Insert(x: nat, s: seq<nat>): (r: seq<nat>)
    ensures multiset(r) == multiset(s) + multiset{x}
  {
    if |s| == 0 then [x]
    else if KeyLeq(x, s[0]) then [x] + s
    else
      assert s == [s[0]] + s[1..];
      [s[0]] + Insert(x, s[1..])
  }

  lemma {:induction false} InsertKeepsSorted(x: nat, s: seq<nat>)
    requires JsSorted(s)
    ensures JsSorted(Insert(x, s))
  {
    if |s| > 0 {
      if KeyLeq(x, s[0]) {
        forall j | 1 <= j < |s|
          ensures KeyLeq(x, s[j])
        {
          KeyTransitive(x, s[0], s[j]);
        }
      } else {
        KeyTotal(x, s[0]);
        var t := Insert(x, s[1..]);
        InsertKeepsSorted(x, s[1..]);
        forall j | 0 <= j < |t|
          ensures KeyLeq(s[0], t[j])
        {
          assert t[j] in multiset(t);
          assert t[j] == x || t[j] in s[1..];
        }
      }
    }
  }

  /** `Array.prototype.sort()` without a comparator, on non-negative integers. */
  function DefaultSort(s: seq<nat>): (r: seq<nat>)
    ensures multiset(r) == multiset(s)
    ensures JsSorted(r)
  {
    if |s| == 0 then []
    else
      var t := DefaultSort(s[1..]);
      InsertKeepsSorted(s[0], t);
      assert s == [s[0]] + s[1..];
      Insert(s[0], t)
  }

  /** The first element of a sorted sequence is at or before every element. */
  lemma FirstIsLeast(s: seq<nat>, x: nat)
    requires JsSorted(s)
    requires x in s
    ensures x == s[0] || KeyLeq(s[0], x)
  {
    var j :| 0 <= j < |s| && s[j] == x;
  }

  /** There is only one sorted arrangement of a multiset of numbers. */
  lemma {:induction false} SortedUnique(a: seq<nat>, b: seq<nat>)
    requires JsSorted(a) && JsSorted(b)
    requires multiset(a) == multiset(b)
    ensures a == b
    decreases |a|
  {
    assert |a| == |multiset(a)| == |multiset(b)| == |b|;
    if |a| > 0 {
      assert a[0] in multiset(b) && b[0] in multiset(a);
      FirstIsLeast(b, a[0]);
      FirstIsLeast(a, b[0]);
      if KeyLeq(a[0], b[0]) && KeyLeq(b[0], a[0]) {
        KeyAntisymmetric(a[0], b[0]);
      }
      assert a == [a[0]] + a[1..];
      assert b == [b[0]] + b[1..];
      assert a[0] == b[0];
      assert multiset(a[1..]) == multiset(a) - multiset{a[0]};
      assert multiset(b[1..]) == multiset(b) - multiset{b[0]};
      assert JsSorted(a[1..]);
      assert JsSorted(b[1..]);
      SortedUnique(a[1..], b[1..]);
    }
  }

  /** Deleting elements from a sorted sequence leaves it sorted. */
  lemma {:induction false} SubseqKeepsSorted(a: seq<nat>, b: seq<nat>)
    requires IsSubseq(a, b)
    requires JsSorted(b)
    ensures JsSorted(a)
    decreases |b|
  {
    if |a| > 0 {
      if a[0] == b[0] && IsSubseq(a[1..], b[1..]) {
        SubseqKeepsSorted(a[1..], b[1..]);
        SubseqMembers(a[1..], b[1..]);
        forall j | 1 <= j < |a|
          ensures KeyLeq(a[0], a[j])
        {
          assert a[j] in a[1..];
        }
      } else {
        SubseqKeepsSorted(a, b[1..]);
      }
    }
  }

  /** The default sort is not numeric: 10 goes before 2. */
  lemma TenSortsBeforeTwo()
    ensures DefaultSort([2, 10]) == [10, 2]
  {
    assert DecimalString(10) == ['1', '0'];
    assert DecimalString(2) == ['2'];
    assert KeyLeq(10, 2);
    SortedUnique(DefaultSort([2, 10]), [10, 2]);
  }
}
