/** Python's ordering of `str` values and `list.sort()` over them: the order
    in which the requested changes are taken. The order is by character code,
    position by position, a proper prefix first; it is not numeric. */
module Ordering {
  import opened Text

  /** Python's `a < b` on strings. */
  predicate Less(a: string, b: string)
    decreases |a|
  {
    |b| > 0 && (|a| == 0 || a[0] < b[0] || (a[0] == b[0] && Less(a[1..], b[1..])))
  }

  /** Python's `a <= b` on strings. */
  predicate LessEq(a: string, b: string) {
    a == b || Less(a, b)
  }

  lemma {:induction false} LessIrreflexive(a: string)
    ensures !Less(a, a)
    decreases |a|
  {
    if |a| > 0 {
      LessIrreflexive(a[1..]);
    }
  }

  lemma {:induction false} LessTotal(a: string, b: string)
    ensures Less(a, b) || a == b || Less(b, a)
    decreases |a|
  {
    if |a| > 0 && |b| > 0 && a[0] == b[0] {
      LessTotal(a[1..], b[1..]);
      if a[1..] == b[1..] {
        assert a == [a[0]] + a[1..] && b == [b[0]] + b[1..];
      }
    }
  }

  lemma {:induction false} LessTransitive(a: string, b: string, c: string)
    requires Less(a, b) && Less(b, c)
    ensures Less(a, c)
    decreases |a|
  {
    if |a| > 0 && a[0] == b[0] && b[0] == c[0] {
      LessTransitive(a[1..], b[1..], c[1..]);
    }
  }

  lemma LessEqTotal(a: string, b: string)
    ensures LessEq(a, b) || LessEq(b, a)
  {
    LessTotal(a, b);
  }

  lemma LessEqTransitive(a: string, b: string, c: string)
    requires LessEq(a, b) && LessEq(b, c)
    ensures LessEq(a, c)
  {
    if a != b && b != c {
      LessTransitive(a, b, c);
    }
  }

  /** Every earlier entry is at most every later one. */
  predicate Sorted(s: seq<string>) {
    forall i, j :: 0 <= i < j < |s| ==> LessEq(s[i], s[j])
  }

  /** One step of the sort: `x` placed before the first entry it does not exceed. */
  function Insert(x: string, s: seq<string>): (r: seq<string>)
    requires Sorted(s)
    ensures Sorted(r)
    ensures multiset(r) == multiset(s) + multiset{x}
    ensures |r| == |s| + 1
    decreases |s|
  {
    if |s| == 0 then [x]
    else if LessEq(x, s[0]) then
      InsertFrontSorted(x, s);
      [x] + s
    else
      var rest := Insert(x, s[1..]);
      LessEqTotal(x, s[0]);
      InsertAfterHeadSorted(x, s, rest);
      assert s == [s[0]] + s[1..];
      [s[0]] + rest
  }

  lemma InsertFrontSorted(x: string, s: seq<string>)
    requires Sorted(s) && |s| > 0 && LessEq(x, s[0])
    ensures Sorted([x] + s)
  {
    var r := [x] + s;
    forall i, j | 0 <= i < j < |r|
      ensures LessEq(r[i], r[j])
    {
      if i == 0 && j > 1 {
        LessEqTransitive(x, s[0], s[j - 1]);
      }
    }
  }

  lemma InsertAfterHeadSorted(x: string, s: seq<string>, rest: seq<string>)
    requires Sorted(s) && |s| > 0 && LessEq(s[0], x)
    requires Sorted(rest) && multiset(rest) == multiset(s[1..]) + multiset{x}
    ensures Sorted([s[0]] + rest)
  {
    var r := [s[0]] + rest;
    forall j | 0 < j < |r|
      ensures LessEq(s[0], r[j])
    {
      assert r[j] in multiset(rest);
      if r[j] != x {
        assert r[j] in multiset(s[1..]);
        var k :| 0 <= k < |s[1..]| && s[1..][k] == r[j];
        assert s[k + 1] == r[j];
      }
    }
  }

  /** Python's `list.sort()` on strings. */
  function Sort(s: seq<string>): (r: seq<string>)
    ensures Sorted(r)
    ensures multiset(r) == multiset(s)
    ensures |r| == |s|
    decreases |s|
  {
    if |s| == 0 then []
    else
      assert s == s[..|s| - 1] + [s[|s| - 1]];
      Insert(s[|s| - 1], Sort(s[..|s| - 1]))
  }

  /** For digit strings of the same length, the string order is the numeric order. */
  lemma {:induction false} SameLengthDigitsOrder(a: string, b: string)
    requires |a| == |b|
    requires AllDigits(a) && AllDigits(b)
    ensures Less(a, b) <==> DigitsValue(a) < DigitsValue(b)
    decreases |a|
  {
    if |a| > 0 {
      LeadingDigit(a);
      LeadingDigit(b);
      DigitsBelowPow10(a[1..]);
      DigitsBelowPow10(b[1..]);
      SameLengthDigitsOrder(a[1..], b[1..]);
      PlaceValueOrder(DigitValue(a[0]), DigitValue(b[0]), DigitsValue(a[1..]), DigitsValue(b[1..]), Pow10(|a| - 1));
    }
  }

  /** Comparing two numbers digit by digit from the most significant place. */
  lemma PlaceValueOrder(da: nat, db: nat, ra: nat, rb: nat, p: nat)
    requires ra < p && rb < p
    ensures da < db ==> da * p + ra < db * p + rb
    ensures db < da ==> db * p + rb < da * p + ra
    ensures da == db ==> (da * p + ra < db * p + rb <==> ra < rb)
  {
    if da < db {
      MulMonotone(da + 1, db, p);
    } else if db < da {
      MulMonotone(db + 1, da, p);
    }
  }

  function Pow10(n: nat): (p: nat)
    ensures p >= 1
  {
    if n == 0 then 1 else 10 * Pow10(n - 1)
  }

  lemma MulMonotone(x: nat, y: nat, p: nat)
    requires x <= y
    ensures x * p <= y * p
  {}

  lemma ShiftPlace(d0: nat, p: nat, x: nat, dl: nat)
    ensures (d0 * p + x) * 10 + dl == d0 * (10 * p) + (x * 10 + dl)
  {}

  /** The value of a digit string read from its most significant end. */
  lemma {:induction false} LeadingDigit(s: string)
    requires |s| > 0 && AllDigits(s)
    ensures DigitsValue(s) == DigitValue(s[0]) * Pow10(|s| - 1) + DigitsValue(s[1..])
    decreases |s|
  {
    if |s| > 1 {
      var m := |s|;
      var init := s[..m - 1];
      var tail := s[1..];
      LeadingDigit(init);
      assert init[1..] == tail[..m - 2];
      assert init[0] == s[0];
      assert tail[m - 2] == s[m - 1];
      ShiftPlace(DigitValue(s[0]), Pow10(m - 2), DigitsValue(init[1..]), DigitValue(s[m - 1]));
    }
  }

  lemma {:induction false} DigitsBelowPow10(s: string)
    requires AllDigits(s)
    ensures DigitsValue(s) < Pow10(|s|)
    decreases |s|
  {
    if |s| > 0 {
      DigitsBelowPow10(s[..|s| - 1]);
    }
  }

  /** When every requested id has the same number of digits, sorting them
      as strings puts them in ascending numeric order. */
  lemma SortedSameLengthIsNumeric(s: seq<string>, width: nat)
    requires Sorted(s)
    requires forall i :: 0 <= i < |s| ==> |s[i]| == width && AllDigits(s[i])
    ensures forall i, j :: 0 <= i < j < |s| ==> DigitsValue(s[i]) <= DigitsValue(s[j])
  {
    forall i, j | 0 <= i < j < |s|
      ensures DigitsValue(s[i]) <= DigitsValue(s[j])
    {
      SameLengthDigitsOrder(s[i], s[j]);
    }
  }

  /** Ids of different lengths do not come out numerically: "100" sorts before "20". */
  lemma TextOrderIsNotNumeric()
    ensures Sort(["20", "100"]) == ["100", "20"]
    ensures DigitsValue("20") < DigitsValue("100")
  {
    assert ["20", "100"][..1] == ["20"];
    assert ["20"][..0] == [];
    assert Sort(["20"]) == ["20"];
    assert Less("100", "20");
  }
}
