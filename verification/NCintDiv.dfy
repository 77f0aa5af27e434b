/** Long division, modulo and conversions of NCint.hpp. */
module BigDivide {
  import opened Common
  import opened Digits
  import opened BigInteger
  import opened BigMultiply
  import opened Text

  // ------------------------------------------------------------- conversions

  /** NCint.hpp:97-111: assignment from an int. */
  method FromInt(val: int) returns (r: NCint)
    ensures Canonical(r) && Value(r) == val
    ensures |r.data| == Len(r) + 1
  {
    var data := [0];
    var absval := Abs(val);
    while absval > 0
      invariant |data| >= 1 && absval >= 0
      invariant Decimal(data, |data| - 1)
      invariant absval == 0 && |data| > 1 ==> data[|data| - 1] > 0
      invariant Val(data, |data| - 1) + absval * Pow10(|data| - 1) == Abs(val)
      invariant data[0] == 0
    {
      AppendDigit(data, absval);
      data := data + [absval % 10];
      absval := absval / 10;
    }
    ghost var digits := data;
    data := data[0 := if val < 0 then -(|data| - 1) else |data| - 1];
    ValAgree(digits, data, |data| - 1);
    r := NCint(data);
  }

  lemma AppendDigit(data: seq<int>, x: nat)
    requires |data| >= 1
    ensures Val(data + [x % 10], |data|) + (x / 10) * Pow10(|data|)
      == Val(data, |data| - 1) + x * Pow10(|data| - 1)
  {
    var n := |data| - 1;
    var p := Pow10(n);
    ValAgree(data, data + [x % 10], n);
    assert x == 10 * (x / 10) + x % 10;
    ShiftIn(x / 10, x % 10, p);
  }

  /** NCint.hpp:120-134: assignment from decimal text, '-' allowed in front. */
  method FromText(str: Text8) returns (r: NCint)
    requires IsNumeral(Unsigned(str))
    ensures Valid(r) && Len(r) == |Unsigned(str)|
    ensures Value(r) == if Negative(str) then 0 - ParseDec(Unsigned(str)) else ParseDec(Unsigned(str))
    ensures Canonical(r) <==> Unsigned(str) == [] || Unsigned(str)[0] != 48
  {
    var data := PushDigits(Unsigned(str));
    ghost var digits := data;
    data := data[0 := if Negative(str) then -(|data| - 1) else |data| - 1];
    ValAgree(digits, data, |data| - 1);
    r := NCint(data);
  }

  /** NCint.hpp:129-131: digits are pushed from the end of the text. */
  method PushDigits(body: Text8) returns (data: seq<int>)
    requires IsNumeral(body)
    ensures |data| == |body| + 1 && Decimal(data, |body|)
    ensures body != [] ==> data[|body|] == body[0] - 48
    ensures Val(data, |body|) == ParseDec(body)
  {
    data := [0];
    var i := |body|;
    assert body[..i] == body;
    while i > 0
      invariant 0 <= i <= |body| && |data| == |body| - i + 1
      invariant Decimal(data, |data| - 1)
      invariant i < |body| ==> data[|data| - 1] == body[i] - 48
      invariant ParseDec(body) == ParseDec(body[..i]) * Pow10(|data| - 1) + Val(data, |data| - 1)
    {
      ParseLast(body, i);
      PushDigit(ParseDec(body[..i - 1]), body[i - 1] - 48, data);
      data := data + [body[i - 1] - 48];
      i := i - 1;
    }
    assert body[..0] == [];
  }

  /** NCint.hpp:72-81: conversion to text. */
  method ToText(a: NCint) returns (ret: Text8)
    requires Valid(a)
    ensures IsNumeral(Unsigned(ret)) && ParseDec(Unsigned(ret)) == Magnitude(a)
    ensures Negative(ret) <==> a.data[0] < 0
    ensures |Unsigned(ret)| == if a.data[0] == 0 then 1 else Len(a)
  {
    if a.data[0] == 0 {
      return [48];
    }
    var n := Abs(a.data[0]);
    var digits: Text8 := [];
    var i := n;
    while i > 0
      invariant 0 <= i <= n && |digits| == n - i && IsNumeral(digits)
      invariant Magnitude(a) == ParseDec(digits) * Pow10(i) + Val(a.data, i)
    {
      ghost var front := digits;
      digits := digits + [a.data[i] + 48];
      TakeDigit(front, a.data, i);
      i := i - 1;
    }
    ret := if a.data[0] < 0 then [45] + digits else digits;
    assert a.data[0] < 0 ==> ret[1..] == digits;
  }

  lemma TakeDigit(front: Text8, data: seq<int>, i: nat)
    requires IsNumeral(front) && 1 <= i < |data| && 0 <= data[i] <= 9
    ensures ParseDec(front + [data[i] + 48]) * Pow10(i - 1) + Val(data, i - 1)
      == ParseDec(front) * Pow10(i) + Val(data, i)
  {
    var longer := front + [data[i] + 48];
    assert longer[..|longer| - 1] == front;
    ShiftIn(ParseDec(front), data[i], Pow10(i - 1));
  }

  /** Reading back what was written gives a number of the same value; a zero
      comes back as a zero of length 1. */
  method TextRoundTrip(a: NCint) returns (b: NCint)
    requires Valid(a)
    ensures Valid(b) && Value(b) == Value(a)
    ensures Len(b) == if a.data[0] == 0 then 1 else Len(a)
  {
    var text := ToText(a);
    b := FromText(text);
  }

  predicate Negative(str: Text8) {
    str != [] && str[0] == 45
  }

  function Unsigned(str: Text8): Text8 {
    if Negative(str) then str[1..] else str
  }

  lemma ParseLast(body: Text8, i: nat)
    requires IsNumeral(body) && 0 < i <= |body|
    ensures ParseDec(body[..i]) == 10 * ParseDec(body[..i - 1]) + (body[i - 1] - 48)
  {
    assert body[..i][..i - 1] == body[..i - 1];
  }

  lemma PushDigit(rest: nat, d: int, data: seq<int>)
    requires |data| >= 1
    ensures (10 * rest + d) * Pow10(|data| - 1) + Val(data, |data| - 1)
      == rest * Pow10(|data|) + Val(data + [d], |data|)
  {
    var n := |data| - 1;
    ValAgree(data, data + [d], n);
    assert Val(data + [d], n + 1) == Val(data, n) + d * Pow10(n);
    ShiftIn(rest, d, Pow10(n));
  }

  lemma ShiftIn(x: int, d: int, p: int)
    ensures (10 * x + d) * p == x * (10 * p) + d * p
  {
    Distribute(p, 10 * x, d);
    assert (10 * x) * p == x * (10 * p);
  }

  /** NCint.hpp:38-54: conversion to int; no step leaves the range of int. */
  method ToInt(a: NCint) returns (r: int)
    requires Valid(a) && Magnitude(a) <= INT_MAX
    ensures r == Value(a)
  {
    var ret := 0;
    var n := Abs(a.data[0]);
    var i := n;
    while i > 0
      invariant 0 <= i <= n
      invariant ret >= 0 && Magnitude(a) == Val(a.data, i) + ret * Pow10(i)
    {
      ghost var p := Pow10(i - 1);
      assert ret * Pow10(i) == (10 * ret) * p;
      Distribute(p, 10 * ret, a.data[i]);
      ret := ret * 10 + a.data[i];
      i := i - 1;
      ValBound(a.data, i);
      MulMonotone(1, p, ret);
      assert 0 <= ret <= INT_MAX;
    }
    if a.data[0] < 0 {
      ret := -ret;
    }
    return ret;
  }

  // ---------------------------------------------------------------- division

  /** q is x / y rounded toward zero: the remainder is smaller than y and is 0
      or has the sign of x. */
  ghost predicate Truncated(x: int, y: int, q: int) {
    var r := x - q * y;
    Abs(r) < Abs(y) && (r > 0 ==> x > 0) && (r < 0 ==> x < 0)
  }

  lemma TruncatedUnique(x: int, y: int, q: int, q': int)
    requires y != 0 && Truncated(x, y, q) && Truncated(x, y, q')
    ensures q == q'
  {
    Distribute(y, q, -q');
    assert (-q') * y == -(q' * y);
    SmallMultiple(q - q', y);
  }

  /** Where repeated subtraction of b stops: `operator<` compares lengths first,
      so a divisor with leading zeros is not subtracted before the remainder has
      as many digits as it. */
  ghost function Threshold(b: NCint): int
    requires Valid(b) && Len(b) > 0
  {
    if Canonical(b) then Magnitude(b) else Pow10(Len(b) - 1)
  }

  lemma ThresholdBounds(b: NCint)
    requires Valid(b) && Len(b) > 0
    ensures Pow10(Len(b) - 1) <= Threshold(b) < Pow10(Len(b)) && 0 <= Magnitude(b) <= Threshold(b)
    ensures Canonical(b) <==> Threshold(b) == Magnitude(b)
  {
    MagnitudeBounds(b);
    if !Canonical(b) {
      ValZeroTail(b.data, Len(b) - 1, Len(b));
      ValBound(b.data, Len(b) - 1);
    }
  }

  /** `operator<` against a divisor is comparison with the threshold, also for a
      zero that kept a length no longer than the divisor's. */
  lemma LessIsBelowThreshold(rem: NCint, divisor: NCint)
    requires WellFormed(rem) && Valid(divisor) && divisor.data[0] > 0
    requires Canonical(rem) || (Len(rem) <= Len(divisor) && Magnitude(divisor) > 0)
    ensures RepLess(rem, divisor) <==> Value(rem) < Threshold(divisor)
  {
    ThresholdBounds(divisor);
    MagnitudeBounds(rem);
    if Canonical(rem) && 0 <= Len(rem) < Len(divisor) {
      Pow10Monotone(Len(rem), Len(divisor) - 1);
    } else if Canonical(rem) && Len(rem) > Len(divisor) {
      Pow10Monotone(Len(divisor), Len(rem) - 1);
    }
  }

  /** q subtractions of y bring x below t, and no fewer do. */
  ghost predicate Subtracted(x: int, y: int, t: int, q: int) {
    var s := x - q * y;
    q >= 0 && 0 <= s < t && (q > 0 ==> s >= t - y)
  }

  lemma SubtractedUnique(x: int, y: int, t: int, q: int, q': int)
    requires 0 < y <= t && Subtracted(x, y, t, q) && Subtracted(x, y, t, q')
    ensures q == q'
  {
    if q < q' {
      MulMonotone(q + 1, q', y);
      Distribute(y, q, 1);
    } else if q' < q {
      MulMonotone(q' + 1, q, y);
      Distribute(y, q', 1);
    }
  }

  /** Stopping at t instead of y leaves the true remainder exactly for these x. */
  ghost predicate DividesRight(x: int, y: int, t: int)
    requires y != 0
  {
    x < y || (x >= t && x % y >= t - y)
  }

  lemma DividesRightIff(x: int, y: int, t: int, q: int)
    requires 0 < y <= t && Subtracted(x, y, t, q)
    ensures x - q * y < y <==> DividesRight(x, y, t)
  {
    var s := x - q * y;
    if q > 0 {
      MulMonotone(1, q, y);
    }
    if s < y {
      DivModUnique(x, y, q, s);
    } else if s < 2 * y {
      Distribute(y, q, 1);
      DivModUnique(x, y, q + 1, s - y);
    }
  }

  /** A divisor is right for every dividend exactly when it has no leading zero:
      with one, its own value divided by it gives 0. */
  lemma RightForAllIff(b: NCint)
    requires Valid(b) && Magnitude(b) > 0
    ensures Canonical(b) <==> forall x: nat :: DividesRight(x, Magnitude(b), Threshold(b))
  {
    MagnitudeBounds(b);
    ThresholdBounds(b);
    if !Canonical(b) {
      assert !DividesRight(Magnitude(b), Magnitude(b), Threshold(b));
    }
  }

  /** At or above the threshold the subtraction is defined; its result is 0 with
      the divisor's length, or canonical, and smaller unless the divisor is 0. */
  lemma Subtractable(rem: NCint, divisor: NCint)
    requires WellFormed(rem) && Valid(divisor) && divisor.data[0] > 0
    requires !RepLess(rem, divisor) && Value(rem) >= Threshold(divisor)
    ensures Canonical(rem) && rem.data[0] > 0 && Compatible(rem, Neg(divisor))
    ensures Len(rem) >= Len(divisor) && Neg(divisor).data[0] == -divisor.data[0]
    ensures Magnitude(rem) == Magnitude(divisor) ==> Len(rem) == Len(divisor)
  {
    ThresholdBounds(divisor);
    MagnitudeBounds(rem);
    MagnitudeBounds(divisor);
    if Len(rem) > Len(divisor) {
      MagnitudeOrder(rem, divisor);
    }
  }

  lemma SubtractionShrinks(diff: NCint, rem: NCint, divisor: NCint)
    requires WellFormed(diff) && Canonical(rem) && rem.data[0] > 0 && Valid(divisor) && divisor.data[0] > 0
    requires 0 <= Value(diff) == Value(rem) - Value(divisor)
    requires Value(diff) == 0 ==> diff.data[0] == Len(divisor) <= Len(rem)
    ensures RepLess(diff, rem) <==> Value(divisor) > 0
  {
    MagnitudeBounds(divisor);
    MagnitudeBounds(rem);
    if Canonical(diff) {
      LessIsNumericOrder(diff, rem);
    }
  }

  /** NCint.hpp:314: one subtraction. When it leaves the remainder as large as
      it was, so will all others, and the loop of the source never ends. */
  method SubtractOnce(rem: NCint, divisor: NCint) returns (next: NCint, stuck: bool)
    requires WellFormed(rem) && Valid(divisor) && divisor.data[0] > 0
    requires !RepLess(rem, divisor) && Value(rem) >= Threshold(divisor)
    ensures stuck <==> Value(divisor) == 0
    ensures WellFormed(next) && 0 <= Value(next) == Value(rem) - Value(divisor)
    ensures Canonical(next) || Len(next) <= Len(divisor)
  {
    Subtractable(rem, divisor);
    ThresholdBounds(divisor);
    var diff := Sub(rem, divisor);
    next := diff.num;
    SubtractionShrinks(next, rem, divisor);
    var smaller := Less(next, rem);
    stuck := !smaller;
  }

  /** NCint.hpp:313-316: repeated subtraction finds one quotient slot. */
  method QuotientDigit(start: NCint, divisor: NCint) returns (rem: NCint, q: int, stuck: bool)
    requires Canonical(start) && Valid(divisor) && start.data[0] >= 0 && divisor.data[0] > 0
    ensures stuck <==> Value(divisor) == 0 && Value(start) >= Threshold(divisor)
    ensures !stuck ==> WellFormed(rem) && Value(rem) == Value(start) - q * Value(divisor)
    ensures !stuck ==> Subtracted(Value(start), Value(divisor), Threshold(divisor), q)
    ensures !stuck && Canonical(divisor) && Value(start) < 10 * Value(divisor) ==> q <= 9
  {
    rem := start;
    q := 0;
    stuck := false;
    MagnitudeBounds(start);
    ThresholdBounds(divisor);
    LessIsBelowThreshold(rem, divisor);
    var less := Less(rem, divisor);
    while !less
      invariant WellFormed(rem) && 0 <= Value(rem) <= Value(start)
      invariant RepLess(rem, divisor) <==> Value(rem) < Threshold(divisor)
      invariant less <==> RepLess(rem, divisor)
      invariant 0 <= q && Value(start) == q * Value(divisor) + Value(rem)
      invariant q > 0 ==> Value(rem) >= Threshold(divisor) - Value(divisor) && Value(divisor) > 0
      decreases Value(rem)
    {
      Distribute(Value(divisor), q, 1);
      rem, stuck := SubtractOnce(rem, divisor);
      if stuck {
        return;
      }
      q := q + 1;
      LessIsBelowThreshold(rem, divisor);
      less := Less(rem, divisor);
    }
    if q > 9 {
      MulMonotone(10, q, Value(divisor));
    }
  }

  /** The state of long division before slot i: what has been brought down is
      the quotient so far times y, plus a remainder below the threshold t. */
  ghost predicate Divided(dividend: NCint, y: int, t: int, quotient: seq<int>, rem: int, i: nat)
    requires Valid(dividend)
  {
    && i <= Len(dividend) && |quotient| == Len(dividend) - i + 1
    && (forall k :: 1 <= k < |quotient| ==> quotient[k] >= 0)
    && Val(quotient, |quotient| - 1) >= 0 && 0 <= rem < t
    && (Val(quotient, |quotient| - 1) > 0 ==> rem >= t - y)
    && Magnitude(dividend) == Val(dividend.data, i) + Pow10(i) * (Val(quotient, |quotient| - 1) * y + rem)
  }

  lemma DividedStep(dividend: NCint, y: int, t: int, quotient: seq<int>, rem: int, i: nat, q: int)
    requires Valid(dividend) && i > 0 && Divided(dividend, y, t, quotient, rem, i)
    requires Subtracted(10 * rem + dividend.data[i], y, t, q)
    ensures Divided(dividend, y, t, [quotient[0], q] + quotient[1..], 10 * rem + dividend.data[i] - q * y, i - 1)
  {
    var n := |quotient| - 1;
    ValInsert(quotient, q, n);
    DivisionStep(Pow10(i - 1), Val(quotient, n), rem, y, dividend.data[i], q, 10 * rem + dividend.data[i] - q * y);
  }

  lemma DividedStuck(dividend: NCint, t: int, quotient: seq<int>, rem: int, i: nat)
    requires Valid(dividend) && i > 0 && Divided(dividend, 0, t, quotient, rem, i)
    ensures Magnitude(dividend) >= 10 * rem + dividend.data[i]
  {
    var p := Pow10(i - 1);
    var next := 10 * rem + dividend.data[i];
    DivisionStep(p, Val(quotient, |quotient| - 1), rem, 0, dividend.data[i], 0, next);
    assert (10 * Val(quotient, |quotient| - 1) + 0) * 0 == 0;
    ValBound(dividend.data, i - 1);
    MulMonotone(1, p, next);
  }

  /** While the slots above h are empty, what has been brought down has fewer than
      h + len digits: the quotient is not shorter than the dividend needs. */
  ghost predicate LongEnough(quotient: seq<int>, y: int, rem: int, len: nat)
    requires quotient != []
  {
    forall h :: 1 <= h < |quotient| && ZeroAbove(quotient, h) && Val(quotient, |quotient| - 1) > 0 ==>
      Val(quotient, |quotient| - 1) * y + rem < Pow10(h + len)
  }

  lemma NextPrefix(Q: int, y: int, rem: int, d: int, q: int)
    ensures (10 * Q + q) * y + (10 * rem + d - q * y) == 10 * (Q * y + rem) + d
  {
    Distribute(y, 10 * Q, q);
    assert (10 * Q) * y == 10 * (Q * y);
  }

  /** The slots above the first were empty before the insertion, one place lower. */
  lemma EmptyBefore(quotient: seq<int>, q: int, h: nat)
    requires quotient != [] && h >= 1 && ZeroAbove([quotient[0], q] + quotient[1..], h)
    ensures ZeroAbove(quotient, h - 1)
  {
    var next := [quotient[0], q] + quotient[1..];
    assert forall k :: 1 <= k < |quotient| ==> quotient[k] == next[k + 1];
  }

  lemma LongEnoughAt(quotient: seq<int>, y: int, rem: int, len: nat, d: int, h: nat)
    requires quotient != [] && LongEnough(quotient, y, rem, len) && Val(quotient, |quotient| - 1) >= 0
    requires rem < Pow10(len) && 0 <= d <= 9 && 1 <= h <= |quotient| && ZeroAbove(quotient, h - 1)
    ensures 10 * (Val(quotient, |quotient| - 1) * y + rem) + d < Pow10(h + len)
  {
    var Q := Val(quotient, |quotient| - 1);
    assert Pow10(h + len) == 10 * Pow10(h - 1 + len);
    if Q == 0 {
      Pow10Monotone(len, h - 1 + len);
      assert Q * y == 0;
    } else if h == 1 {
      ValZeroTail(quotient, 0, |quotient| - 1);
    }
  }

  lemma LongEnoughStep(quotient: seq<int>, y: int, t: int, rem: int, len: nat, d: int, q: int)
    requires quotient != [] && LongEnough(quotient, y, rem, len) && Val(quotient, |quotient| - 1) >= 0
    requires 0 <= rem < t <= Pow10(len) && 0 <= d <= 9
    ensures LongEnough([quotient[0], q] + quotient[1..], y, 10 * rem + d - q * y, len)
  {
    hide Val, Pow10;
    var n := |quotient| - 1;
    var next := [quotient[0], q] + quotient[1..];
    ValInsert(quotient, q, n);
    NextPrefix(Val(quotient, n), y, rem, d, q);
    forall h | 1 <= h < |next| && ZeroAbove(next, h)
      ensures Val(next, n + 1) * y + (10 * rem + d - q * y) < Pow10(h + len)
    {
      EmptyBefore(quotient, q, h);
      LongEnoughAt(quotient, y, rem, len, d, h);
    }
  }

  /** NCint.hpp:305-318: one quotient slot per digit of the dividend, from the
      top. The quotient grows at its low end. */
  method LongDivision(dividend: NCint, divisor: NCint)
      returns (quotient: seq<int>, remainder: NCint, stuck: bool)
    requires Valid(dividend) && dividend.data[0] >= 0
    requires Valid(divisor) && divisor.data[0] > 0
    ensures stuck <==> Magnitude(divisor) == 0 && Magnitude(dividend) >= Threshold(divisor)
    ensures !stuck ==> WellFormed(remainder)
    ensures !stuck ==> Divided(dividend, Magnitude(divisor), Threshold(divisor), quotient, Value(remainder), 0)
    ensures !stuck ==> LongEnough(quotient, Magnitude(divisor), Value(remainder), Len(divisor))
    ensures !stuck && Canonical(divisor) ==> Decimal(quotient, Len(dividend))
  {
    hide LongEnough;
    quotient := [0];
    remainder := NCint([0]);
    stuck := false;
    ThresholdBounds(divisor);
    NothingDivided(Magnitude(divisor), Len(divisor));
    var len := dividend.data[0];
    ghost var D, T := Magnitude(divisor), Threshold(divisor);
    var i := len;
    while i >= 1
      invariant 0 <= i <= len && WellFormed(remainder)
      invariant Divided(dividend, D, T, quotient, Value(remainder), i)
      invariant LongEnough(quotient, D, Value(remainder), Len(divisor))
      invariant Canonical(divisor) ==> Decimal(quotient, len - i)
    {
      var next := BringDown(remainder, dividend.data[i]);
      ghost var R := Value(remainder);
      var q;
      remainder, q, stuck := QuotientDigit(next, divisor);
      if stuck {
        DividedStuck(dividend, T, quotient, R, i);
        return;
      }
      DividedStep(dividend, D, T, quotient, R, i, q);
      LongEnoughStep(quotient, D, T, R, Len(divisor), dividend.data[i], q);
      quotient := [quotient[0], q] + quotient[1..];
      i := i - 1;
    }
    DividedAll(dividend, D, T, quotient, Value(remainder));
  }

  lemma NothingDivided(y: int, len: nat)
    ensures LongEnough([0], y, 0, len)
  {
  }

  lemma DividedAll(dividend: NCint, y: int, t: int, quotient: seq<int>, rem: int)
    requires Valid(dividend) && Divided(dividend, y, t, quotient, rem, 0)
    ensures Subtracted(Magnitude(dividend), y, t, Val(quotient, |quotient| - 1))
    ensures y == 0 ==> Magnitude(dividend) < t
  {
    assert Pow10(0) == 1;
  }

  /** NCint.hpp:310-311: the next digit of the dividend joins the remainder. */
  method BringDown(remainder: NCint, d: int) returns (next: NCint)
    requires WellFormed(remainder) && Value(remainder) >= 0 && 0 <= d <= 9
    ensures Canonical(next) && next.data[0] >= 0 && Value(next) == 10 * Value(remainder) + d
  {
    var ten := FromInt(10);
    var digit := FromInt(d);
    var shifted, _ := Mul(remainder, ten);
    CanonicalCompatible(shifted, digit);
    var sum := Add(shifted, digit);
    next := sum.num;
    MagnitudeBounds(shifted);
    MagnitudeBounds(digit);
    MagnitudeBounds(next);
  }

  lemma DivisionStep(p: int, Q: int, R: int, D: int, d: int, q: int, R': int)
    requires 10 * R + d == q * D + R'
    ensures d * p + (10 * p) * (Q * D + R) == p * ((10 * Q + q) * D + R')
  {
    calc {
      p * ((10 * Q + q) * D + R');
      { Distribute(D, 10 * Q, q); }
      p * ((10 * Q) * D + q * D + R');
      p * ((10 * Q) * D + 10 * R + d);
      { assert (10 * Q) * D == 10 * (Q * D); }
      p * (10 * (Q * D + R) + d);
      { Distribute(p, 10 * (Q * D + R), d); }
      p * (10 * (Q * D + R)) + p * d;
      { assert p * (10 * (Q * D + R)) == (10 * p) * (Q * D + R); }
      d * p + (10 * p) * (Q * D + R);
    }
  }

  /** NCint.hpp:320-326: drop leading zeros and set the sign. */
  method TrimQuotient(quotient: seq<int>, negative: bool) returns (r: NCint)
    requires |quotient| >= 1 && forall k :: 1 <= k < |quotient| ==> quotient[k] >= 0
    ensures Slotted(r) && Value(r) == Signed(negative, Val(quotient, |quotient| - 1))
    ensures Len(r) < |quotient| && ZeroAbove(quotient, Len(r))
    ensures Decimal(quotient, |quotient| - 1) ==> Canonical(r)
  {
    var n := |quotient| - 1;
    var qlen := n;
    while qlen > 0 && quotient[qlen] == 0
      invariant 0 <= qlen <= n
      invariant forall k :: qlen < k <= n ==> quotient[k] == 0
    {
      qlen := qlen - 1;
    }
    ValZeroTail(quotient, qlen, n);
    var data := Resize(quotient, qlen + 1);
    data := data[0 := if negative then -qlen else qlen];
    ValAgree(quotient, data, qlen);
    r := NCint(data);
  }

  function Signed(negative: bool, x: int): int {
    if negative then -x else x
  }

  lemma SmallDividend(dividend: NCint, divisor: NCint)
    requires Valid(dividend) && dividend.data[0] >= 0 && Valid(divisor) && divisor.data[0] > 0
    requires RepLess(dividend, divisor)
    ensures Magnitude(dividend) < Threshold(divisor)
    ensures Subtracted(Magnitude(dividend), Magnitude(divisor), Threshold(divisor), 0)
  {
    MagnitudeBounds(dividend);
    ThresholdBounds(divisor);
    if Len(dividend) < Len(divisor) {
      Pow10Monotone(Len(dividend), Len(divisor) - 1);
    }
  }

  /** NCint.hpp:302-326, on magnitudes. */
  method DivideNonNegative(dividend: NCint, divisor: NCint, negative: bool) returns (r: Outcome, ghost q: nat)
    requires Valid(dividend) && dividend.data[0] >= 0
    requires Valid(divisor) && divisor.data[0] > 0
    ensures r == NeverEnds <==> Magnitude(divisor) == 0 && Magnitude(dividend) >= Threshold(divisor)
    ensures r != NeverEnds ==>
      && r.Ok? && Slotted(r.num) && Value(r.num) == Signed(negative, q)
      && Subtracted(Magnitude(dividend), Magnitude(divisor), Threshold(divisor), q)
      && (q > 0 ==> Magnitude(dividend) < Pow10(Len(r.num) + Len(divisor)))
      && (Canonical(divisor) ==> Canonical(r.num))
  {
    hide Subtracted, Threshold, Val;
    q := 0;
    var small := Less(dividend, divisor);
    if small {
      SmallDividend(dividend, divisor);
      var zero := FromInt(0);
      return Ok(zero), 0;
    }
    var quotient, remainder, stuck := LongDivision(dividend, divisor);
    if stuck {
      return NeverEnds, 0;
    }
    DividedAll(dividend, Magnitude(divisor), Threshold(divisor), quotient, Value(remainder));
    q := Val(quotient, |quotient| - 1);
    var trimmed := TrimQuotient(quotient, negative);
    if q > 0 {
      QuotientLongEnough(dividend, divisor, quotient, Value(remainder), trimmed);
    }
    r := Ok(trimmed);
  }

  lemma QuotientLongEnough(dividend: NCint, divisor: NCint, quotient: seq<int>, rem: int, trimmed: NCint)
    requires Valid(dividend) && Valid(divisor) && Shaped(trimmed) && Len(divisor) > 0
    requires Divided(dividend, Magnitude(divisor), Threshold(divisor), quotient, rem, 0)
    requires LongEnough(quotient, Magnitude(divisor), rem, Len(divisor))
    requires Len(trimmed) < |quotient| && ZeroAbove(quotient, Len(trimmed)) && Val(quotient, |quotient| - 1) > 0
    ensures Magnitude(dividend) < Pow10(Len(trimmed) + Len(divisor))
  {
    assert Pow10(0) == 1;
    if Len(trimmed) == 0 {
      ValZeroTail(quotient, 0, |quotient| - 1);
    }
  }

  /** NCint.hpp:289-326: the general division. */
  method DivideMagnitudes(a: NCint, b: NCint) returns (r: Outcome, ghost q: nat)
    requires Valid(a) && Valid(b) && b.data[0] != 0
    ensures r == NeverEnds <==> Magnitude(b) == 0 && Magnitude(a) >= Threshold(b)
    ensures r != NeverEnds ==>
      && r.Ok? && Slotted(r.num) && Value(r.num) == Signed((a.data[0] < 0) != (b.data[0] < 0), q)
      && Subtracted(Magnitude(a), Magnitude(b), Threshold(b), q)
      && (q > 0 ==> Magnitude(a) < Pow10(Len(r.num) + Len(b)))
      && (Canonical(b) ==> Canonical(r.num))
  {
    var dividend, divisor, negative := a, b, false;
    if dividend.data[0] < 0 {
      negative := !negative;
      dividend := Neg(dividend);
    }
    if divisor.data[0] < 0 {
      negative := !negative;
      divisor := Neg(divisor);
    }
    SameThreshold(b);
    r, q := DivideNonNegative(dividend, divisor, negative);
  }

  lemma SameThreshold(b: NCint)
    requires Valid(b) && Len(b) > 0
    ensures Valid(Neg(b)) && Len(Neg(b)) == Len(b) && Threshold(Neg(b)) == Threshold(b)
    ensures Canonical(Neg(b)) <==> Canonical(b)
  {
  }

  /** `operator/`, on every valid pair. It throws exactly for a divisor of length
      0. A divisor of value 0 that kept a length is never subtracted, or for
      ever. Any other gives the quotient of repeated subtraction down to the
      threshold, which is the truncated one exactly when `DividesRight` says so:
      always, for a divisor without leading zeros. The slots of the quotient are
      digits then. The shortcuts for 1 and -1 fire only on vectors without spare
      slots; the general division gives the same value when they do not. */
  method Div(a: NCint, b: NCint) returns (r: Outcome)
    requires Valid(a) && Valid(b)
    ensures r == DivisionByZero <==> b.data[0] == 0
    ensures r == NeverEnds <==> b.data[0] != 0 && Value(b) == 0 && Magnitude(a) >= Threshold(b)
    ensures r == DivisionByZero || r == NeverEnds || (r.Ok? && Slotted(r.num))
    ensures r.Ok? && Value(r.num) != 0 ==> Magnitude(a) < Pow10(Len(r.num) + Len(b))
    ensures r.Ok? && Value(b) == 0 ==> Value(r.num) == 0
    ensures r.Ok? && Value(b) != 0 ==>
      && Subtracted(Magnitude(a), Magnitude(b), Threshold(b), Abs(Value(r.num)))
      && (Truncated(Value(a), Value(b), Value(r.num)) <==> DividesRight(Magnitude(a), Magnitude(b), Threshold(b)))
    ensures r.Ok? && Canonical(b) ==>
      && Valid(r.num) && Truncated(Value(a), Value(b), Value(r.num))
      && (WellFormed(a) ==> WellFormed(r.num))
  {
    hide Subtracted, Threshold, Truncated, DividesRight;
    if b.data[0] == 0 {
      return DivisionByZero;
    }
    ghost var negative := (a.data[0] < 0) != (b.data[0] < 0);
    var one := FromInt(1);
    var minusOne := FromInt(-1);
    if b == one {
      UnitDivisor(a, b);
      QuotientDecided(a, b, Magnitude(a), Value(a));
      LongerPower(a, b);
      return Ok(a);
    }
    if b == minusOne {
      UnitDivisor(a, b);
      QuotientDecided(a, b, Magnitude(a), Value(Neg(a)));
      LongerPower(a, b);
      return Ok(Neg(a));
    }
    ghost var q;
    r, q := DivideMagnitudes(a, b);
    if r.Ok? {
      QuotientDecided(a, b, q, Value(r.num));
    }
  }

  lemma LongerPower(a: NCint, b: NCint)
    requires Valid(a) && Valid(b)
    ensures Magnitude(a) < Pow10(Len(a) + Len(b))
  {
    MagnitudeBounds(a);
    Pow10Monotone(Len(a), Len(a) + Len(b));
  }

  lemma UnitDivisor(a: NCint, b: NCint)
    requires Valid(a) && Canonical(b) && Abs(Value(b)) == 1
    ensures Len(b) > 0 && Magnitude(b) == 1
    ensures Subtracted(Magnitude(a), Magnitude(b), Threshold(b), Magnitude(a))
  {
    MagnitudeBounds(a);
    MagnitudeBounds(b);
  }

  /** The sign rule turns the quotient of the magnitudes into that of the values. */
  lemma QuotientDecided(a: NCint, b: NCint, q: nat, signed: int)
    requires Valid(a) && Valid(b) && b.data[0] != 0
    requires Subtracted(Magnitude(a), Magnitude(b), Threshold(b), q)
    requires signed == Signed((a.data[0] < 0) != (b.data[0] < 0), q)
    ensures Abs(signed) == q && (Value(b) == 0 ==> q == 0)
    ensures Value(b) != 0 ==>
      (Truncated(Value(a), Value(b), signed) <==> DividesRight(Magnitude(a), Magnitude(b), Threshold(b)))
    ensures Canonical(b) ==> Value(b) != 0 && Truncated(Value(a), Value(b), signed)
  {
    MagnitudeBounds(a);
    MagnitudeBounds(b);
    ThresholdBounds(b);
    if Value(b) != 0 {
      DividesRightIff(Magnitude(a), Magnitude(b), Threshold(b), q);
      SignedRemainder(Value(a), Value(b), q, signed, a.data[0] < 0, b.data[0] < 0);
    }
  }

  lemma SignedRemainder(x: int, y: int, q: nat, signed: int, xNegative: bool, yNegative: bool)
    requires y != 0 && yNegative == (y < 0) && (xNegative ==> x <= 0) && (!xNegative ==> x >= 0)
    requires Abs(x) >= q * Abs(y) && signed == Signed(xNegative != yNegative, q)
    ensures Truncated(x, y, signed) <==> Abs(x) - q * Abs(y) < Abs(y)
  {
    SignedProduct(q, y);
    MulMonotone(0, q, Abs(y));
    assert signed * y == if xNegative then -(q * Abs(y)) else q * Abs(y);
  }

  /** The plainest failure: a number divided by itself written with leading
      zeros, such as 7 / 007, gives 0. */
  method OwnValue(c: NCint, b: NCint) returns (r: Outcome)
    requires Canonical(c) && Valid(b) && Value(c) == Value(b) != 0
    ensures r.Ok? && Shaped(r.num) && Value(r.num) == if Canonical(b) then 1 else 0
  {
    MagnitudeBounds(b);
    ThresholdBounds(b);
    r := Div(c, b);
    if Canonical(b) {
      TruncatedUnique(Value(b), Value(b), 1, Value(r.num));
    } else {
      SubtractedUnique(Magnitude(b), Magnitude(b), Threshold(b), 0, Abs(Value(r.num)));
    }
  }

  /** `operator%`, on every valid pair: it throws and never ends exactly where
      division does, and otherwise leaves what the subtractions leave. That is
      the remainder of truncated division, smaller than the divisor and with the
      dividend's sign, exactly when `DividesRight` says so: always, for a divisor
      without leading zeros. A remainder of 0 may keep the dividend's length. */
  method Mod(a: NCint, b: NCint) returns (r: Outcome, ghost quotient: int)
    requires Valid(a) && Valid(b)
    ensures r == DivisionByZero <==> b.data[0] == 0
    ensures r == NeverEnds <==> b.data[0] != 0 && Value(b) == 0 && Magnitude(a) >= Threshold(b)
    ensures r == DivisionByZero || r == NeverEnds || (r.Ok? && Valid(r.num))
    ensures r.Ok? ==> Value(r.num) == Value(a) - quotient * Value(b) && (WellFormed(a) ==> WellFormed(r.num))
    ensures r.Ok? && Value(b) == 0 ==> Value(r.num) == Value(a)
    ensures r.Ok? && Value(b) != 0 ==>
      && Subtracted(Magnitude(a), Magnitude(b), Threshold(b), Abs(quotient))
      && (Truncated(Value(a), Value(b), quotient) <==> DividesRight(Magnitude(a), Magnitude(b), Threshold(b)))
    ensures r.Ok? && Canonical(b) ==> Truncated(Value(a), Value(b), quotient)
  {
    hide Subtracted, Truncated, DividesRight, Threshold;
    quotient := 0;
    MagnitudeBounds(b);
    var q := Div(a, b);
    if !q.Ok? {
      return q, 0;
    }
    quotient := Value(q.num);
    ProductSmaller(a, b, q.num);
    var product, _ := Mul(q.num, b);
    ProductCompatible(a, product);
    r := Sub(a, product);
  }

  /** What is subtracted is no more than the dividend, so the product fits. */
  lemma ProductSmaller(a: NCint, b: NCint, q: NCint)
    requires Valid(a) && Valid(b) && b.data[0] != 0 && Slotted(q)
    requires Value(b) != 0 ==> Subtracted(Magnitude(a), Magnitude(b), Threshold(b), Abs(Value(q)))
    requires Value(b) == 0 ==> Value(q) == 0
    requires Value(q) != 0 ==> Magnitude(a) < Pow10(Len(q) + Len(b))
    ensures Multipliable(q, b) && Abs(Value(q) * Value(b)) <= Magnitude(a)
    ensures Value(b) == 0 ==> Value(q) * Value(b) == 0
  {
    MagnitudeBounds(a);
    MagnitudeBounds(b);
    SlottedMagnitude(q);
    AbsProduct(Value(q), Value(b));
    if Value(q) == 0 {
      assert Magnitude(q) * Magnitude(b) == 0;
    } else {
      assert Abs(Value(q)) == Magnitude(q) && Abs(Value(b)) == Magnitude(b);
    }
  }

  lemma {:induction false} ValNonNegative(d: seq<int>, n: nat)
    requires n < |d| && forall k :: 1 <= k <= n ==> d[k] >= 0
    ensures Val(d, n) >= 0
  {
    if n == 0 {
    } else {
      ValNonNegative(d, n - 1);
      MulMonotone(0, d[n], Pow10(n - 1));
    }
  }

  lemma SlottedMagnitude(q: NCint)
    requires Slotted(q)
    ensures Magnitude(q) >= 0 && Abs(Value(q)) == Magnitude(q)
  {
    ValNonNegative(q.data, Len(q));
  }

  lemma AbsProduct(x: int, y: int)
    ensures Abs(x * y) == Abs(x) * Abs(y)
  {
    SignedProduct(x, y);
    MulMonotone(0, Abs(x), Abs(y));
    assert x * y == Abs(x) * Abs(y) || x * y == -(Abs(x) * Abs(y));
  }

  lemma ProductCompatible(a: NCint, product: NCint)
    requires Valid(a) && Canonical(product) && Abs(Value(product)) <= Magnitude(a)
    ensures Compatible(a, Neg(product))
  {
    MagnitudeBounds(a);
    MagnitudeBounds(product);
    if Len(product) > Len(a) {
      MagnitudeOrder(product, a);
    }
  }
}
