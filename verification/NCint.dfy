/** The signed decimal big integer of NCint.hpp. Operators work on copies of a
    digit vector, so a number is a value and each operator is a method with
    the source's loops over a local vector. */
module BigInteger {
  import opened Common
  import opened Digits

  datatype NCint = NCint(data: seq<int>)

  /** The ways an operator can leave its defined behaviour: subtraction borrows
      out of the top digit, division throws, or division never ends. */
  datatype Outcome = Ok(num: NCint) | BorrowPastTop | DivisionByZero | NeverEnds

  /** Slot 0 holds a length that the vector has, and a sign. */
  ghost predicate Shaped(a: NCint) {
    |a.data| >= 1 && Abs(a.data[0]) < |a.data|
  }

  /** The loose representation: the vector may be longer than the length says,
      but every slot above the length is 0. */
  ghost predicate Valid(a: NCint) {
    && Shaped(a)
    && Decimal(a.data, Abs(a.data[0]))
    && ZeroAbove(a.data, Abs(a.data[0]))
  }

  ghost function Len(a: NCint): nat
    requires Shaped(a)
  {
    Abs(a.data[0])
  }

  ghost function Magnitude(a: NCint): int
    requires Shaped(a)
  {
    Val(a.data, Len(a))
  }

  ghost function Value(a: NCint): int
    requires Shaped(a)
  {
    if a.data[0] < 0 then -Magnitude(a) else Magnitude(a)
  }

  /** No leading zero; zero has length 0. */
  ghost predicate Canonical(a: NCint) {
    Valid(a) && (Len(a) > 0 ==> a.data[Len(a)] > 0)
  }

  /** What the operators produce: canonical, unless the value is 0. */
  ghost predicate WellFormed(a: NCint) {
    Valid(a) && (Canonical(a) || Magnitude(a) == 0)
  }

  /** What division may produce when its divisor has leading zeros: the slots are
      not negative, but may exceed 9. */
  ghost predicate Slotted(a: NCint) {
    Shaped(a) && forall k :: 1 <= k <= Len(a) ==> a.data[k] >= 0
  }

  lemma MagnitudeBounds(a: NCint)
    requires Valid(a)
    ensures 0 <= Magnitude(a) < Pow10(Len(a))
    ensures Canonical(a) && Len(a) > 0 ==> Magnitude(a) >= Pow10(Len(a) - 1)
    ensures Canonical(a) ==> (Magnitude(a) == 0 <==> a.data[0] == 0)
  {
    ValBound(a.data, Len(a));
    if Canonical(a) && Len(a) > 0 {
      ValTop(a.data, Len(a));
    }
  }

  // ---------------------------------------------------------------- negation

  function Neg(a: NCint): (r: NCint)
    requires |a.data| >= 1
    ensures Shaped(a) ==> Shaped(r) && Len(r) == Len(a) && Magnitude(r) == Magnitude(a) && Value(r) == -Value(a)
    ensures Slotted(a) ==> Slotted(r)
    ensures Valid(a) ==> Valid(r)
    ensures Canonical(a) ==> Canonical(r)
    ensures WellFormed(a) ==> WellFormed(r)
  {
    var r := NCint(a.data[0 := -a.data[0]]);
    assert Shaped(a) ==> Magnitude(r) == Magnitude(a) by {
      if Shaped(a) {
        ValAgree(a.data, r.data, Abs(a.data[0]));
      }
    }
    r
  }

  // -------------------------------------------------------------- comparison

  /** The order `operator<` decides on loose numbers: signed length first. */
  ghost predicate RepLess(a: NCint, b: NCint)
    requires Valid(a) && Valid(b)
  {
    a.data[0] < b.data[0] || (a.data[0] == b.data[0] && Value(a) < Value(b))
  }

  method Less(a: NCint, b: NCint) returns (r: bool)
    requires Valid(a) && Valid(b)
    ensures r <==> RepLess(a, b)
    decreases a.data[0] < 0
  {
    if a.data[0] != b.data[0] {
      return a.data[0] < b.data[0];
    }
    if a.data[0] < 0 {
      r := Less(Neg(b), Neg(a));
      return;
    }
    if a.data[0] == 0 {
      return false;
    }
    var i := a.data[0];
    while i > 0
      invariant 0 <= i <= a.data[0]
      invariant forall k :: i < k <= a.data[0] ==> a.data[k] == b.data[k]
    {
      if a.data[i] < b.data[i] {
        ValOrder(a.data, b.data, i, a.data[0]);
        return true;
      }
      if a.data[i] > b.data[i] {
        ValOrder(b.data, a.data, i, a.data[0]);
        return false;
      }
      i := i - 1;
    }
    ValAgree(a.data, b.data, a.data[0]);
    return false;
  }

  lemma MagnitudeOrder(a: NCint, b: NCint)
    requires Canonical(a) && Valid(b) && Len(a) > Len(b)
    ensures Magnitude(a) > Magnitude(b)
  {
    MagnitudeBounds(a);
    MagnitudeBounds(b);
    Pow10Monotone(Len(b), Len(a) - 1);
  }

  /** On canonical numbers `operator<` is the numeric order. */
  lemma LessIsNumericOrder(a: NCint, b: NCint)
    requires Canonical(a) && Canonical(b)
    ensures RepLess(a, b) <==> Value(a) < Value(b)
  {
    MagnitudeBounds(a);
    MagnitudeBounds(b);
    if Len(a) > Len(b) {
      MagnitudeOrder(a, b);
    } else if Len(b) > Len(a) {
      MagnitudeOrder(b, a);
    }
  }

  // ------------------------------------------------------------ digit passes

  /** NCint.hpp:219-224 and 253-258: push carries up through slots 1..n. If no
      slot starts above 9 * cap, none ever exceeds 10 * cap. */
  method CarryPass(d: seq<int>, n: nat, ghost cap: nat) returns (r: seq<int>, ghost peak: int)
    requires n + 1 < |d|
    requires forall k :: 1 <= k < |d| ==> 0 <= d[k] <= 9 * cap
    ensures |r| == |d| && r[0] == d[0]
    ensures Decimal(r, n)
    ensures 0 <= r[n + 1]
    ensures forall k :: n + 1 < k < |r| ==> r[k] == d[k]
    ensures Val(r, n + 1) == Val(d, n + 1)
    ensures peak <= 10 * cap
  {
    r := d;
    peak := 0;
    var i := 1;
    while i <= n
      invariant 1 <= i <= n + 1 && |r| == |d| && r[0] == d[0]
      invariant forall k :: 1 <= k < i ==> 0 <= r[k] <= 9
      invariant 0 <= r[i] <= 10 * cap
      invariant forall k :: i < k < |r| ==> r[k] == d[k]
      invariant Val(r, n + 1) == Val(d, n + 1)
      invariant peak <= 10 * cap
    {
      ghost var start := r[i];
      while r[i] >= 10
        invariant |r| == |d| && r[0] == d[0]
        invariant forall k :: 1 <= k < i ==> 0 <= r[k] <= 9
        invariant 0 <= r[i] <= start && d[i + 1] <= r[i + 1]
        invariant 10 * (r[i + 1] - d[i + 1]) + r[i] == start
        invariant forall k :: i + 1 < k < |r| ==> r[k] == d[k]
        invariant Val(r, n + 1) == Val(d, n + 1)
        invariant peak <= 10 * cap
        decreases r[i]
      {
        ValCarry(r, i, n + 1);
        r := r[i := r[i] - 10];
        r := r[i + 1 := r[i + 1] + 1];
        peak := if r[i + 1] > peak then r[i + 1] else peak;
      }
      i := i + 1;
    }
  }

  /** NCint.hpp:206-211, 225-230 and 259-264: the highest positive slot becomes
      the length; with none, slot 0 keeps what it held. */
  method SetLength(d: seq<int>, n: nat) returns (r: seq<int>)
    requires Decimal(d, n) && ZeroAbove(d, n)
    ensures |r| == |d| && r[1..] == d[1..]
    ensures Val(d, n) == 0 ==> r[0] == d[0]
    ensures Val(d, n) > 0 ==> Canonical(NCint(r)) && 0 < r[0] <= n && Value(NCint(r)) == Val(d, n)
  {
    r := d;
    ValZero(d, n);
    var i := n;
    while i > 0
      invariant 0 <= i <= n && r == d
      invariant forall k :: i < k <= n ==> d[k] == 0
    {
      if r[i] > 0 {
        r := r[0 := i];
        ValAgree(r, d, i);
        ValZeroTail(d, i, n);
        return;
      }
      i := i - 1;
    }
  }

  // ---------------------------------------------------------------- addition

  lemma ValStart(d: seq<int>)
    requires d != []
    ensures Val(d, 0) == 0
  {
  }

  /** NCint.hpp:214-218: slot by slot sums, not yet carried. */
  method Sums(a: NCint, b: NCint, n: nat) returns (ret: seq<int>)
    requires Valid(a) && Valid(b) && 0 < a.data[0] <= n && 0 < b.data[0] <= n
    ensures |ret| == n + 2 && ret[0] == a.data[0]
    ensures forall k :: 1 <= k < |ret| ==> 0 <= ret[k] <= if k <= n then 18 else 0
    ensures Val(ret, n + 1) == Magnitude(a) + Magnitude(b)
  {
    hide Pow10, Val;
    ret := Resize(a.data, n + 2);
    ValStart(b.data);
    ValAgree(a.data, ret, a.data[0]);
    ValZeroTail(ret, a.data[0], n + 1);
    var i := 1;
    while i <= b.data[0]
      invariant 1 <= i <= b.data[0] + 1 && |ret| == n + 2 && ret[0] == a.data[0]
      invariant forall k :: 1 <= k < i ==> 0 <= ret[k] <= 18
      invariant forall k :: i <= k < |ret| ==> ret[k] == if k < |a.data| then a.data[k] else 0
      invariant Val(ret, n + 1) == Magnitude(a) + Val(b.data, i - 1)
    {
      AddToSlot(ret, b.data, i, n + 1);
      ret := ret[i := ret[i] + b.data[i]];
      i := i + 1;
    }
  }

  /** NCint.hpp:214-231: both numbers positive. */
  method AddDigits(a: NCint, b: NCint) returns (r: NCint)
    requires Valid(a) && Valid(b) && a.data[0] > 0 && b.data[0] > 0
    ensures WellFormed(r) && Value(r) == Value(a) + Value(b)
    ensures Value(r) == 0 ==> r.data[0] == a.data[0]
  {
    var n := if a.data[0] > b.data[0] then a.data[0] else b.data[0];
    var ret := Sums(a, b, n);
    ghost var peak;
    ret, peak := CarryPass(ret, n, 2);
    TopSlotDigit(ret, n, Magnitude(a) + Magnitude(b), a, b);
    r := NumberOf(ret, n + 1);
  }

  lemma AddToSlot(d: seq<int>, e: seq<int>, i: nat, n: nat)
    requires 1 <= i <= n < |d| && i < |e|
    ensures Val(d[i := d[i] + e[i]], n) - Val(e, i) == Val(d, n) - Val(e, i - 1)
  {
    ValUpdate(d, i, d[i] + e[i], n);
  }

  /** Set the length of a fully carried vector whose slot 0 holds a positive
      length; a zero keeps that length. */
  method NumberOf(d: seq<int>, n: nat) returns (r: NCint)
    requires |d| > n && Decimal(d, n) && ZeroAbove(d, n) && 0 < d[0] <= n
    ensures WellFormed(r) && Value(r) == Val(d, n)
    ensures Value(r) == 0 ==> r.data[0] == d[0]
  {
    ValZero(d, n);
    ValBound(d, n);
    var ret := SetLength(d, n);
    if Val(d, n) == 0 {
      assert forall k :: 1 <= k < |ret| ==> ret[k] == ret[1..][k - 1] == d[1..][k - 1] == d[k];
      ZeroNumber(ret, d[0]);
    }
    r := NCint(ret);
  }

  lemma TopSlotDigit(ret: seq<int>, n: nat, sum: int, a: NCint, b: NCint)
    requires Valid(a) && Valid(b) && Len(a) <= n && Len(b) <= n
    requires |ret| == n + 2 && Decimal(ret, n) && ret[n + 1] >= 0
    requires Val(ret, n + 1) == sum == Magnitude(a) + Magnitude(b)
    ensures Decimal(ret, n + 1)
  {
    MagnitudeBounds(a);
    MagnitudeBounds(b);
    Pow10Monotone(Len(a), n);
    Pow10Monotone(Len(b), n);
    ValBound(ret, n);
    var p := Pow10(n);
    assert Val(ret, n + 1) == Val(ret, n) + ret[n + 1] * p;
    if ret[n + 1] >= 2 {
      MulMonotone(2, ret[n + 1], p);
    }
  }

  lemma ZeroNumber(d: seq<int>, n: nat)
    requires n < |d| && d[0] == n && forall k :: 1 <= k < |d| ==> d[k] == 0
    ensures Valid(NCint(d)) && Value(NCint(d)) == 0
  {
    ValZero(d, n);
  }

  /** NCint.hpp:197-199: slot by slot differences. */
  method Differences(a: seq<int>, b: seq<int>, n: nat) returns (r: seq<int>)
    requires n < |a| && n < |b|
    ensures |r| == |a| && forall k :: 0 <= k < |r| ==> r[k] == if 1 <= k <= n then a[k] - b[k] else a[k]
    ensures Val(r, n) == Val(a, n) - Val(b, n)
  {
    r := a;
    var i := 1;
    while i <= n
      invariant 1 <= i <= n + 1 && |r| == |a|
      invariant forall k :: 0 <= k < |r| ==> r[k] == if 1 <= k < i then a[k] - b[k] else a[k]
      invariant Val(r, n) == Val(a, n) - Val(b, i - 1)
    {
      ValUpdate(r, i, r[i] - b[i], n);
      assert (a[i] - b[i] - a[i]) * Pow10(i - 1) == -(b[i] * Pow10(i - 1));
      r := r[i := r[i] - b[i]];
      i := i + 1;
    }
  }

  /** NCint.hpp:200-205: make every slot a digit again, borrowing upwards.
      `borrow` counts what is taken from slot n + 1, which the source
      decrements whether or not the vector has it. */
  method BorrowPass(d: seq<int>, n: nat) returns (r: seq<int>, borrow: nat)
    requires n < |d| && forall k :: 1 <= k <= n ==> -9 <= d[k] <= 9
    ensures |r| == |d| && r[0] == d[0] && Decimal(r, n)
    ensures forall k :: n < k < |r| ==> r[k] == d[k]
    ensures borrow <= 1
    ensures Val(d, n) == if borrow == 0 then Val(r, n) else Val(r, n) - Pow10(n)
  {
    r := d;
    borrow := 0;
    var i := 1;
    while i <= n
      invariant 1 <= i <= n + 1 && |r| == |d| && r[0] == d[0]
      invariant Decimal(r, i - 1)
      invariant i <= n ==> -10 <= r[i] <= 9 && borrow == 0
      invariant forall k :: i < k < |r| ==> r[k] == d[k]
      invariant i == n + 1 && n + 1 < |r| ==> r[n + 1] == d[n + 1]
      invariant borrow <= 1
      invariant Val(d, n) == if borrow == 0 then Val(r, n) else Val(r, n) - Pow10(n)
    {
      ghost var from := r;
      while r[i] < 0
        invariant r == from || (from[i] < 0 && r == Borrowed(from, i, n))
        invariant borrow == if r == from || i < n then 0 else 1
        decreases -r[i]
      {
        if i < n {
          r := r[i := r[i] + 10];
          r := r[i + 1 := r[i + 1] - 1];
        } else {
          r := r[i := r[i] + 10];
          borrow := borrow + 1;
        }
      }
      BorrowedValue(from, i, n);
      i := i + 1;
    }
  }

  ghost function Borrowed(d: seq<int>, i: nat, n: nat): seq<int>
    requires 1 <= i <= n < |d|
  {
    if i < n then d[i := d[i] + 10][i + 1 := d[i + 1] - 1] else d[i := d[i] + 10]
  }

  lemma BorrowedValue(d: seq<int>, i: nat, n: nat)
    requires 1 <= i <= n < |d|
    ensures Val(Borrowed(d, i, n), n) == Val(d, n) + if i < n then 0 else Pow10(n)
  {
    if i < n {
      ValCarry(d, i, n);
    } else {
      ValUpdate(d, n, d[n] + 10, n);
      assert Pow10(n) == 10 * Pow10(n - 1);
    }
  }

  /** NCint.hpp:195-205: subtract n digits of b from those of a. */
  method SubtractDigits(a: seq<int>, b: seq<int>, n: nat) returns (r: seq<int>, borrow: nat)
    requires Decimal(a, n) && Decimal(b, n)
    ensures |r| == |a| && r[0] == a[0] && Decimal(r, n)
    ensures forall k :: n < k < |r| ==> r[k] == a[k]
    ensures Val(a, n) >= Val(b, n) ==> borrow == 0 && Val(r, n) == Val(a, n) - Val(b, n)
    ensures Val(a, n) < Val(b, n) ==> borrow == 1
  {
    r := Differences(a, b, n);
    r, borrow := BorrowPass(r, n);
    ValBound(r, n);
  }

  /** NCint.hpp:193-212: a positive, b negative and not larger. */
  method SubtractSmaller(a: NCint, b: NCint) returns (r: Outcome)
    requires Valid(a) && Valid(b) && a.data[0] > 0 > b.data[0]
    requires !RepLess(a, Neg(b))
    ensures r.Ok? <==> Magnitude(a) >= Magnitude(b)
    ensures !r.Ok? ==> r == BorrowPastTop
    ensures r.Ok? ==> WellFormed(r.num) && Value(r.num) == Value(a) + Value(b)
    ensures r.Ok? && Value(r.num) == 0 ==> r.num.data[0] == a.data[0]
  {
    var n := a.data[0];
    var other := Resize(b.data, n + 1);
    ValAgree(b.data, other, Len(b));
    ValZeroTail(other, Len(b), n);
    var d, borrow := SubtractDigits(a.data, other, n);
    if borrow > 0 {
      return BorrowPastTop;
    }
    var num := NumberOf(d, n);
    r := Ok(num);
  }

  /** z has more digits than x, the other sign, and is nevertheless smaller:
      its leading digits are 0. */
  ghost predicate LongerButSmaller(z: NCint, x: NCint)
    requires Valid(z) && Valid(x)
  {
    && ((z.data[0] > 0 > x.data[0]) || (z.data[0] < 0 < x.data[0]))
    && Len(z) > Len(x) && Magnitude(z) < Magnitude(x)
  }

  ghost predicate Compatible(a: NCint, b: NCint)
    requires Valid(a) && Valid(b)
  {
    !LongerButSmaller(a, b) && !LongerButSmaller(b, a)
  }

  /** Without leading zeros the longer number is the larger one. */
  lemma CanonicalCompatible(a: NCint, b: NCint)
    requires Canonical(a) && Canonical(b)
    ensures Compatible(a, b)
  {
    if Len(a) > Len(b) {
      MagnitudeOrder(a, b);
    } else if Len(b) > Len(a) {
      MagnitudeOrder(b, a);
    }
  }

  /** The measure under which the swaps and negations of `operator+` stop. */
  ghost function AddRank(a: NCint, b: NCint): nat
    requires Valid(a) && Valid(b)
  {
    if a.data[0] < 0 && b.data[0] < 0 then (if RepLess(a, b) then 4 else 3)
    else if RepLess(a, b) then 2
    else if RepLess(a, Neg(b)) then 1 else 0
  }

  lemma SwapStep(a: NCint, b: NCint)
    requires Valid(a) && Valid(b) && RepLess(a, b)
    ensures AddRank(b, a) < AddRank(a, b)
    ensures Compatible(b, a) <==> Compatible(a, b)
  {
  }

  lemma BothNegativeStep(a: NCint, b: NCint)
    requires Valid(a) && Valid(b) && a.data[0] < 0 && b.data[0] < 0
    ensures AddRank(Neg(a), Neg(b)) < AddRank(a, b)
    ensures Compatible(Neg(a), Neg(b)) && Compatible(a, b)
  {
    assert Neg(Neg(b)).data == b.data;
  }

  lemma FlipStep(a: NCint, b: NCint)
    requires Valid(a) && Valid(b) && a.data[0] != 0
    requires !RepLess(a, b) && !(a.data[0] < 0 && b.data[0] < 0) && RepLess(a, Neg(b))
    ensures AddRank(Neg(b), Neg(a)) < AddRank(a, b)
    ensures Compatible(Neg(b), Neg(a)) <==> Compatible(a, b)
  {
    assert Neg(Neg(a)).data == a.data;
  }

  /** What slot 0 of a zero sum holds: the length and sign of the longer
      operand, and the positive one when the lengths are equal. */
  function Dominant(x: int, y: int): int {
    if Abs(x) > Abs(y) then x else if Abs(y) > Abs(x) then y else if x < y then y else x
  }

  /** `operator+`, on every valid pair, leading zeros included. It is exact
      precisely when no number that is longer but smaller meets one of the other
      sign; otherwise the borrow runs past the top digit. The sum is canonical
      unless it is 0 or one operand has length 0 and the other is returned as it
      is. */
  method Add(a: NCint, b: NCint) returns (r: Outcome)
    requires Valid(a) && Valid(b)
    ensures r.Ok? <==> Compatible(a, b)
    ensures !r.Ok? ==> r == BorrowPastTop
    ensures r.Ok? ==> Valid(r.num) && Value(r.num) == Value(a) + Value(b)
    ensures r.Ok? && a.data[0] != 0 && b.data[0] != 0 ==> WellFormed(r.num)
    ensures b.data[0] == 0 ==> r == Ok(a)
    ensures a.data[0] == 0 && b.data[0] != 0 ==> r == Ok(b)
    ensures r.Ok? && Value(r.num) == 0 ==> r.num.data[0] == Dominant(a.data[0], b.data[0])
    decreases AddRank(a, b)
  {
    if b.data[0] == 0 {
      return Ok(a);
    }
    if a.data[0] == 0 {
      return Ok(b);
    }
    var swap := Less(a, b);
    if swap {
      SwapStep(a, b);
      r := Add(b, a);
      return;
    }
    if a.data[0] < 0 && b.data[0] < 0 {
      BothNegativeStep(a, b);
      r := Add(Neg(a), Neg(b));
      r := if r.Ok? then Ok(Neg(r.num)) else r;
      return;
    }
    var flip := Less(a, Neg(b));
    if flip {
      FlipStep(a, b);
      r := Add(Neg(b), Neg(a));
      r := if r.Ok? then Ok(Neg(r.num)) else r;
      return;
    }
    if b.data[0] < 0 {
      r := SubtractSmaller(a, b);
    } else {
      var sum := AddDigits(a, b);
      r := Ok(sum);
    }
  }

  /** `operator-`. */
  method Sub(a: NCint, b: NCint) returns (r: Outcome)
    requires Valid(a) && Valid(b)
    ensures r.Ok? <==> Compatible(a, Neg(b))
    ensures !r.Ok? ==> r == BorrowPastTop
    ensures r.Ok? ==> Valid(r.num) && Value(r.num) == Value(a) - Value(b)
    ensures r.Ok? && a.data[0] != 0 && b.data[0] != 0 ==> WellFormed(r.num)
    ensures b.data[0] == 0 ==> r.Ok? && r.num.data == a.data
    ensures a.data[0] == 0 && b.data[0] != 0 ==> r == Ok(Neg(b))
    ensures r.Ok? && Value(r.num) == 0 ==> r.num.data[0] == Dominant(a.data[0], -b.data[0])
  {
    r := Add(a, Neg(b));
  }

  /** Where long zeros come from: (a - a) + x with canonical a and x. The
      difference keeps the length of a, so adding a shorter negative number
      fails, and nothing else does. */
  method CancelThenAdd(a: NCint, x: NCint) returns (r: Outcome)
    requires Canonical(a) && Canonical(x)
    ensures r == BorrowPastTop <==> Value(x) < 0 && Len(x) < Len(a)
    ensures r != BorrowPastTop ==> r.Ok? && Valid(r.num) && Value(r.num) == Value(x)
  {
    MagnitudeBounds(x);
    CanonicalCompatible(a, Neg(a));
    var zero := Sub(a, a);
    assert zero.Ok? && zero.num.data[0] == Len(a);
    r := Add(zero.num, x);
  }
}
