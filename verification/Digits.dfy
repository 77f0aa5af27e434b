/** Decimal digit vectors as NCint.hpp stores them: slot 0 is reserved for the
    sign and the length, slots 1.. hold the digits, least significant first. */
module Digits {
  import opened Common

  function Pow10(n: nat): (p: nat)
    ensures p >= 1
  {
    if n == 0 then 1 else 10 * Pow10(n - 1)
  }

  /** The number written in slots 1..n, whatever the size of the digits. */
  function Val(d: seq<int>, n: nat): int
    requires n < |d|
  {
    if n == 0 then 0 else Val(d, n - 1) + d[n] * Pow10(n - 1)
  }

  /** Slots 1..n hold decimal digits. */
  ghost predicate Decimal(d: seq<int>, n: nat) {
    n < |d| && forall k :: 1 <= k <= n ==> 0 <= d[k] <= 9
  }

  ghost predicate ZeroAbove(d: seq<int>, n: nat) {
    forall k :: n < k < |d| ==> d[k] == 0
  }

  lemma MulMonotone(x: int, y: int, p: nat)
    requires x <= y
    ensures x * p <= y * p
  {
  }

  lemma Distribute(x: int, y: int, z: int)
    ensures x * (y + z) == x * y + x * z
    ensures (y + z) * x == y * x + z * x
  {
  }

  lemma SmallMultiple(k: int, y: int)
    requires Abs(k * y) < Abs(y)
    ensures k == 0
  {
    if k > 0 {
      MulMonotone(1, k, Abs(y));
    } else if k < 0 {
      MulMonotone(1, -k, Abs(y));
    }
  }

  lemma DivModUnique(x: int, m: int, q: int, r: int)
    requires m > 0 && x == q * m + r && 0 <= r < m
    ensures x % m == r && x / m == q
  {
    var k := x / m - q;
    assert k * m == (x / m) * m - q * m;
    assert k * m == r - x % m;
    SmallMultiple(k, m);
  }

  lemma {:induction false} Pow10Add(m: nat, n: nat)
    ensures Pow10(m + n) == Pow10(m) * Pow10(n)
  {
    if n == 0 {
    } else {
      Pow10Add(m, n - 1);
      assert Pow10(m + n) == 10 * Pow10(m + n - 1);
      assert Pow10(m) * Pow10(n) == 10 * (Pow10(m) * Pow10(n - 1));
    }
  }

  lemma {:induction false} Pow10Monotone(m: nat, n: nat)
    requires m <= n
    ensures Pow10(m) <= Pow10(n)
  {
    if m == n {
    } else {
      Pow10Monotone(m, n - 1);
    }
  }

  lemma {:induction false} ValAgree(d: seq<int>, e: seq<int>, n: nat)
    requires n < |d| && n < |e|
    requires forall k :: 1 <= k <= n ==> d[k] == e[k]
    ensures Val(d, n) == Val(e, n)
  {
    if n == 0 {
    } else {
      ValAgree(d, e, n - 1);
    }
  }

  lemma {:induction false} ValUpdate(d: seq<int>, i: nat, x: int, n: nat)
    requires 1 <= i <= n < |d|
    ensures Val(d[i := x], n) == Val(d, n) + (x - d[i]) * Pow10(i - 1)
  {
    if i == n {
      ValAgree(d, d[i := x], n - 1);
      assert (x - d[i]) * Pow10(i - 1) == x * Pow10(i - 1) - d[i] * Pow10(i - 1);
    } else {
      ValUpdate(d, i, x, n - 1);
    }
  }

  /** Ten units of slot i are one unit of slot i + 1: carrying and borrowing
      keep the value. */
  lemma ValCarry(d: seq<int>, i: nat, n: nat)
    requires 1 <= i < n < |d|
    ensures Val(d[i := d[i] - 10][i + 1 := d[i + 1] + 1], n) == Val(d, n)
    ensures Val(d[i := d[i] + 10][i + 1 := d[i + 1] - 1], n) == Val(d, n)
  {
    ValMove(d, i, d[i] - 10, d[i + 1] + 1, n);
    ValMove(d, i, d[i] + 10, d[i + 1] - 1, n);
  }

  lemma ValMove(d: seq<int>, i: nat, x: int, y: int, n: nat)
    requires 1 <= i < n < |d| && x - d[i] == 10 * (d[i + 1] - y)
    ensures Val(d[i := x][i + 1 := y], n) == Val(d, n)
  {
    var p := Pow10(i - 1);
    var delta := d[i + 1] - y;
    ValUpdate(d, i, x, n);
    ValUpdate(d[i := x], i + 1, y, n);
    assert (10 * delta) * p == delta * (10 * p);
    assert (-delta) * (10 * p) == -(delta * (10 * p));
  }

  lemma {:induction false} ValZeroTail(d: seq<int>, m: nat, n: nat)
    requires m <= n < |d|
    requires forall k :: m < k <= n ==> d[k] == 0
    ensures Val(d, n) == Val(d, m)
  {
    if m == n {
    } else {
      ValZeroTail(d, m, n - 1);
    }
  }

  lemma {:induction false} ValBound(d: seq<int>, n: nat)
    requires Decimal(d, n)
    ensures 0 <= Val(d, n) < Pow10(n)
  {
    if n == 0 {
    } else {
      ValBound(d, n - 1);
      MulMonotone(d[n], 9, Pow10(n - 1));
      MulMonotone(0, d[n], Pow10(n - 1));
    }
  }

  lemma ValTop(d: seq<int>, n: nat)
    requires Decimal(d, n) && n > 0 && d[n] > 0
    ensures Pow10(n - 1) <= Val(d, n) < Pow10(n)
  {
    ValBound(d, n);
    ValBound(d, n - 1);
    MulMonotone(1, d[n], Pow10(n - 1));
  }

  /** A digit string is zero only if every digit is. */
  lemma {:induction false} ValZero(d: seq<int>, n: nat)
    requires Decimal(d, n)
    ensures Val(d, n) == 0 <==> forall k :: 1 <= k <= n ==> d[k] == 0
  {
    if n == 0 {
    } else {
      ValBound(d, n - 1);
      ValZero(d, n - 1);
      if d[n] > 0 {
        ValTop(d, n);
      }
    }
  }

  /** The highest differing digit decides the order. */
  lemma {:induction false} ValOrder(d: seq<int>, e: seq<int>, i: nat, n: nat)
    requires Decimal(d, n) && Decimal(e, n) && 1 <= i <= n
    requires d[i] < e[i] && forall k :: i < k <= n ==> d[k] == e[k]
    ensures Val(d, n) < Val(e, n)
  {
    if i < n {
      ValOrder(d, e, i, n - 1);
    } else {
      ValBound(d, n - 1);
      ValBound(e, n - 1);
      var p := Pow10(n - 1);
      MulMonotone(d[n] + 1, e[n], p);
      assert (d[n] + 1) * p == d[n] * p + p;
    }
  }

  /** Inserting a new lowest digit multiplies by ten. */
  lemma {:induction false} ValInsert(d: seq<int>, q: int, n: nat)
    requires n < |d|
    ensures Val([d[0], q] + d[1..], n + 1) == 10 * Val(d, n) + q
  {
    var e := [d[0], q] + d[1..];
    if n == 0 {
      assert Val(e, 1) == Val(e, 0) + e[1] * Pow10(0);
    } else {
      ValInsert(d, q, n - 1);
      assert e[n + 1] == d[n];
      assert Pow10(n) == 10 * Pow10(n - 1);
      assert e[n + 1] * Pow10(n) == 10 * (d[n] * Pow10(n - 1));
    }
  }

  /** `std::vector::resize`. */
  function Resize(d: seq<int>, n: nat): (r: seq<int>)
    ensures |r| == n
    ensures forall k :: 0 <= k < n ==> r[k] == if k < |d| then d[k] else 0
  {
    if n <= |d| then d[..n] else d + seq(n - |d|, _ => 0)
  }
}
