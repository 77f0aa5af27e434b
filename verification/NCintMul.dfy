/** Multiplication of NCint.hpp. */
module BigMultiply {
  import opened Common
  import opened Digits
  import opened BigInteger

  // ---------------------------------------------------------- multiplication

  /** How many of the first `rows` digits of a meet a digit of b in slot k. */
  ghost function Meetings(k: int, rows: int, lb: int): int {
    var low := if k - lb + 1 > 1 then k - lb + 1 else 1;
    var high := if k < rows then k else rows;
    if high < low then 0 else high - low + 1
  }

  /** The slots of a are between 0 and c. */
  ghost predicate Within(a: NCint, c: nat) {
    Shaped(a) && forall k :: 1 <= k <= Len(a) ==> 0 <= a.data[k] <= c
  }

  /** What slot k holds at most, when a product of two slots is at most unit. */
  ghost function Load(unit: nat, k: int, rows: int, lb: int): int {
    unit * Meetings(k, rows, lb)
  }

  /** NCint.hpp:249-251: add digit i of a times all of b into the slots. */
  method AccumulateRow(start: seq<int>, a: NCint, b: NCint, i: nat, ghost unit: nat, ghost ca: nat, ghost cb: nat,
                       ghost peak0: int) returns (ret: seq<int>, ghost peak: int)
    requires Within(a, ca) && Within(b, cb) && ca * cb <= unit && 1 <= i <= a.data[0] && b.data[0] > 0
    requires |start| == a.data[0] + b.data[0] + 2
    requires forall k :: 1 <= k < |start| ==> 0 <= start[k] <= Load(unit, k, i - 1, b.data[0])
    requires peak0 <= unit * Min(Len(a), Len(b))
    ensures |ret| == |start| && ret[0] == start[0]
    ensures forall k :: 1 <= k < |ret| ==> 0 <= ret[k] <= Load(unit, k, i, b.data[0])
    ensures Val(ret, |ret| - 1) == Val(start, |ret| - 1) + (a.data[i] * Pow10(i - 1)) * Magnitude(b)
    ensures peak <= unit * Min(Len(a), Len(b))
  {
    var lb := b.data[0];
    ghost var top := |start| - 1;
    ghost var row := a.data[i] * Pow10(i - 1);
    hide Val, Pow10, Load;
    NothingAdded(row, b.data);
    ret := start;
    peak := peak0;
    var j := 1;
    while j <= lb
      invariant 1 <= j <= lb + 1 && |ret| == |start| && ret[0] == start[0]
      invariant forall k :: 1 <= k < |ret| && 1 <= k - i + 1 < j ==> 0 <= ret[k] <= Load(unit, k, i, lb)
      invariant forall k :: 1 <= k < |ret| && !(1 <= k - i + 1 < j) ==> 0 <= ret[k] <= Load(unit, k, i - 1, lb)
      invariant Val(ret, top) == Val(start, top) + row * Val(b.data, j - 1)
      invariant peak <= unit * Min(Len(a), Len(b))
    {
      ProductStep(ret, a.data[i], b.data[j], i, j, top);
      ProductWithin(a.data[i], b.data[j], ca, cb, unit);
      RowGrows(row, b.data, j);
      LoadStep(unit, i + j - 1, i, a.data[0], lb);
      ret := ret[i + j - 1 := ret[i + j - 1] + a.data[i] * b.data[j]];
      peak := if ret[i + j - 1] > peak then ret[i + j - 1] else peak;
      j := j + 1;
    }
    LoadElsewhere(unit, i, lb);
  }

  lemma NothingAdded(row: int, d: seq<int>)
    requires d != []
    ensures Val(d, 0) == 0 && row * Val(d, 0) == 0
  {
  }

  lemma RowGrows(row: int, d: seq<int>, j: nat)
    requires 0 < j < |d|
    ensures row * Val(d, j) == row * Val(d, j - 1) + row * (d[j] * Pow10(j - 1))
  {
    Distribute(row, Val(d, j - 1), d[j] * Pow10(j - 1));
  }

  lemma LoadStep(unit: nat, k: int, i: nat, la: nat, lb: nat)
    requires 1 <= i <= la && 1 <= k - i + 1 <= lb
    ensures Load(unit, k, i, lb) == Load(unit, k, i - 1, lb) + unit <= unit * Min(la, lb)
  {
    Distribute(unit, Meetings(k, i - 1, lb), 1);
    MulMonotone(Meetings(k, i, lb), Min(la, lb), unit);
  }

  /** Slots that row i does not reach. */
  lemma LoadElsewhere(unit: nat, i: nat, lb: nat)
    requires i > 0
    ensures forall k :: 1 <= k && !(1 <= k - i + 1 <= lb) ==> Load(unit, k, i, lb) == Load(unit, k, i - 1, lb)
  {
  }

  lemma LoadBounds(unit: nat, k: int, rows: nat, la: nat, lb: nat)
    requires 1 <= k && rows <= la
    ensures 0 <= Load(unit, k, rows, lb) <= unit * Min(la, lb)
    ensures Load(unit, k, 0, lb) == 0
  {
    MulMonotone(Meetings(k, rows, lb), Min(la, lb), unit);
  }

  lemma ProductWithin(x: int, y: int, cx: nat, cy: nat, unit: nat)
    requires 0 <= x <= cx && 0 <= y <= cy && cx * cy <= unit
    ensures 0 <= x * y <= unit
  {
    MulMonotone(x, cx, y);
    MulMonotone(y, cy, cx);
    MulMonotone(0, x, y);
  }

  /** NCint.hpp:246-252: the uncarried products. A slot adds up at most
      min(len a, len b) products of two slots. */
  method Accumulate(a: NCint, b: NCint, ghost unit: nat, ghost ca: nat, ghost cb: nat)
      returns (ret: seq<int>, ghost peak: int)
    requires Within(a, ca) && Within(b, cb) && ca * cb <= unit && a.data[0] > 0 && b.data[0] > 0
    ensures |ret| == a.data[0] + b.data[0] + 2 && ret[0] == 0
    ensures forall k :: 1 <= k < |ret| ==> 0 <= ret[k] <= unit * Min(Len(a), Len(b))
    ensures Val(ret, |ret| - 1) == Magnitude(a) * Magnitude(b)
    ensures peak <= unit * Min(Len(a), Len(b))
  {
    hide Load, Val;
    var la := a.data[0];
    ret := Resize([0], la + b.data[0] + 2);
    peak := 0;
    ghost var top := |ret| - 1;
    ValZeroTail(ret, 0, top);
    NothingAdded(Magnitude(b), ret);
    NothingAdded(Magnitude(b), a.data);
    MulMonotone(0, Min(Len(a), Len(b)), unit);
    forall k | 1 <= k < |ret|
      ensures ret[k] <= Load(unit, k, 0, b.data[0])
    {
      LoadBounds(unit, k, 0, la, b.data[0]);
    }
    var i := 1;
    while i <= la
      invariant 1 <= i <= la + 1 && |ret| == top + 1 && ret[0] == 0
      invariant forall k :: 1 <= k < |ret| ==> 0 <= ret[k] <= Load(unit, k, i - 1, b.data[0])
      invariant Val(ret, top) == Val(a.data, i - 1) * Magnitude(b)
      invariant peak <= unit * Min(Len(a), Len(b))
    {
      RowGrows(Magnitude(b), a.data, i);
      ret, peak := AccumulateRow(ret, a, b, i, unit, ca, cb, peak);
      i := i + 1;
    }
    forall k | 1 <= k < |ret|
      ensures ret[k] <= unit * Min(Len(a), Len(b))
    {
      LoadBounds(unit, k, la, la, b.data[0]);
    }
  }

  lemma ProductStep(ret: seq<int>, x: int, y: int, i: nat, j: nat, top: nat)
    requires 1 <= i && 1 <= j && i + j - 1 <= top < |ret|
    ensures Val(ret[i + j - 1 := ret[i + j - 1] + x * y], top)
      == Val(ret, top) + (x * Pow10(i - 1)) * (y * Pow10(j - 1))
  {
    ValUpdate(ret, i + j - 1, ret[i + j - 1] + x * y, top);
    Pow10Add(i - 1, j - 1);
    RearrangeProduct(x, y, Pow10(i - 1), Pow10(j - 1));
  }

  lemma RearrangeProduct(x: int, y: int, p: int, q: int)
    ensures (x * y) * (p * q) == (x * p) * (y * q)
  {
    calc {
      (x * y) * (p * q);
      x * (y * (p * q));
      { assert y * (p * q) == p * (y * q); }
      x * (p * (y * q));
      (x * p) * (y * q);
    }
  }

  /** The product needs no more digits than both factors have: so it is for any
      two numbers with digits in their slots. */
  ghost predicate Multipliable(a: NCint, b: NCint) {
    && Slotted(a) && Slotted(b)
    && ((Valid(a) && Valid(b)) || Magnitude(a) * Magnitude(b) < Pow10(Len(a) + Len(b)))
  }

  lemma MultipliableFits(a: NCint, b: NCint)
    requires Multipliable(a, b)
    ensures Magnitude(a) * Magnitude(b) < Pow10(Len(a) + Len(b))
  {
    if Valid(a) && Valid(b) {
      MagnitudeBounds(a);
      MagnitudeBounds(b);
      Pow10Add(Len(a), Len(b));
      ProductBelow(Magnitude(a), Magnitude(b), Pow10(Len(a)), Pow10(Len(b)));
    }
  }

  /** The slot above both lengths ends as 0. */
  lemma ProductFits(a: NCint, b: NCint, ret: seq<int>, n: nat)
    requires Multipliable(a, b) && n == Len(a) + Len(b)
    requires n + 1 < |ret| && Decimal(ret, n) && ret[n + 1] >= 0
    requires Val(ret, n + 1) == Magnitude(a) * Magnitude(b)
    ensures ret[n + 1] == 0
  {
    MultipliableFits(a, b);
    ValBound(ret, n);
    if ret[n + 1] > 0 {
      MulMonotone(1, ret[n + 1], Pow10(n));
    }
  }

  lemma ProductBelow(x: nat, y: nat, p: nat, q: nat)
    requires x < p && y < q
    ensures 0 <= x * y < p * q
  {
    MulMonotone(x, p, y);
    MulMonotone(y, q - 1, p);
    Distribute(p, q - 1, 1);
  }

  lemma SignedProduct(x: int, y: int)
    ensures (-x) * (-y) == x * y && -((-x) * y) == x * y
  {
  }

  ghost function SignRank(a: NCint, b: NCint): nat
    requires Shaped(a) && Shaped(b)
  {
    if a.data[0] < 0 && b.data[0] < 0 then 1
    else if a.data[0] < 0 then 1
    else if b.data[0] < 0 then 2 else 0
  }

  /** Some bound on the slots exists. */
  lemma {:induction false} LargestSlot(d: seq<int>, n: nat) returns (c: nat)
    requires n < |d| && forall k :: 1 <= k <= n ==> d[k] >= 0
    ensures forall k :: 1 <= k <= n ==> d[k] <= c
  {
    if n == 0 {
      c := 0;
    } else {
      c := LargestSlot(d, n - 1);
      c := Max(c, d[n]);
    }
  }

  /** A bound on the slots of both factors, 9 for digits. */
  lemma SlotBound(a: NCint, b: NCint) returns (c: nat)
    requires Slotted(a) && Slotted(b)
    ensures Within(a, c) && Within(b, c)
    ensures Valid(a) && Valid(b) ==> c == 9
  {
    if Valid(a) && Valid(b) {
      c := 9;
    } else {
      var ca := LargestSlot(a.data, Len(a));
      var cb := LargestSlot(b.data, Len(b));
      c := Max(ca, cb);
    }
  }

  /** Where the carries may start from: nine times this is not exceeded. */
  ghost function StartCap(c: nat, m: nat): nat {
    if c == 9 then 9 * m else (c * c) * m
  }

  lemma StartCapHolds(c: nat, m: nat)
    ensures (c * c) * m <= 9 * StartCap(c, m)
    ensures c == 9 ==> (c * c) * m <= 10 * StartCap(c, m) == 90 * m
  {
    MulMonotone(0, c * c, m);
  }

  /** NCint.hpp:246-268. */
  method MulPositive(a: NCint, b: NCint) returns (r: NCint, ghost peak: int)
    requires Multipliable(a, b) && a.data[0] > 0 && b.data[0] > 0
    ensures Canonical(r) && Value(r) == Magnitude(a) * Magnitude(b)
    ensures Len(r) <= Len(a) + Len(b)
    ensures Valid(a) && Valid(b) ==> peak <= 90 * Min(Len(a), Len(b))
  {
    var n := a.data[0] + b.data[0];
    ghost var c := SlotBound(a, b);
    ghost var m := Min(Len(a), Len(b));
    hide StartCap;
    StartCapHolds(c, m);
    var ret, accumulated := Accumulate(a, b, c * c, c, c);
    ret, peak := CarryPass(ret, n, StartCap(c, m));
    peak := if accumulated > peak then accumulated else peak;
    ProductFits(a, b, ret, n);
    r := Finish(ret, n);
  }

  /** NCint.hpp:259-264, 268: a carried product becomes a canonical number. */
  method Finish(ret: seq<int>, n: nat) returns (r: NCint)
    requires |ret| == n + 2 && Decimal(ret, n) && ret[0] == 0 && ret[n + 1] == 0
    ensures Canonical(r) && Value(r) == Val(ret, n + 1) && Len(r) <= n
  {
    ValZeroTail(ret, n, n + 1);
    ValBound(ret, n);
    ValZero(ret, n);
    var d := SetLength(ret, n + 1);
    assert forall k :: 1 <= k < |d| ==> d[k] == d[1..][k - 1] == ret[1..][k - 1] == ret[k];
    r := NCint(d);
  }

  /** With T = int, how long the shorter factor may be. */
  const SAFE_DIGITS: int := 23860929

  /** The bound on the slots meets the range of int exactly there. */
  lemma SlotsFitInt(digits: nat)
    ensures 90 * digits <= INT_MAX <==> digits <= SAFE_DIGITS
  {
  }

  /** `operator*`: exact on every valid pair, leading zeros included, and on
      larger slots as far as the product fits; its result is canonical even when
      it is 0. `peak` is the largest content any accumulator slot has from the
      first product to the last carry, and the slot above len a + len b is never
      needed. */
  method Mul(a: NCint, b: NCint) returns (r: NCint, ghost peak: int)
    requires Multipliable(a, b)
    ensures Canonical(r) && Value(r) == Value(a) * Value(b)
    ensures Len(r) <= Len(a) + Len(b)
    ensures Valid(a) && Valid(b) ==> peak <= 90 * Min(Len(a), Len(b))
    ensures Valid(a) && Valid(b) && Min(Len(a), Len(b)) <= SAFE_DIGITS ==> peak <= INT_MAX
    decreases SignRank(a, b)
  {
    if a.data[0] == 0 || b.data[0] == 0 {
      return NCint([0]), 0;
    }
    SignedProduct(Value(a), Value(b));
    SlotsFitInt(Min(Len(a), Len(b)));
    if a.data[0] < 0 && b.data[0] < 0 {
      r, peak := Mul(Neg(a), Neg(b));
      return;
    } else if a.data[0] < 0 || b.data[0] < 0 {
      r, peak := Mul(Neg(a), b);
      r := Neg(r);
      return;
    }
    r, peak := MulPositive(a, b);
  }
}
