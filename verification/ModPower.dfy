/** Fast exponentiation over 64-bit unsigned arithmetic, GXPass.hpp:142-155. */
module ModPower {
  import opened Common
  import opened Digits

  type u64 = x: int | 0 <= x < 0x1_0000_0000_0000_0000

  /** A product of 64-bit numbers, and its remainder: the product wraps first. */
  function MulMod(x: u64, y: u64, mod: u64): u64
    requires mod > 0
  {
    (x * y) % U64 % mod
  }

  /** `ksm<unsigned long long>`. */
  function Ksm(a: u64, n: u64, mod: u64): u64
    requires mod > 0
    decreases n
  {
    if n == 0 then 1 % mod
    else if n == 1 then a % mod
    else
      var half := Ksm(a, n / 2, mod);
      var square := MulMod(half, half, mod);
      if n % 2 == 1 then MulMod(square, a % mod, mod) else square
  }

  function Pow(a: int, n: nat): int {
    if n == 0 then 1 else a * Pow(a, n - 1)
  }

  /** The moduli for which wrapping at 2^64 never shows. */
  predicate ExactModulus(mod: u64) {
    mod > 0 && (mod <= 0x1_0000_0000 || U64 % mod == 0)
  }

  lemma ModAddMultiple(x: int, k: int, m: int)
    requires m > 0
    ensures (x + k * m) % m == x % m
  {
    assert (x / m + k) * m == (x / m) * m + k * m;
    DivModUnique(x + k * m, m, x / m + k, x % m);
  }

  lemma ModAdd(x: int, y: int, m: int)
    requires m > 0
    ensures (x % m + y % m) % m == (x + y) % m
  {
    var u, v := x % m, y % m;
    var p, q := x / m, y / m;
    assert x == p * m + u && y == q * m + v;
    Distribute(m, p, q);
    ModAddMultiple(u + v, p + q, m);
  }

  lemma Reassociate(x: int, y: int, z: int)
    ensures (x * y) * z == (x * z) * y && x * (y * z) == (x * y) * z
  {
  }

  lemma ProductSplit(x: int, p: int, u: int, y: int, q: int, v: int, m: int)
    requires x == p * m + u && y == q * m + v
    ensures x * y == u * v + (p * y + u * q) * m
  {
    Distribute(y, p * m, u);
    Reassociate(p, m, y);
    Distribute(u, q * m, v);
    Reassociate(u, q, m);
    Distribute(m, p * y, u * q);
  }

  lemma ResidueProduct(x: int, p: int, u: int, y: int, q: int, v: int, m: int)
    requires m > 0 && x == p * m + u && y == q * m + v
    ensures (u * v) % m == (x * y) % m
  {
    ProductSplit(x, p, u, y, q, v, m);
    ModAddMultiple(u * v, p * y + u * q, m);
  }

  lemma ModMul(x: int, y: int, m: int)
    requires m > 0
    ensures ((x % m) * (y % m)) % m == (x * y) % m
  {
    ResidueProduct(x, x / m, x % m, y, y / m, y % m, m);
  }

  /** A product of two residues survives the wrap. */
  lemma WrapHarmless(x: nat, y: nat, mod: u64)
    requires ExactModulus(mod) && x < mod && y < mod
    ensures (x * y) % U64 % mod == (x * y) % mod
  {
    var z := x * y;
    if mod <= 0x1_0000_0000 {
      MulMonotone(x, 0xFFFF_FFFF, y);
      MulMonotone(0, x, y);
      DivModUnique(z, U64, 0, z);
    } else {
      var k := U64 / mod;
      var w := z / U64;
      assert U64 == k * mod;
      assert w * (k * mod) == (w * k) * mod;
      ModAddMultiple(z % U64, w * k, mod);
    }
  }

  /** So the product of residues is the residue of the product. */
  lemma MulModResidues(x: int, y: int, mod: u64)
    requires ExactModulus(mod)
    ensures MulMod(x % mod, y % mod, mod) == (x * y) % mod
  {
    WrapHarmless(x % mod, y % mod, mod);
    ModMul(x, y, mod);
  }

  lemma {:induction false} PowAdd(a: int, m: nat, n: nat)
    ensures Pow(a, m + n) == Pow(a, m) * Pow(a, n)
  {
    if m == 0 {
    } else {
      PowAdd(a, m - 1, n);
      assert a * (Pow(a, m - 1) * Pow(a, n)) == (a * Pow(a, m - 1)) * Pow(a, n);
    }
  }

  lemma KsmUnfold(a: u64, n: u64, mod: u64)
    requires mod > 0
    ensures
      var half := Ksm(a, n / 2, mod);
      Ksm(a, n, mod) == if n == 0 then 1 % mod else if n == 1 then a % mod
        else if n % 2 == 1 then MulMod(MulMod(half, half, mod), a % mod, mod) else MulMod(half, half, mod)
  {
    hide MulMod;
  }

  lemma PowHalves(a: int, n: nat)
    ensures Pow(a, 0) == 1 && Pow(a, 1) == a
    ensures Pow(a, n) == Pow(a, n / 2) * Pow(a, n / 2) * if n % 2 == 1 then a else 1
  {
    var h := n / 2;
    assert Pow(a, 1) == a * Pow(a, 0);
    PowAdd(a, h, h);
    if n % 2 == 1 {
      PowAdd(a, h + h, 1);
    }
  }

  lemma {:induction false} KsmIsPower(a: u64, n: u64, mod: u64)
    requires ExactModulus(mod)
    ensures Ksm(a, n, mod) == Pow(a, n) % mod
    decreases n
  {
    assert mod > 0;
    hide Ksm, Pow, MulMod, ExactModulus;
    KsmUnfold(a, n, mod);
    PowHalves(a, n);
    if n <= 1 {
    } else {
      KsmIsPower(a, n / 2, mod);
      var p := Pow(a, n / 2);
      MulModResidues(p, p, mod);
      MulModResidues(p * p, a, mod);
    }
  }

  /** `ksm` is modular exponentiation for all bases and exponents if and only
      if the modulus is at most 2^32 or divides 2^64. The default modulus,
      2^64 - 1, meets neither condition. */
  lemma KsmExactIff(mod: u64)
    requires mod > 0
    ensures (forall a: u64, n: u64 :: Ksm(a, n, mod) == Pow(a, n) % mod) <==> ExactModulus(mod)
  {
    if ExactModulus(mod) {
      forall a: u64, n: u64
        ensures Ksm(a, n, mod) == Pow(a, n) % mod
      {
        KsmIsPower(a, n, mod);
      }
    } else {
      var a: u64 := 0x1_0000_0000;
      assert Ksm(a, 1, mod) == a % mod == a by {
        DivModUnique(a, mod, 0, a);
      }
      assert Ksm(a, 2, mod) == 0 by {
        assert (a * a) % U64 == 0;
        DivModUnique(0, mod, 0, 0);
      }
      assert Pow(a, 2) == a * Pow(a, 1) == a * (a * Pow(a, 0)) == U64;
    }
  }

  lemma DefaultModulusIsNotExact()
    ensures !ExactModulus(U64 - 1)
  {
    DivModUnique(U64, U64 - 1, 1, 1);
  }
}
