/** Key derivation of GXPass.hpp: digit sums, `compile`, `number2safestring`
    and `fullsafe`. */
module KeyText {
  import opened Common
  import opened Digits
  import opened ModPower
  import opened Text

  /** `static_cast<unsigned long long>(c)`. */
  function ToU64(c: Char8): u64 {
    c % U64
  }

  // --------------------------------------------------------------- digit sums

  function CodeSum(s: Text8): int {
    if s == [] then 0 else CodeSum(s[..|s| - 1]) + s[|s| - 1]
  }

  /** Even positions count positively, odd positions negatively. */
  function AlternatingSum(s: Text8): int {
    if s == [] then 0
    else
      var code: int := s[|s| - 1];
      AlternatingSum(s[..|s| - 1]) + if |s| % 2 == 1 then code else -code
  }

  lemma WrapAdd(x: int, y: int)
    ensures (x % U64 + y % U64) % U64 == (x + y) % U64
    ensures (x % U64 - y % U64) % U64 == (x - y) % U64
  {
    ModAddMultiple(x % U64 + y % U64, x / U64 + y / U64, U64);
    ModAddMultiple(x % U64 - y % U64, x / U64 - y / U64, U64);
  }

  /** GXPass.hpp:158-165. The wrapping sum is the true sum modulo 2^64. */
  method Sum(password: Text8) returns (r: Text8)
    ensures r == ToDec(CodeSum(password) % U64)
  {
    var sum: u64 := 0;
    for i := 0 to |password|
      invariant sum == CodeSum(password[..i]) % U64
    {
      WrapAdd(CodeSum(password[..i]), password[i]);
      assert password[..i + 1][..i] == password[..i];
      sum := (sum + ToU64(password[i])) % U64;
    }
    assert password[..|password|] == password;
    r := ToDec(sum);
  }

  /** GXPass.hpp:168-193: the two alternating sums; `dxsum2` starts with minus. */
  method DxSum(password: Text8, plusFirst: bool) returns (r: Text8)
    ensures r == ToDec((if plusFirst then AlternatingSum(password) else -AlternatingSum(password)) % U64)
  {
    var sum: u64 := 0;
    for i := 0 to |password|
      invariant sum == (if plusFirst then AlternatingSum(password[..i]) else -AlternatingSum(password[..i])) % U64
    {
      ghost var before := if plusFirst then AlternatingSum(password[..i]) else -AlternatingSum(password[..i]);
      WrapAdd(before, password[i]);
      assert password[..i + 1][..i] == password[..i];
      sum := if (i % 2 == 0) == plusFirst then (sum + ToU64(password[i])) % U64
             else (sum - ToU64(password[i])) % U64;
    }
    assert password[..|password|] == password;
    r := ToDec(sum);
  }

  /** The sums by what they do to one character and to texts put together. */
  lemma {:induction false} CodeSumConcat(s: Text8, t: Text8)
    ensures CodeSum([]) == 0 && forall c: Char8 :: CodeSum([c]) == c
    ensures CodeSum(s + t) == CodeSum(s) + CodeSum(t)
    decreases |t|
  {
    forall c: Char8
      ensures CodeSum([c]) == c
    {
      assert [c][..0] == [];
    }
    if t == [] {
      assert s + t == s;
    } else {
      CodeSumConcat(s, t[..|t| - 1]);
      assert (s + t)[..|s + t| - 1] == s + t[..|t| - 1];
    }
  }

  lemma AlternatingUnfold(t: Text8)
    ensures t == [] ==> AlternatingSum(t) == 0
    ensures t != [] ==>
      var front, c: int := AlternatingSum(t[..|t| - 1]), t[|t| - 1];
      AlternatingSum(t) == if |t| % 2 == 1 then front + c else front - c
  {
  }

  lemma AlternatingLast(s: Text8, c: Char8)
    ensures AlternatingSum([]) == 0 && AlternatingSum([c]) == c
    ensures AlternatingSum(s + [c]) == if |s| % 2 == 0 then AlternatingSum(s) + c else AlternatingSum(s) - c
  {
    hide AlternatingSum;
    AlternatingUnfold([]);
    AlternatingUnfold([c]);
    AlternatingUnfold(s + [c]);
    assert [c][..0] == [] && (s + [c])[..|s|] == s;
  }

  lemma {:induction false} AlternatingSumConcat(s: Text8, t: Text8)
    ensures AlternatingSum([]) == 0 && forall c: Char8 :: AlternatingSum([c]) == c
    ensures AlternatingSum(s + t)
      == AlternatingSum(s) + if |s| % 2 == 0 then AlternatingSum(t) else -AlternatingSum(t)
    decreases |t|
  {
    hide AlternatingSum;
    forall c: Char8
      ensures AlternatingSum([]) == 0 && AlternatingSum([c]) == c
    {
      AlternatingLast(s, c);
    }
    if t == [] {
      AlternatingLast(s, 0);
      assert s + t == s;
    } else {
      var front, c := t[..|t| - 1], t[|t| - 1];
      AlternatingSumConcat(s, front);
      AlternatingLast(front, c);
      AlternatingLast(s + front, c);
      assert t == front + [c] && s + t == (s + front) + [c];
    }
  }

  function KsmFold(s: Text8, n: u64, modulus: u64): u64
    requires modulus > 0
  {
    if s == [] then 0
    else (KsmFold(s[..|s| - 1], n, modulus) + Ksm(ToU64(s[|s| - 1]), n, modulus)) % U64 % modulus
  }

  /** GXPass.hpp:196-204. */
  method KsmSum(password: Text8, modulus: u64) returns (r: Text8)
    requires modulus > 0
    ensures r == ToDec(KsmFold(password, |password| % U64, modulus))
  {
    var sum: u64 := 0;
    for i := 0 to |password|
      invariant sum == KsmFold(password[..i], |password| % U64, modulus)
    {
      assert password[..i + 1][..i] == password[..i];
      sum := (sum + Ksm(ToU64(password[i]), |password| % U64, modulus)) % U64 % modulus;
    }
    assert password[..|password|] == password;
    r := ToDec(sum);
  }

  function PowerSum(s: Text8, n: nat): int {
    if s == [] then 0 else PowerSum(s[..|s| - 1], n) + Pow(ToU64(s[|s| - 1]), n)
  }

  lemma {:induction false} PowerSumConcat(s: Text8, t: Text8, n: nat)
    ensures PowerSum([], n) == 0 && forall c: Char8 :: PowerSum([c], n) == Pow(c % U64, n)
    ensures PowerSum(s + t, n) == PowerSum(s, n) + PowerSum(t, n)
    decreases |t|
  {
    forall c: Char8
      ensures PowerSum([c], n) == Pow(c % U64, n)
    {
      assert [c][..0] == [];
    }
    if t == [] {
      assert s + t == s;
    } else {
      PowerSumConcat(s, t[..|t| - 1], n);
      assert (s + t)[..|s + t| - 1] == s + t[..|t| - 1];
    }
  }

  /** For a modulus where `ksm` is exact, `ksmsum` is the sum of the powers. */
  lemma {:induction false} KsmFoldIsPowerSum(s: Text8, n: u64, modulus: u64)
    requires ExactModulus(modulus)
    ensures KsmFold(s, n, modulus) == PowerSum(s, n) % modulus
  {
    if s == [] {
      DivModUnique(0, modulus, 0, 0);
    } else {
      var t := s[..|s| - 1];
      var c := ToU64(s[|s| - 1]);
      KsmFoldIsPowerSum(t, n, modulus);
      KsmIsPower(c, n, modulus);
      ExactModulusAtMostHalf(modulus);
      SumOfResidues(PowerSum(t, n), Pow(c, n), modulus);
    }
  }

  lemma SumOfResidues(x: int, y: int, mod: u64)
    requires mod > 0 && 2 * mod <= U64
    ensures (x % mod + y % mod) % U64 % mod == (x + y) % mod
  {
    ModAdd(x, y, mod);
    DivModUnique(x % mod + y % mod, U64, 0, x % mod + y % mod);
  }

  lemma ExactModulusAtMostHalf(mod: u64)
    requires ExactModulus(mod)
    ensures 2 * mod <= U64
  {
    if mod > 0x1_0000_0000 {
      var k := U64 / mod;
      assert k * mod == U64;
      if k <= 1 {
        MulMonotone(k, 1, mod);
      } else {
        MulMonotone(2, k, mod);
      }
    }
  }

  /** A character whose 16th power is 2^64, and fifteen that add nothing. */
  function OverflowingPassword(): (s: Text8)
    ensures |s| == 16
  {
    [16] + seq(15, _ => 0)
  }

  lemma {:induction false} PowZero(n: nat)
    requires n > 0
    ensures Pow(0, n) == 0
  {
  }

  lemma MulModZero(y: u64, mod: u64)
    requires mod > 0
    ensures MulMod(0, y, mod) == 0
  {
    DivModUnique(0, mod, 0, 0);
  }

  lemma {:induction false} KsmZero(n: u64, mod: u64)
    requires n > 0 && mod > 0
    ensures Ksm(0, n, mod) == 0
    decreases n
  {
    hide MulMod;
    DivModUnique(0, mod, 0, 0);
    MulModZero(0, mod);
    if n == 1 {
    } else {
      KsmZero(n / 2, mod);
    }
  }

  /** Trailing zero characters change neither the loop nor the sum. */
  lemma {:induction false} TrailingZeros(s: Text8, k: nat, n: u64, mod: u64)
    requires n > 0 && mod > 0
    ensures KsmFold(s + seq(k, _ => 0), n, mod) == KsmFold(s, n, mod)
    ensures PowerSum(s + seq(k, _ => 0), n) == PowerSum(s, n)
  {
    hide Ksm, Pow;
    var t := s + seq(k, _ => 0);
    if k == 0 {
      assert t == s;
    } else {
      TrailingZeros(s, k - 1, n, mod);
      assert t[..|t| - 1] == s + seq(k - 1, _ => 0) && t[|t| - 1] == 0;
      KsmZero(n, mod);
      PowZero(n);
      FoldIsResidue(s, n, mod);
    }
  }

  lemma FoldIsResidue(s: Text8, n: u64, mod: u64)
    requires mod > 0
    ensures KsmFold(s, n, mod) < mod && KsmFold(s, n, mod) % U64 % mod == KsmFold(s, n, mod)
  {
    var x := KsmFold(s, n, mod);
    DivModUnique(x, U64, 0, x);
    if s == [] {
    } else {
      DivModUnique(x, mod, 0, x);
    }
    DivModUnique(x, mod, 0, x);
  }

  /** One step of the recursion: the square, and for an odd exponent its product
      with the base. */
  lemma KsmDouble(a: u64, n: u64, mod: u64)
    requires mod > 0 && 0 < n < 0x7FFF_FFFF_FFFF_FFFF
    ensures
      var half := Ksm(a, n, mod);
      && Ksm(a, 2 * n, mod) == MulMod(half, half, mod)
      && Ksm(a, 2 * n + 1, mod) == MulMod(MulMod(half, half, mod), a % mod, mod)
  {
    hide MulMod;
  }

  /** Products below the modulus are exact. */
  lemma MulModExact(x: u64, y: u64, mod: u64)
    requires mod > 0
    ensures x * y < mod ==> MulMod(x, y, mod) == x * y
  {
    var p := x * y;
    MulMonotone(0, x, y);
    if p < mod {
      DivModUnique(p, U64, 0, p);
      DivModUnique(p, mod, 0, p);
    }
  }

  /** Under the default modulus 3^40 is still right and 3^41 wraps: the result is
      3^41 - 2^64, one less than the power modulo 2^64 - 1. */
  lemma ThreeWraps()
    ensures Ksm(3, 40, NO_MODULUS) == 12157665459056928801 == Pow(3, 40)
    ensures Ksm(3, 41, NO_MODULUS) == 18026252303461234787 == Pow(3, 41) - U64
  {
    hide Ksm, Pow, MulMod;
    var m := NO_MODULUS;
    KsmBase(3, m);
    MulModExact(3, 3, m);
    KsmDouble(3, 1, m);
    MulModExact(9, 9, m);
    MulModExact(81, 3, m);
    KsmDouble(3, 2, m);
    MulModExact(243, 243, m);
    KsmDouble(3, 5, m);
    MulModExact(59049, 59049, m);
    KsmDouble(3, 10, m);
    MulModExact(3486784401, 3486784401, m);
    LastProduct();
    KsmDouble(3, 20, m);
    PowThree();
  }

  lemma LastProduct()
    ensures MulMod(12157665459056928801, 3, NO_MODULUS) == 18026252303461234787
  {
    DivModUnique(36472996377170786403, U64, 1, 18026252303461234787);
    DivModUnique(18026252303461234787, NO_MODULUS, 0, 18026252303461234787);
  }

  lemma KsmBase(a: u64, mod: u64)
    requires a < mod
    ensures Ksm(a, 1, mod) == a
  {
    DivModUnique(a, mod, 0, a);
  }

  lemma PowThree()
    ensures Pow(3, 40) == 12157665459056928801 && Pow(3, 41) == 36472996377170786403
  {
    var three := 3;
    assert Pow(three, 1) == 3 * Pow(three, 0) == 3;
    PowAdd(three, 1, 1);
    PowAdd(three, 2, 2);
    PowAdd(three, 4, 1);
    PowAdd(three, 5, 5);
    PowAdd(three, 10, 10);
    PowAdd(three, 20, 20);
    PowAdd(three, 40, 1);
  }

  /** 16^8 is 2^32 and still right; its square wraps to 0. */
  lemma SixteenWraps(mod: u64)
    requires mod > 0x1_0000_0000
    ensures Ksm(16, 16, mod) == 0
  {
    hide Ksm, MulMod;
    KsmBase(16, mod);
    MulModExact(16, 16, mod);
    KsmDouble(16, 1, mod);
    MulModExact(0x100, 0x100, mod);
    KsmDouble(16, 2, mod);
    MulModExact(0x1_0000, 0x1_0000, mod);
    KsmDouble(16, 4, mod);
    WrapsToZero(mod);
    KsmDouble(16, 8, mod);
  }

  lemma WrapsToZero(mod: u64)
    requires mod > 0
    ensures MulMod(0x1_0000_0000, 0x1_0000_0000, mod) == 0
  {
    DivModUnique(U64, U64, 1, 0);
    DivModUnique(0, mod, 0, 0);
  }

  lemma SixteenToThe16()
    ensures Pow(16, 16) == U64
  {
    assert Pow(16, 1) == 16 * Pow(16, 0);
    PowAdd(16, 1, 1);
    PowAdd(16, 2, 2);
    PowAdd(16, 4, 4);
    PowAdd(16, 8, 8);
  }

  lemma WrappingPassword(mod: u64)
    requires mod > 0
    ensures !ExactModulus(mod) ==>
      KsmFold(OverflowingPassword(), 16, mod) != PowerSum(OverflowingPassword(), 16) % mod
  {
    hide Ksm, Pow;
    if ExactModulus(mod) {
      return;
    }
    var first: Text8 := [16];
    TrailingZeros(first, 15, 16, mod);
    SixteenWraps(mod);
    SixteenToThe16();
    assert first[..0] == [];
    DivModUnique(0, U64, 0, 0);
    DivModUnique(0, mod, 0, 0);
    assert PowerSum(first, 16) == PowerSum([], 16) + Pow(ToU64(16), 16) == U64;
    assert KsmFold(first, 16, mod) == 0;
  }

  /** `ksmsum` of a password is the sum of the powers, for every password, if and
      only if the modulus is at most 2^32 or divides 2^64. The default modulus,
      the only one `compile` uses, is not of that kind. */
  lemma KsmSumExactIff(mod: u64)
    requires mod > 0
    ensures ExactModulus(mod) <==>
      forall s: Text8 :: |s| < U64 ==> KsmFold(s, |s|, mod) == PowerSum(s, |s|) % mod
  {
    hide KsmFold, PowerSum;
    if ExactModulus(mod) {
      forall s: Text8 | |s| < U64
        ensures KsmFold(s, |s|, mod) == PowerSum(s, |s|) % mod
      {
        KsmFoldIsPowerSum(s, |s|, mod);
      }
    } else {
      WrappingPassword(mod);
      var s := OverflowingPassword();
      assert |s| == 16;
    }
  }

  // ------------------------------------------------------------------ compile

  /** The version number that stands for the newest one, and the newest one. */
  const LATEST: int := -1
  const VERSION_2: int := 2

  const NO_MODULUS: u64 := 0xFFFF_FFFF_FFFF_FFFF

  /** The four numbers `compile` works on: sum, dxsum1, dxsum2, ksmsum. */
  function Sums(data: Text8): seq<u64>
  {
    [CodeSum(data) % U64, AlternatingSum(data) % U64, (-AlternatingSum(data)) % U64,
     KsmFold(data, |data| % U64, NO_MODULUS)]
  }

  function Insert(x: u64, s: seq<u64>): (r: seq<u64>)
    ensures multiset(r) == multiset(s) + multiset{x}
  {
    if s == [] then [x]
    else if x <= s[0] then [x] + s
    else
      assert s == [s[0]] + s[1..];
      [s[0]] + Insert(x, s[1..])
  }

  /** `std::sort`. */
  function Sorted(s: seq<u64>): (r: seq<u64>)
    ensures multiset(r) == multiset(s)
  {
    if s == [] then [] else
      assert s == [s[0]] + s[1..];
      Insert(s[0], Sorted(s[1..]))
  }

  ghost predicate Ascending(s: seq<u64>) {
    forall i, j :: 0 <= i < j < |s| ==> s[i] <= s[j]
  }

  lemma PrependAscending(x: u64, s: seq<u64>)
    requires Ascending(s) && forall k :: 0 <= k < |s| ==> x <= s[k]
    ensures Ascending([x] + s)
  {
  }

  lemma {:induction false} InsertAscending(x: u64, s: seq<u64>)
    requires Ascending(s)
    ensures Ascending(Insert(x, s))
  {
    if s != [] && x > s[0] {
      var rest := Insert(x, s[1..]);
      InsertAscending(x, s[1..]);
      forall k | 0 <= k < |rest|
        ensures s[0] <= rest[k]
      {
        assert rest[k] in multiset(rest);
      }
      PrependAscending(s[0], rest);
    } else if s != [] {
      PrependAscending(x, s);
    }
  }

  /** It is a sort: the same numbers, in ascending order. */
  lemma {:induction false} SortedAscending(s: seq<u64>)
    ensures Ascending(Sorted(s)) && multiset(Sorted(s)) == multiset(s)
  {
    if s == [] {
    } else {
      SortedAscending(s[1..]);
      InsertAscending(s[0], Sorted(s[1..]));
    }
  }

  /** Every entry of data equal to x, printed. */
  function Matches(x: u64, data: seq<u64>): (r: Text8)
    ensures IsNumeral(r)
    ensures x in data ==> |r| > 0
  {
    if data == [] then []
    else (if x == data[0] then ToDec(data[0]) else []) + Matches(x, data[1..])
  }

  function AllMatches(sorted: seq<u64>, data: seq<u64>): (r: Text8)
    ensures IsNumeral(r)
    ensures sorted != [] && sorted[0] in data ==> |r| > 0
  {
    if sorted == [] then [] else Matches(sorted[0], data) + AllMatches(sorted[1..], data)
  }

  function Print4(a: nat, b: nat, c: nat, d: nat): (r: Text8)
    ensures IsNumeral(r) && r != []
  {
    ToDec(a) + ToDec(b) + ToDec(c) + ToDec(d)
  }

  function CompileText(data: Text8, version: int): Text8 {
    Arrange(Sums(data), version)
  }

  function Arrange(s: seq<u64>, version: int): Text8
    requires |s| == 4
  {
    if version == LATEST || version == VERSION_2 then AllMatches(Sorted(s), s)
    else if version == 1 then Print4(s[1], s[0], s[2], s[3])
    else if version == 0 then Print4(s[0], s[1], s[2], s[3])
    else []
  }

  /** `compile` never gives an empty text for a version it knows. */
  lemma CompileNonEmpty(data: Text8, version: int)
    ensures IsNumeral(CompileText(data, version))
    ensures CompileText(data, version) != [] <==> LATEST <= version <= VERSION_2
  {
    ArrangeNonEmpty(Sums(data), version);
  }

  lemma ArrangeNonEmpty(s: seq<u64>, version: int)
    requires |s| == 4
    ensures IsNumeral(Arrange(s, version))
    ensures Arrange(s, version) != [] <==> LATEST <= version <= VERSION_2
  {
    SortedFirst(s);
  }

  lemma SortedFirst(s: seq<u64>)
    requires s != []
    ensures Sorted(s) != [] && Sorted(s)[0] in s
  {
    var r := Sorted(s);
    assert s[0] in multiset(s);
    assert |multiset(r)| == |multiset(s)| > 0;
    assert r[0] in multiset(r);
  }

  ghost function Repeated(s: Text8, n: nat): Text8 {
    if n == 0 then [] else s + Repeated(s, n - 1)
  }

  /** Each number of r, in order, as often as it occurs in m. */
  ghost function Counted(r: seq<u64>, m: multiset<u64>): Text8 {
    if r == [] then [] else Repeated(ToDec(r[0]), m[r[0]]) + Counted(r[1..], m)
  }

  lemma {:induction false} MatchesCount(x: u64, data: seq<u64>)
    ensures Matches(x, data) == Repeated(ToDec(x), multiset(data)[x])
  {
    if data == [] {
    } else {
      MatchesCount(x, data[1..]);
      assert data == [data[0]] + data[1..];
      assert multiset(data)[x] == multiset(data[1..])[x] + if x == data[0] then 1 else 0;
    }
  }

  lemma {:induction false} AllMatchesCount(sorted: seq<u64>, data: seq<u64>)
    ensures AllMatches(sorted, data) == Counted(sorted, multiset(data))
  {
    if sorted == [] {
    } else {
      MatchesCount(sorted[0], data);
      AllMatchesCount(sorted[1..], data);
    }
  }

  /** The four numbers of a text: the sums modulo 2^64, and the folded powers
      under the largest modulus there is. */
  lemma SumsAre(data: Text8)
    ensures NO_MODULUS == U64 - 1 && |Sums(data)| == 4
    ensures Sums(data)[0] == CodeSum(data) % U64 && Sums(data)[1] == AlternatingSum(data) % U64
    ensures Sums(data)[2] == (-AlternatingSum(data)) % U64
    ensures Sums(data)[3] == KsmFold(data, |data| % U64, NO_MODULUS)
  {
    hide KsmFold, CodeSum, AlternatingSum;
  }

  /** The text of the newest version: the four numbers in ascending order, each
      as many times as it occurs, for each of its occurrences. */
  lemma CompileSorted(data: Text8, version: int) returns (r: seq<u64>)
    requires version == LATEST || version == VERSION_2
    ensures Ascending(r) && multiset(r) == multiset(Sums(data))
    ensures CompileText(data, version) == Counted(r, multiset(r))
  {
    hide Sums, Counted, AllMatches, Sorted;
    var s := Sums(data);
    r := Sorted(s);
    SortedAscending(s);
    AllMatchesCount(r, s);
  }

  /** The older versions print them unsorted, each in its own order. */
  lemma CompileOrder(data: Text8, version: int)
    requires version == 0 || version == 1
    ensures
      var s := Sums(data);
      CompileText(data, version)
        == if version == 0 then ToDec(s[0]) + ToDec(s[1]) + ToDec(s[2]) + ToDec(s[3])
           else ToDec(s[1]) + ToDec(s[0]) + ToDec(s[2]) + ToDec(s[3])
  {
    hide ToDec, KsmFold, CodeSum, AlternatingSum;
  }

  /** GXPass.hpp:221-223: the inner loop over the unsorted array. */
  method PrintMatches(x: u64, data: seq<u64>) returns (ret: Text8)
    ensures ret == Matches(x, data)
  {
    ret := [];
    for j := 0 to |data|
      invariant ret + Matches(x, data[j..]) == Matches(x, data)
    {
      assert data[j..][1..] == data[j + 1..];
      if x == data[j] {
        ret := ret + ToDec(data[j]);
      }
    }
    assert data[|data|..] == [];
  }

  /** GXPass.hpp:219-224: the sorted numbers, each printed once for every equal
      entry of the unsorted array. */
  method PrintSorted(data: seq<u64>) returns (ret: Text8)
    ensures ret == AllMatches(Sorted(data), data)
  {
    var sortdata := Sorted(data);
    ret := [];
    for i := 0 to |sortdata|
      invariant ret + AllMatches(sortdata[i..], data) == AllMatches(sortdata, data)
    {
      assert sortdata[i..][1..] == sortdata[i + 1..];
      var row := PrintMatches(sortdata[i], data);
      ret := ret + row;
    }
    assert sortdata[|sortdata|..] == [];
  }

  /** GXPass.hpp:207-245. */
  method Compile(data: Text8, version: int) returns (ret: Text8)
    ensures ret == CompileText(data, version)
  {
    var sum := Sum(data);
    var dxsum1 := DxSum(data, true);
    var dxsum2 := DxSum(data, false);
    var ksmsum := KsmSum(data, NO_MODULUS);
    ghost var s := Sums(data);
    if version == LATEST || version == VERSION_2 {
      forall i | 0 <= i < 4 {
        ParseInvertsPrint(s[i]);
      }
      ret := PrintSorted([ParseDec(sum), ParseDec(dxsum1), ParseDec(dxsum2), ParseDec(ksmsum)]);
    } else if version == 1 {
      ret := dxsum1 + sum + dxsum2 + ksmsum;
    } else if version == 0 {
      ret := sum + dxsum1 + dxsum2 + ksmsum;
    } else {
      ret := [];
    }
  }
}
