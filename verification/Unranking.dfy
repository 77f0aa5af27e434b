/** `getPermutationAfterN` over big integers, and the byte tables built from it,
    GXPass.hpp:33-49 and 410-454. */
module Unranking {
  import opened Digits
  import opened BigInteger
  import opened BigMultiply
  import opened BigDivide
  import opened Permutation
  import opened Text

  const MAX_CHARSET := 300

  /** GXPass.hpp:411-419: the factorials of 0 .. 300. */
  method Factorials() returns (table: seq<NCint>)
    ensures |table| == MAX_CHARSET + 1
    ensures forall i :: 0 <= i < |table| ==> Canonical(table[i]) && Value(table[i]) == Factorial(i)
  {
    var one := FromInt(1);
    table := [one];
    var i := 1;
    while i <= MAX_CHARSET
      invariant 1 <= i <= MAX_CHARSET + 1 && |table| == i
      invariant forall k :: 0 <= k < i ==> Canonical(table[k]) && Value(table[k]) == Factorial(k)
    {
      var factor := FromInt(i);
      var next, _ := Mul(table[i - 1], factor);
      table := table + [next];
      i := i + 1;
    }
  }

  lemma TruncatedOnNaturals(x: nat, y: int, q: int)
    requires y > 0 && Truncated(x, y, q)
    ensures q == x / y && x - q * y == x % y
  {
    DivModUnique(x, y, q, x - q * y);
  }

  /** The permutation number k of cs; only k mod |cs|! matters. */
  function Permuted(k: nat, cs: Text8): (p: Text8)
    ensures |p| == |cs|
  {
    Unrank(k % Factorial(|cs|), cs)
  }

  /** GXPass.hpp:424, 426: the leading digit of n in the factorial base ... */
  method LeadingIndex(n: NCint, f: NCint) returns (index: int)
    requires WellFormed(n) && Value(n) >= 0 && Canonical(f) && Value(f) > 0
    requires Value(n) / Value(f) <= MAX_CHARSET
    ensures index == Value(n) / Value(f)
  {
    hide Truncated, Subtracted, DividesRight, Threshold;
    var q := Div(n, f);
    TruncatedOnNaturals(Value(n), Value(f), Value(q.num));
    MagnitudeBounds(q.num);
    index := ToInt(q.num);
  }

  /** ... and, GXPass.hpp:421 and 425, what is left below it. */
  method Reduce(n: NCint, f: NCint) returns (rest: NCint)
    requires WellFormed(n) && Value(n) >= 0 && Canonical(f) && Value(f) > 0
    ensures WellFormed(rest) && Value(rest) == Value(n) % Value(f)
  {
    var r, quotient := Mod(n, f);
    TruncatedOnNaturals(Value(n), Value(f), quotient);
    rest := r.num;
  }

  /** GXPass.hpp:410-430. The running remainder may be a zero that kept its
      length; every index is inside the characters that are left. */
  method GetPermutationAfterN(start: NCint, charset: Text8) returns (result: Text8)
    requires WellFormed(start) && Value(start) >= 0 && |charset| <= MAX_CHARSET
    ensures result == Unrank(Value(start) % Factorial(|charset|), charset) == Permuted(Value(start), charset)
    ensures Distinct(charset) ==>
      IsPermutation(result, charset) && Rank(result, charset) == Value(start) % Factorial(|charset|)
  {
    hide Unrank;
    var table := Factorials();
    var m := |charset|;
    var n := Reduce(start, table[m]);
    var left := charset;
    result := [];
    while m > 0
      invariant 0 <= m == |left| <= MAX_CHARSET
      invariant WellFormed(n) && 0 <= Value(n) < Factorial(m)
      invariant result + Unrank(Value(n), left) == Permuted(Value(start), charset)
    {
      LeadingDigit(Value(n), m);
      ghost var whole := Value(n);
      var index := LeadingIndex(n, table[m - 1]);
      n := Reduce(n, table[m - 1]);
      UnrankNext(result, whole, left);
      result := result + [left[index]];
      left := RemoveAt(left, index);
      m := m - 1;
    }
    if Distinct(charset) {
      RankUnrank(Value(start) % Factorial(|charset|), charset);
    }
  }

  lemma UnrankNext(result: Text8, n: nat, left: Text8)
    requires left != [] && n < Factorial(|left|)
    ensures
      var f := Factorial(|left| - 1);
      && 0 <= n / f < |left| && n % f < f
      && result + Unrank(n, left) == (result + [left[n / f]]) + Unrank(n % f, RemoveAt(left, n / f))
  {
    LeadingDigit(n, |left|);
  }

  // ------------------------------------------------------------- byte tables

  /** All chars from -128 to 127. */
  function AllChars(): (r: Text8)
    ensures |r| == 256 && Distinct(r)
    ensures forall i :: 0 <= i < 256 ==> r[i] == i - 128
  {
    seq(256, i requires 0 <= i < 256 => Narrow(i - 128))
  }

  /** GXPass.hpp:432-435 and 444-447. */
  method OriginChars() returns (r: Text8)
    ensures r == AllChars()
  {
    r := [];
    for i := -128 to 128
      invariant |r| == i + 128
      invariant forall k :: 0 <= k < |r| ==> r[k] == k - 128
    {
      r := r + [i];
    }
  }

  /** The slot `map::operator[]` uses for a char: its unsigned value. */
  function Slot(c: Char8): (s: nat)
    ensures s < 256
  {
    if c < 0 then c + 256 else c
  }

  function Encipher(k: nat, c: Char8): Char8 {
    Permuted(k, AllChars())[c + 128]
  }

  lemma TargetIsPermutation(k: nat, cs: Text8)
    requires Distinct(cs)
    ensures IsPermutation(Permuted(k, cs), cs) && Distinct(Permuted(k, cs))
  {
    UnrankIsPermutation(k % Factorial(|cs|), cs);
    DistinctPermutation(Permuted(k, cs), cs);
  }

  /** The alphabet that the characters are sent to. */
  function EncipheredAlphabet(k: nat): (r: Text8)
    ensures |r| == 256
  {
    seq(256, i requires 0 <= i < 256 => Encipher(k, i - 128))
  }

  /** Key k sends the characters to permutation number k of them, counted modulo
      256 factorial: the permutation whose rank that is. */
  lemma EncipherIsPermutationK(k: nat)
    ensures IsPermutation(EncipheredAlphabet(k), AllChars())
    ensures Rank(EncipheredAlphabet(k), AllChars()) == k % Factorial(|AllChars()|)
  {
    hide Factorial, Unrank, Rank;
    var n := k % Factorial(|AllChars()|);
    RankUnrank(n, AllChars());
    assert EncipheredAlphabet(k) == Unrank(n, AllChars());
  }

  /** So two keys encipher alike if and only if they are equal modulo 256
      factorial. */
  lemma SameCipherIff(k: nat, l: nat)
    ensures (forall c: Char8 :: Encipher(k, c) == Encipher(l, c))
      <==> k % Factorial(|AllChars()|) == l % Factorial(|AllChars()|)
  {
    hide Factorial, Unrank, Rank;
    EncipherIsPermutationK(k);
    EncipherIsPermutationK(l);
    if forall c: Char8 :: Encipher(k, c) == Encipher(l, c) {
      assert EncipheredAlphabet(k) == EncipheredAlphabet(l);
    }
  }

  lemma DistinctPermutation(p: Text8, cs: Text8)
    requires Distinct(cs) && IsPermutation(p, cs)
    ensures Distinct(p)
  {
    forall i, j | 0 <= i < j < |p|
      ensures p[i] != p[j]
    {
      if p[i] == p[j] {
        TwiceInSequence(p, i, j);
        OnceInDistinct(cs, p[i]);
      }
    }
  }

  lemma TwiceInSequence(p: Text8, i: nat, j: nat)
    requires i < j < |p| && p[i] == p[j]
    ensures multiset(p)[p[i]] >= 2
  {
    assert p == p[..i] + [p[i]] + p[i + 1..j] + [p[j]] + p[j + 1..];
  }

  lemma {:induction false} OnceInDistinct(s: Text8, c: Char8)
    requires Distinct(s)
    ensures multiset(s)[c] <= 1
  {
    if s == [] {
    } else {
      OnceInDistinct(s[1..], c);
      assert s == [s[0]] + s[1..];
      assert s[0] !in s[1..];
    }
  }

  /** The inverse of Encipher: where c stands in the permuted alphabet. */
  function Decipher(k: nat, c: Char8): (r: Char8)
    ensures Encipher(k, r) == c
  {
    EveryCharOccurs(k, c);
    var i := IndexOf(Permuted(k, AllChars()), c);
    i - 128
  }

  lemma EveryCharOccurs(k: nat, c: Char8)
    ensures c in Permuted(k, AllChars())
  {
    TargetIsPermutation(k, AllChars());
    assert c == AllChars()[c + 128];
    assert c in multiset(AllChars());
    assert c in multiset(Permuted(k, AllChars()));
  }

  lemma DecipherInverts(k: nat, c: Char8)
    ensures Decipher(k, Encipher(k, c)) == c
  {
    TargetIsPermutation(k, AllChars());
    IndexOfDistinct(Permuted(k, AllChars()), c + 128);
  }

  /** `getCharsetsMap_encrypy`, GXPass.hpp:431-442. */
  method EncipherTable(n: NCint) returns (charmap: array<Char8>)
    requires WellFormed(n) && Value(n) >= 0
    ensures fresh(charmap) && charmap.Length == 256
    ensures forall c: Char8 :: charmap[Slot(c)] == Encipher(Value(n), c)
  {
    hide Unrank, Factorial, Rank, Distinct, IsPermutation;
    var origin := OriginChars();
    var target := GetPermutationAfterN(n, origin);
    charmap := new Char8[256](_ => 0);
    for i := 0 to |origin|
      invariant forall k :: 0 <= k < i ==> charmap[Slot(origin[k])] == target[k]
    {
      charmap[Slot(origin[i])] := target[i];
    }
    forall c: Char8
      ensures charmap[Slot(c)] == Encipher(Value(n), c)
    {
      assert origin[c + 128] == c;
    }
  }

  /** `getCharsetsMap_decrypy`, GXPass.hpp:443-454. */
  method DecipherTable(n: NCint) returns (charmap: array<Char8>)
    requires WellFormed(n) && Value(n) >= 0
    ensures fresh(charmap) && charmap.Length == 256
    ensures forall c: Char8 :: charmap[Slot(c)] == Decipher(Value(n), c)
  {
    hide Unrank, Factorial, Rank;
    var origin := OriginChars();
    var target := GetPermutationAfterN(n, origin);
    TargetIsPermutation(Value(n), origin);
    charmap := new Char8[256](_ => 0);
    for i := 0 to |origin|
      invariant forall k :: 0 <= k < i ==> charmap[Slot(target[k])] == origin[k]
    {
      charmap[Slot(target[i])] := origin[i];
    }
    forall c: Char8
      ensures charmap[Slot(c)] == Decipher(Value(n), c)
    {
      EveryCharOccurs(Value(n), c);
      assert target[Decipher(Value(n), c) + 128] == c;
    }
  }
}
