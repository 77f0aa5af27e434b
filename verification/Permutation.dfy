/** Unranking permutations in the factorial base, GXPass.hpp:410-430. */
module Permutation {
  import opened Digits

  function Factorial(n: nat): (f: nat)
    ensures f >= 1
  {
    if n == 0 then 1
    else
      var f := Factorial(n - 1);
      assert f * n >= 1;
      f * n
  }

  function RemoveAt<T>(s: seq<T>, i: nat): (r: seq<T>)
    requires i < |s|
    ensures |r| == |s| - 1
  {
    s[..i] + s[i + 1..]
  }

  ghost predicate Distinct<T>(s: seq<T>) {
    forall i, j :: 0 <= i < j < |s| ==> s[i] != s[j]
  }

  ghost predicate IsPermutation<T>(p: seq<T>, cs: seq<T>) {
    multiset(p) == multiset(cs)
  }

  /** The leading index in the factorial base and the rest below it. */
  lemma LeadingDigit(n: nat, k: nat)
    requires k > 0 && n < Factorial(k)
    ensures 0 <= n / Factorial(k - 1) < k && 0 <= n % Factorial(k - 1) < Factorial(k - 1)
  {
    var f := Factorial(k - 1);
    DivModIdentity(n, f);
    if n / f >= k {
      MulMonotone(k, n / f, f);
    }
  }

  lemma DivModIdentity(n: nat, f: nat)
    requires f > 0
    ensures (n / f) * f + n % f == n && 0 <= n % f < f && 0 <= n / f
  {
  }

  lemma RankBound(i: nat, k: nat, f: nat, rest: nat)
    requires i < k && rest < f
    ensures i * f + rest < k * f
  {
    MulMonotone(i + 1, k, f);
    assert (i + 1) * f == i * f + f;
  }

  lemma DigitOrder(m: nat, n: nat, f: nat)
    requires f > 0 && m < n
    ensures m / f < n / f || (m / f == n / f && m % f < n % f)
  {
    var i, j := m / f, n / f;
    DivModIdentity(m, f);
    DivModIdentity(n, f);
    if j < i {
      RankBound(j, i, f, n % f);
    }
  }

  /** The n-th permutation of cs. */
  function Unrank<T>(n: nat, cs: seq<T>): (p: seq<T>)
    requires n < Factorial(|cs|)
    ensures |p| == |cs|
    decreases |cs|
  {
    if cs == [] then []
    else
      LeadingDigit(n, |cs|);
      var f := Factorial(|cs| - 1);
      [cs[n / f]] + Unrank(n % f, RemoveAt(cs, n / f))
  }

  function IndexOf<T(==)>(cs: seq<T>, x: T): (i: nat)
    requires x in cs
    ensures i < |cs| && cs[i] == x && x !in cs[..i]
  {
    if cs[0] == x then 0 else
      var i := 1 + IndexOf(cs[1..], x);
      assert cs[..i] == [cs[0]] + cs[1..][..i - 1];
      i
  }

  lemma RemoveAtMultiset<T>(cs: seq<T>, i: nat)
    requires i < |cs|
    ensures multiset(cs) == multiset{cs[i]} + multiset(RemoveAt(cs, i))
  {
    assert cs == cs[..i] + [cs[i]] + cs[i + 1..];
  }

  lemma RestIsPermutation<T>(p: seq<T>, cs: seq<T>, i: nat)
    requires p != [] && i < |cs| && p[0] == cs[i]
    ensures IsPermutation(p, cs) <==> IsPermutation(p[1..], RemoveAt(cs, i))
  {
    RemoveAtMultiset(cs, i);
    assert p == [p[0]] + p[1..];
    assert multiset(p) == multiset{p[0]} + multiset(p[1..]);
    assert multiset(p[1..]) == multiset(p) - multiset{p[0]};
    assert multiset(RemoveAt(cs, i)) == multiset(cs) - multiset{cs[i]};
  }

  lemma HeadInCharset<T>(p: seq<T>, cs: seq<T>)
    requires IsPermutation(p, cs)
    ensures |p| == |cs|
    ensures p != [] ==> p[0] in cs
  {
    assert |multiset(p)| == |p| && |multiset(cs)| == |cs|;
    if p != [] {
      assert p[0] in multiset(p);
      assert p[0] in multiset(cs);
    }
  }

  /** Where a permutation stands among all permutations of cs. */
  function Rank<T(==)>(p: seq<T>, cs: seq<T>): (n: nat)
    requires IsPermutation(p, cs)
    ensures n < Factorial(|cs|)
    decreases |p|
  {
    HeadInCharset(p, cs);
    if p == [] then 0
    else
      var i := IndexOf(cs, p[0]);
      RestIsPermutation(p, cs, i);
      var rest := Rank(p[1..], RemoveAt(cs, i));
      var f := Factorial(|cs| - 1);
      RankBound(i, |cs|, f, rest);
      i * f + rest
  }

  lemma {:induction false} UnrankIsPermutation<T>(n: nat, cs: seq<T>)
    requires n < Factorial(|cs|)
    ensures IsPermutation(Unrank(n, cs), cs)
    decreases |cs|
  {
    if cs == [] {
    } else {
      LeadingDigit(n, |cs|);
      var f := Factorial(|cs| - 1);
      var p := Unrank(n, cs);
      UnrankIsPermutation(n % f, RemoveAt(cs, n / f));
      assert p[1..] == Unrank(n % f, RemoveAt(cs, n / f));
      RestIsPermutation(p, cs, n / f);
    }
  }

  lemma IndexOfDistinct<T>(cs: seq<T>, i: nat)
    requires Distinct(cs) && i < |cs|
    ensures IndexOf(cs, cs[i]) == i
  {
  }

  lemma RankUnfold<T>(p: seq<T>, cs: seq<T>, i: nat, rest: seq<T>)
    requires IsPermutation(p, cs) && i < |cs| && Distinct(cs)
    requires p == [cs[i]] + rest
    ensures IsPermutation(rest, RemoveAt(cs, i))
    ensures Rank(p, cs) == i * Factorial(|cs| - 1) + Rank(rest, RemoveAt(cs, i))
  {
    assert p[1..] == rest;
    RestIsPermutation(p, cs, i);
    IndexOfDistinct(cs, i);
  }

  /** Ranking undoes unranking ... */
  lemma {:induction false} RankUnrank<T>(n: nat, cs: seq<T>)
    requires Distinct(cs) && n < Factorial(|cs|)
    ensures IsPermutation(Unrank(n, cs), cs) && Rank(Unrank(n, cs), cs) == n
    decreases |cs|
  {
    UnrankIsPermutation(n, cs);
    if cs == [] {
    } else {
      LeadingDigit(n, |cs|);
      var f := Factorial(|cs| - 1);
      RankUnfold(Unrank(n, cs), cs, n / f, Unrank(n % f, RemoveAt(cs, n / f)));
      RankUnrank(n % f, RemoveAt(cs, n / f));
      DivModIdentity(n, f);
    }
  }

  /** ... and unranking undoes ranking: a bijection from [0, k!) to the
      permutations of a charset of k distinct characters. */
  lemma {:induction false} UnrankRank<T>(p: seq<T>, cs: seq<T>)
    requires Distinct(cs) && IsPermutation(p, cs)
    ensures Unrank(Rank(p, cs), cs) == p
    decreases |p|
  {
    HeadInCharset(p, cs);
    if p == [] {
    } else {
      var i := IndexOf(cs, p[0]);
      RestIsPermutation(p, cs, i);
      var rest := Rank(p[1..], RemoveAt(cs, i));
      var f := Factorial(|cs| - 1);
      QuotientOf(i, f, rest);
      UnrankRank(p[1..], RemoveAt(cs, i));
    }
  }

  lemma QuotientOf(i: nat, f: nat, rest: nat)
    requires rest < f
    ensures (i * f + rest) / f == i && (i * f + rest) % f == rest
  {
    var n := i * f + rest;
    var k := n / f - i;
    assert k * f == (n / f) * f - i * f;
    assert k * f == rest - n % f;
  }

  ghost predicate Within<T>(p: seq<T>, cs: seq<T>) {
    forall i :: 0 <= i < |p| ==> p[i] in cs
  }

  /** Lexicographic order by position in cs. */
  ghost predicate LexLess<T>(p: seq<T>, q: seq<T>, cs: seq<T>)
    requires |p| == |q| && Within(p, cs) && Within(q, cs)
  {
    p != [] && (IndexOf(cs, p[0]) < IndexOf(cs, q[0]) || (p[0] == q[0] && LexLess(p[1..], q[1..], cs)))
  }

  /** Taking one character out keeps the relative order of the others. */
  lemma {:induction false} LexLessWider<T>(p: seq<T>, q: seq<T>, cs: seq<T>, i: nat)
    requires Distinct(cs) && i < |cs| && |p| == |q|
    requires Within(p, RemoveAt(cs, i)) && Within(q, RemoveAt(cs, i))
    requires LexLess(p, q, RemoveAt(cs, i))
    ensures Within(p, cs) && Within(q, cs) && LexLess(p, q, cs)
    decreases |p|
  {
    forall k | 0 <= k < |p|
      ensures p[k] in cs && q[k] in cs
    {
      IndexInRest(cs, i, p[k]);
      IndexInRest(cs, i, q[k]);
    }
    IndexInRest(cs, i, p[0]);
    IndexInRest(cs, i, q[0]);
    if p[0] == q[0] {
      LexLessWider(p[1..], q[1..], cs, i);
    }
  }

  lemma IndexInRest<T>(cs: seq<T>, i: nat, x: T)
    requires Distinct(cs) && i < |cs| && x in RemoveAt(cs, i)
    ensures x in cs
    ensures IndexOf(cs, x) == (var k := IndexOf(RemoveAt(cs, i), x); if k < i then k else k + 1)
  {
    var rest := RemoveAt(cs, i);
    var k := IndexOf(rest, x);
    IndexOfDistinct(cs, if k < i then k else k + 1);
  }

  lemma MembersOfPermutation<T>(p: seq<T>, cs: seq<T>)
    requires IsPermutation(p, cs)
    ensures Within(p, cs)
  {
    forall i | 0 <= i < |p|
      ensures p[i] in cs
    {
      assert p[i] in multiset(p);
      assert p[i] in multiset(cs);
    }
  }

  /** A larger number gives a lexicographically later permutation. */
  lemma {:induction false} UnrankIncreasing<T>(m: nat, n: nat, cs: seq<T>)
    requires Distinct(cs) && m < n < Factorial(|cs|)
    ensures Within(Unrank(m, cs), cs) && Within(Unrank(n, cs), cs)
    ensures LexLess(Unrank(m, cs), Unrank(n, cs), cs)
    decreases |cs|
  {
    var p, q := Unrank(m, cs), Unrank(n, cs);
    UnrankIsPermutation(m, cs);
    UnrankIsPermutation(n, cs);
    MembersOfPermutation(p, cs);
    MembersOfPermutation(q, cs);
    if cs == [] {
    } else {
      LeadingDigit(m, |cs|);
      LeadingDigit(n, |cs|);
      var f := Factorial(|cs| - 1);
      DigitOrder(m, n, f);
      var i, j := m / f, n / f;
      IndexOfDistinct(cs, i);
      IndexOfDistinct(cs, j);
      if i == j {
        var rest := RemoveAt(cs, i);
        UnrankIncreasing(m % f, n % f, rest);
        LexLessWider(p[1..], q[1..], cs, i);
      }
    }
  }
}
