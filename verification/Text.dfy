/** Strings of signed chars, decimal printing and parsing. */
module Text {
  import opened Digits

  /** A signed `char`. */
  type Char8 = c: int | -128 <= c < 128
  type Text8 = seq<Char8>

  function Narrow(x: int): (c: Char8)
    ensures -128 <= x < 128 ==> c == x
  {
    (x + 128) % 256 - 128
  }

  /** A string literal of the source. */
  function Ascii(s: string): (r: Text8)
    ensures |r| == |s|
  {
    seq(|s|, i requires 0 <= i < |s| => Narrow(s[i] as int))
  }

  predicate IsDigit(c: Char8) {
    48 <= c <= 57
  }

  predicate IsNumeral(s: Text8) {
    forall i :: 0 <= i < |s| ==> IsDigit(s[i])
  }

  /** Writing an unsigned number to a string stream. */
  function ToDec(n: nat): (s: Text8)
    ensures |s| >= 1 && IsNumeral(s)
  {
    if n < 10 then [48 + n] else ToDec(n / 10) + [48 + n % 10]
  }

  /** Reading it back. */
  function ParseDec(s: Text8): nat
    requires IsNumeral(s)
  {
    if s == [] then 0 else 10 * ParseDec(s[..|s| - 1]) + (s[|s| - 1] - 48)
  }

  /** `c12c2<string,type>(c12c2<type,string>(n))` is n. */
  lemma {:induction false} ParseInvertsPrint(n: nat)
    ensures ParseDec(ToDec(n)) == n
  {
    var s := ToDec(n);
    if n >= 10 {
      ParseInvertsPrint(n / 10);
      assert s[..|s| - 1] == ToDec(n / 10);
    } else {
      assert s[..0] == [];
    }
  }

  /** Printing leaves no leading zero. */
  lemma {:induction false} PrintedPlainly(n: nat)
    ensures ToDec(0) == [48] && (n > 0 ==> ToDec(n)[0] != 48)
  {
    if n < 10 {
    } else {
      PrintedPlainly(n / 10);
    }
  }

  /** Numerals of one length are equal when their numbers are. */
  lemma {:induction false} ParseInjective(s: Text8, t: Text8)
    requires IsNumeral(s) && IsNumeral(t) && |s| == |t| && ParseDec(s) == ParseDec(t)
    ensures s == t
    decreases |s|
  {
    if s == [] {
    } else {
      var n := |s| - 1;
      assert s[n] == t[n];
      ParseInjective(s[..n], t[..n]);
      assert s == s[..n] + [s[n]] && t == t[..n] + [t[n]];
    }
  }

  /** 11..1, the least numeral of n digits without zeros. */
  function Ones(n: nat): nat {
    if n == 0 then 0 else 10 * Ones(n - 1) + 1
  }

  ghost predicate ZeroFree(s: Text8) {
    forall i :: 0 <= i < |s| ==> 49 <= s[i] <= 57
  }

  lemma {:induction false} ZeroFreeBounds(s: Text8)
    requires ZeroFree(s)
    ensures IsNumeral(s) && Ones(|s|) <= ParseDec(s) < Pow10(|s|)
  {
    if s == [] {
    } else {
      ZeroFreeBounds(s[..|s| - 1]);
    }
  }
}
