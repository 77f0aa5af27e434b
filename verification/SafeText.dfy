/** `number2safestring` and `fullsafe` of GXPass.hpp. */
module SafeText {
  import opened Common
  import opened Digits
  import opened ModPower
  import opened Text
  import opened KeyText
  import opened Permutation

  const FNV_OFFSET: u64 := 14695981039346656037
  const FNV_PRIME: u64 := 1099511628211

  predicate Over(s: Text8, chars: Text8) {
    forall c :: c in s ==> c in chars
  }

  /** Bitwise exclusive or. */
  function Xor(x: nat, y: nat): nat
    decreases x + y
  {
    if x == 0 && y == 0 then 0 else (x + y) % 2 + 2 * Xor(x / 2, y / 2)
  }

  function Fnv(data: Text8): u64 {
    if data == [] then FNV_OFFSET
    else (Xor(Fnv(data[..|data| - 1]), ToU64(data[|data| - 1])) * FNV_PRIME) % U64
  }

  /** Bit k of a number. */
  function Bit(x: nat, k: nat): nat {
    if k == 0 then x % 2 else Bit(x / 2, k - 1)
  }

  lemma XorUnfold(x: nat, y: nat)
    ensures Xor(x, y) == (x + y) % 2 + 2 * Xor(x / 2, y / 2)
  {
    if x == 0 && y == 0 {
      assert x / 2 == 0 && y / 2 == 0;
    }
  }

  lemma Odd(x: nat, y: nat)
    ensures (x + y) % 2 == if x % 2 == y % 2 then 0 else 1
  {
  }

  /** Each bit of Xor is set where exactly one of the two bits is. */
  lemma {:induction false} XorBit(x: nat, y: nat, k: nat)
    ensures Bit(Xor(x, y), k) == if Bit(x, k) == Bit(y, k) then 0 else 1
  {
    hide Xor;
    XorUnfold(x, y);
    Odd(x, y);
    if k == 0 {
    } else {
      XorBit(x / 2, y / 2, k - 1);
    }
  }

  /** 0 changes nothing ... */
  lemma {:induction false} XorZero(x: nat)
    ensures Xor(x, 0) == x
  {
    hide Xor;
    XorUnfold(x, 0);
    if x == 0 {
      XorNothing();
    } else {
      XorZero(x / 2);
    }
  }

  lemma XorNothing()
    ensures Xor(0, 0) == 0
  {
  }

  /** ... and exclusive or is its own inverse. */
  lemma {:induction false} XorTwice(x: nat, y: nat)
    ensures Xor(Xor(x, y), y) == x
    decreases x + y
  {
    hide Xor;
    if x == 0 && y == 0 {
      XorNothing();
    } else {
      XorTwice(x / 2, y / 2);
      XorUnfold(x, y);
      XorUnfold(Xor(x, y), y);
      Odd(x, y);
      Odd(Xor(x, y), y);
    }
  }

  /** Both are of one parity, or not; the rest is given. */
  lemma XorFrom(x: nat, y: nat, z: nat)
    requires z % 2 == (if x % 2 == y % 2 then 0 else 1) && Xor(x / 2, y / 2) == z / 2
    ensures Xor(x, y) == z
  {
    hide Xor;
    XorUnfold(x, y);
    Odd(x, y);
  }

  /** The offset with the character 97 mixed in. */
  lemma OffsetWithA()
    ensures Xor(FNV_OFFSET, 97) == FNV_OFFSET + 31
  {
    hide Xor;
    var x := FNV_OFFSET;
    XorZero(114812351869895750);
    XorFrom(229624703739791500, 1, 229624703739791501);
    XorFrom(459249407479583001, 3, 459249407479583002);
    XorFrom(918498814959166002, 6, 918498814959166004);
    XorFrom(1836997629918332004, 12, 1836997629918332008);
    XorFrom(3673995259836664009, 24, 3673995259836664017);
    XorFrom(7347990519673328018, 48, 7347990519673328034);
    XorFrom(14695981039346656037, 97, 14695981039346656068);
  }

  /** The published 64-bit FNV-1a values of "" and "a". */
  lemma FnvVectors()
    ensures Fnv([]) == 0xcbf29ce484222325 && Fnv([97]) == 0xaf63dc4c8601ec8c
  {
    hide Xor;
    OffsetWithA();
    var a: Text8 := [97];
    assert a[..0] == [];
    assert Fnv(a) == (Xor(Fnv([]), ToU64(97)) * FNV_PRIME) % U64;
    DivModUnique((FNV_OFFSET + 31) * FNV_PRIME, U64, 875948729822, 0xaf63dc4c8601ec8c);
  }

  function DigitSum(data: Text8): nat
    requires IsNumeral(data)
  {
    if data == [] then 0 else DigitSum(data[..|data| - 1]) + (data[|data| - 1] - 48)
  }

  lemma {:induction false} DigitSumConcat(s: Text8, t: Text8)
    requires IsNumeral(s) && IsNumeral(t)
    ensures IsNumeral(s + t) && DigitSum(s + t) == DigitSum(s) + DigitSum(t)
    ensures DigitSum([]) == 0 && forall c: Char8 :: IsDigit(c) ==> DigitSum([c]) == c - 48
    decreases |t|
  {
    forall c: Char8 | IsDigit(c)
      ensures DigitSum([c]) == c - 48
    {
      assert [c][..0] == [];
    }
    if t == [] {
      assert s + t == s;
    } else {
      DigitSumConcat(s, t[..|t| - 1]);
      assert (s + t)[..|s + t| - 1] == s + t[..|t| - 1];
    }
  }

  /** An odd numeral gets a check digit, so that digits pair up. */
  function Padded(data: Text8): (r: Text8)
    requires IsNumeral(data)
    ensures IsNumeral(r) && |r| % 2 == 0 && |r| == 2 * ((|data| + 1) / 2)
  {
    if |data| % 2 == 1 then data + [48 + DigitSum(data) % 10] else data
  }

  /** The digit added is the last digit of the digit sum; an even numeral stays. */
  lemma PaddedChecks(data: Text8)
    requires IsNumeral(data)
    ensures data <= Padded(data) && (|data| % 2 == 0 ==> Padded(data) == data)
    ensures |data| % 2 == 1 ==>
      |Padded(data)| == |data| + 1 && DigitSum(data) % 10 == Padded(data)[|data|] - 48
  {
  }

  /** `i % n` as an index into a string of length n, by repeated subtraction. */
  function Wrap(i: nat, n: nat): (r: nat)
    requires n > 0
    ensures r < n
  {
    if i < n then i else Wrap(i - n, n)
  }

  lemma {:induction false} WrapIsRemainder(i: nat, n: nat)
    requires n > 0
    ensures Wrap(i, n) == i % n
  {
    if i < n {
      DivModUnique(i, n, 0, i);
    } else {
      WrapIsRemainder(i - n, n);
      ModAddMultiple(i - n, 1, n);
    }
  }

  function PairIndex(tens: Char8, units: Char8, hash: u64, n: nat): (r: nat)
    requires IsDigit(tens) && IsDigit(units) && n > 0
    ensures r < n
  {
    Wrap((tens - 48) * 10 + (units - 48) + Wrap(hash, n), n)
  }

  /** The index is the number of the pair, shifted by the hash, modulo n. */
  lemma PairIndexIs(tens: Char8, units: Char8, hash: u64, n: nat)
    requires IsDigit(tens) && IsDigit(units) && n > 0
    ensures PairIndex(tens, units, hash, n) == ((tens - 48) * 10 + (units - 48) + hash % n) % n
  {
    WrapIsRemainder(hash, n);
    WrapIsRemainder((tens - 48) * 10 + (units - 48) + hash % n, n);
  }

  /** Residues of numbers that lie less than n apart. */
  lemma CloseResidues(x: int, y: int, n: int)
    requires n > 0 && x % n == y % n && -n < x - y < n
    ensures x == y
  {
    assert x - y == (x / n - y / n) * n;
    SmallMultiple(x / n - y / n, n);
  }

  function NextHash(hash: u64, index: nat): u64 {
    (hash * 31 + index) % U64
  }

  /** One character per pair of digits, shifted by a running hash. */
  function SafePairs(data: Text8, hash: u64, chars: Text8): (r: Text8)
    requires IsNumeral(data) && |data| % 2 == 0 && chars != []
    ensures |r| == |data| / 2
  {
    if data == [] then []
    else
      var index := PairIndex(data[0], data[1], hash, |chars|);
      [chars[index]] + SafePairs(data[2..], NextHash(hash, index), chars)
  }

  function SafeString(data: Text8, chars: Text8): (r: Text8)
    requires IsNumeral(data) && chars != []
    ensures |r| == (|data| + 1) / 2
  {
    SafePairs(Padded(data), Fnv(Padded(data)), chars)
  }

  /** GXPass.hpp:315-346. */
  method NumberToSafeString(input: Text8, chars: Text8) returns (ret: Text8)
    requires IsNumeral(input) && chars != []
    ensures ret == SafeString(input, chars)
  {
    var data := input;
    if |data| % 2 == 1 {
      var sum: nat := 0;
      for i := 0 to |data|
        invariant sum == DigitSum(data[..i])
      {
        assert data[..i + 1][..i] == data[..i];
        sum := sum + (data[i] - 48);
      }
      assert data[..|data|] == data;
      data := data + [48 + sum % 10];
    }
    assert data == Padded(input);
    var hash: u64 := FNV_OFFSET;
    for i := 0 to |data|
      invariant hash == Fnv(data[..i])
    {
      assert data[..i + 1][..i] == data[..i];
      hash := (Xor(hash, ToU64(data[i])) * FNV_PRIME) % U64;
    }
    assert data[..|data|] == data;
    ret := MapPairs(data, hash, chars);
  }

  lemma PairsUnroll(data: Text8, i: nat, hash: u64, chars: Text8, ret: Text8, whole: Text8)
    requires IsNumeral(data) && |data| % 2 == 0 && chars != [] && i + 1 < |data| && i % 2 == 0
    requires ret + SafePairs(data[i..], hash, chars) == whole
    ensures
      var index := PairIndex(data[i], data[i + 1], hash, |chars|);
      (ret + [chars[index]]) + SafePairs(data[i + 2..], NextHash(hash, index), chars) == whole
  {
    var index := PairIndex(data[i], data[i + 1], hash, |chars|);
    assert data[i..][2..] == data[i + 2..];
    AppendAssociative(ret, chars[index], SafePairs(data[i + 2..], NextHash(hash, index), chars));
  }

  lemma NoPairs(hash: u64, chars: Text8)
    requires chars != []
    ensures SafePairs([], hash, chars) == []
  {
  }

  /** GXPass.hpp:336-343. */
  method MapPairs(data: Text8, start: u64, chars: Text8) returns (ret: Text8)
    requires IsNumeral(data) && |data| % 2 == 0 && chars != []
    ensures ret == SafePairs(data, start, chars)
  {
    hide SafePairs, PairIndex, NextHash;
    var hash: u64 := start;
    ret := [];
    var i := 0;
    ghost var whole := SafePairs(data, start, chars);
    assert data[0..] == data && [] + whole == whole;
    while i < |data|
      invariant 0 <= i <= |data| && i % 2 == 0
      invariant ret + SafePairs(data[i..], hash, chars) == whole
    {
      var index := PairIndex(data[i], data[i + 1], hash, |chars|);
      PairsUnroll(data, i, hash, chars, ret, whole);
      ret := ret + [chars[index]];
      hash := NextHash(hash, index);
      i := i + 2;
    }
    NoPairs(hash, chars);
    assert data[i..] == [] && ret + [] == ret;
  }

  // ----------------------------------------------------------------- fullsafe

  /** C++ `/` and `%`, truncating toward zero. */
  function TruncDiv(x: int, y: int): int
    requires y != 0
  {
    if x >= 0 then x / y else -(-x / y)
  }

  function TruncMod(x: int, y: int): (r: int)
    requires y > 0
    ensures -y < r < y
  {
    if x >= 0 then x % y else -(-x % y)
  }

  /** GXPass.hpp:349-355. The input length divides. */
  function ComputeSafePassLen(inputLength: nat, minPassLen: int): int
    requires inputLength > 0
  {
    if inputLength < minPassLen then TruncDiv(minPassLen, inputLength) * 1000
    else TruncDiv(minPassLen * 1000, inputLength) + 128
  }

  /** The lengths with the usual minimum of 6: thousands for short inputs, and
      never less than 128. */
  lemma SafePassLengths(n: nat)
    requires n > 0
    ensures ComputeSafePassLen(n, 6)
      == if n == 1 then 6000 else if n == 2 then 3000 else if n == 3 then 2000 else if n <= 5 then 1000
         else 6000 / n + 128
  {
  }

  function Scramble(data: Text8): Text8 {
    seq(|data|, i requires 0 <= i < |data| => TruncMod(data[i] + i, 127))
  }

  predicate Known(version: int) {
    version == LATEST || version == 1 || version == VERSION_2
  }

  function Original(data: Text8, version: int, chars: Text8): (r: Text8)
    requires Known(version) && chars != []
    ensures r != []
  {
    CompileNonEmpty(Scramble(data), version);
    SafeString(CompileText(Scramble(data), version), chars)
  }

  function Grow(step: Text8, version: int, chars: Text8): (next: Text8)
    requires Known(version) && chars != []
    ensures |next| > |step|
  {
    CompileNonEmpty(step, version);
    step + SafeString(CompileText(step, version), chars)
  }

  /** Characters i .. n - 1 of the pass, while `step` keeps growing. */
  function Steps(step: Text8, i: nat, n: int, version: int, chars: Text8): (r: Text8)
    requires Known(version) && chars != []
    ensures |r| == (if i < n then n - i else 0)
    decreases n - i
  {
    if i >= n then []
    else
      var next := Grow(step, version, chars);
      [next[Wrap(i, |next|)]] + Steps(next, i + 1, n, version, chars)
  }

  function Walk(original: Text8, n: int, version: int, chars: Text8): (r: Text8)
    requires Known(version) && chars != [] && original != []
    ensures |r| == (if 1 < n then n else 1)
  {
    [original[0]] + Steps(original, 1, n, version, chars)
  }

  /** Version 2 drops the first preLen characters; version 1 has none to drop. */
  function Cut(original: Text8, len: nat, preLen: nat, version: int, chars: Text8): (r: Text8)
    requires Known(version) && chars != [] && original != [] && len > 0
    ensures |r| == len
  {
    if version == 1 then Walk(original, len, version, chars)
    else Walk(original, len + preLen, version, chars)[preLen..]
  }

  function ResolvedLength(data: Text8, version: int, passLen: int, chars: Text8, minPassLen: int): int
    requires Known(version) && chars != []
    requires passLen == -2 ==> data != []
  {
    if passLen == -1 then |Original(data, version, chars)|
    else if passLen == -2 then ComputeSafePassLen(|data|, minPassLen)
    else passLen
  }

  /** What the special lengths stand for: half the digits of the compiled input,
      rounded up, and the computed length. */
  lemma ResolvedLengths(data: Text8, version: int, passLen: int, chars: Text8, minPassLen: int)
    requires Known(version) && chars != [] && (passLen == -2 ==> data != [])
    ensures
      var n := ResolvedLength(data, version, passLen, chars, minPassLen);
      && (passLen == -1 ==> n == (|CompileText(Scramble(data), version)| + 1) / 2)
      && (passLen == -2 ==> n == ComputeSafePassLen(|data|, minPassLen))
      && (passLen != -1 && passLen != -2 ==> n == passLen)
  {
    CompileNonEmpty(Scramble(data), version);
    hide CompileText, Scramble;
  }

  /** The pass of `len` characters: a known version yields exactly that many,
      any other version yields nothing. */
  function FullsafeText(data: Text8, version: int, len: int, preLen: nat, chars: Text8): (r: Text8)
    requires chars != []
    ensures |r| == if Known(version) && len > 0 then len else 0
  {
    if !Known(version) || len <= 0 then []
    else Cut(Original(data, version, chars), len, preLen, version, chars)
  }

  lemma {:induction false} SafePairsOver(data: Text8, hash: u64, chars: Text8)
    requires IsNumeral(data) && |data| % 2 == 0 && chars != []
    ensures Over(SafePairs(data, hash, chars), chars)
  {
    if data == [] {
    } else {
      var index := PairIndex(data[0], data[1], hash, |chars|);
      SafePairsOver(data[2..], NextHash(hash, index), chars);
    }
  }

  lemma {:induction false} StepsOver(step: Text8, i: nat, n: int, version: int, chars: Text8)
    requires Known(version) && chars != [] && Over(step, chars)
    ensures Over(Steps(step, i, n, version, chars), chars)
    decreases n - i
  {
    if i >= n {
    } else {
      CompileNonEmpty(step, version);
      var digits := CompileText(step, version);
      SafePairsOver(Padded(digits), Fnv(Padded(digits)), chars);
      var next := Grow(step, version, chars);
      assert Over(next, chars);
      StepsOver(next, i + 1, n, version, chars);
    }
  }

  ghost predicate PairsReadable(chars: Text8, hash: u64)
    requires chars != []
  {
    forall s, t ::
      (IsNumeral(s) && IsNumeral(t) && |s| % 2 == |t| % 2 == 0
        && SafePairs(s, hash, chars) == SafePairs(t, hash, chars)) ==> s == t
  }

  /** The first pair of digits gives the first character, and the hash moves on. */
  lemma PairsUnfold(s: Text8, hash: u64, chars: Text8)
    requires IsNumeral(s) && |s| % 2 == 0 && s != [] && chars != []
    ensures
      var index := ((s[0] - 48) * 10 + (s[1] - 48) + hash % |chars|) % |chars|;
      var r := SafePairs(s, hash, chars);
      && index == PairIndex(s[0], s[1], hash, |chars|) && NextHash(hash, index) == (hash * 31 + index) % U64
      && r != [] && r[0] == chars[index] && r[1..] == SafePairs(s[2..], NextHash(hash, index), chars)
  {
    PairIndexIs(s[0], s[1], hash, |chars|);
    hide PairIndex;
  }

  lemma SameIndex(s: Text8, t: Text8, hash: u64, n: nat)
    requires IsNumeral(s) && IsNumeral(t) && |s| >= 2 && |t| >= 2 && n >= 100
    requires PairIndex(s[0], s[1], hash, n) == PairIndex(t[0], t[1], hash, n)
    ensures s[0] == t[0] && s[1] == t[1]
  {
    hide PairIndex;
    PairIndexIs(s[0], s[1], hash, n);
    PairIndexIs(t[0], t[1], hash, n);
    CloseResidues((s[0] - 48) * 10 + (s[1] - 48) + hash % n, (t[0] - 48) * 10 + (t[1] - 48) + hash % n, n);
  }

  lemma {:induction false} SamePairs(s: Text8, t: Text8, hash: u64, chars: Text8)
    requires IsNumeral(s) && IsNumeral(t) && |s| % 2 == |t| % 2 == 0 && |chars| >= 100 && Distinct(chars)
    requires SafePairs(s, hash, chars) == SafePairs(t, hash, chars)
    ensures s == t
  {
    hide SafePairs, PairIndex, NextHash;
    assert |s| == |t|;
    if s == [] {
    } else {
      var i := PairIndex(s[0], s[1], hash, |chars|);
      PairsUnfold(s, hash, chars);
      PairsUnfold(t, hash, chars);
      assert i == PairIndex(t[0], t[1], hash, |chars|);
      SameIndex(s, t, hash, |chars|);
      SamePairs(s[2..], t[2..], NextHash(hash, i), chars);
      assert s == [s[0], s[1]] + s[2..] && t == [t[0], t[1]] + t[2..];
    }
  }

  /** From a given hash on, the characters determine the digits if and only if the
      charset has a character for every pair of digits. The default one, of 91
      characters, has not. */
  lemma PairsReadableIff(chars: Text8, hash: u64)
    requires chars != [] && Distinct(chars)
    ensures PairsReadable(chars, hash) <==> |chars| >= 100
  {
    if |chars| >= 100 {
      forall s: Text8, t: Text8 | IsNumeral(s) && IsNumeral(t) && |s| % 2 == |t| % 2 == 0
          && SafePairs(s, hash, chars) == SafePairs(t, hash, chars)
        ensures s == t
      {
        SamePairs(s, t, hash, chars);
      }
    } else {
      PairCollides(chars, hash);
    }
  }

  /** With n < 100 characters the pairs 00 and n share one. */
  lemma PairCollides(chars: Text8, hash: u64)
    requires 0 < |chars| < 100
    ensures !PairsReadable(chars, hash)
  {
    hide PairIndex, NextHash;
    var n := |chars|;
    var s: Text8, t: Text8 := [48, 48], [48 + n / 10, 48 + n % 10];
    PairIndexIs(s[0], s[1], hash, n);
    PairIndexIs(t[0], t[1], hash, n);
    ModAddMultiple(hash % n, 1, n);
    OnePair(s, hash, chars);
    OnePair(t, hash, chars);
    assert IsNumeral(s) && IsNumeral(t) && s != t;
  }

  lemma OnePair(s: Text8, hash: u64, chars: Text8)
    requires IsNumeral(s) && |s| == 2 && chars != []
    ensures SafePairs(s, hash, chars) == [chars[PairIndex(s[0], s[1], hash, |chars|)]]
  {
    assert s[2..] == [];
  }

  // --------------------------------------------- the characters of a pass

  /** The text after i rounds of growing. */
  function Grown(original: Text8, i: nat, version: int, chars: Text8): (r: Text8)
    requires Known(version) && chars != [] && original != []
    ensures r != []
  {
    if i == 0 then original else Grow(Grown(original, i - 1, version, chars), version, chars)
  }

  /** Growing appends: each text begins with all earlier ones, and what is new is
      the safe string of the one before, compiled. Round 0 is the safe string of
      the scrambled input, compiled. */
  lemma GrownBy(data: Text8, original: Text8, i: nat, version: int, chars: Text8)
    requires Known(version) && chars != [] && original != []
    ensures
      var t, next := Grown(original, i, version, chars), Grown(original, i + 1, version, chars);
      && IsNumeral(CompileText(t, version)) && t < next
      && next[|t|..] == SafeString(CompileText(t, version), chars)
    ensures IsNumeral(CompileText(Scramble(data), version))
    ensures Original(data, version, chars) == SafeString(CompileText(Scramble(data), version), chars)
  {
    hide CompileText, Scramble, SafeString;
    CompileNonEmpty(Grown(original, i, version, chars), version);
    CompileNonEmpty(Scramble(data), version);
  }

  /** The versions that yield a pass. Version 0 does not, though `compile` has it. */
  lemma KnownVersions(data: Text8, len: int, preLen: nat, chars: Text8)
    requires chars != []
    ensures forall version :: Known(version) <==> version == -1 || version == 1 || version == 2
    ensures forall version ::
      version == 0 || version < -1 || version > 2 ==> FullsafeText(data, version, len, preLen, chars) == []
  {
  }

  /** The character that round i reads. */
  function ReadAt(original: Text8, i: nat, version: int, chars: Text8): Char8
    requires Known(version) && chars != [] && original != []
  {
    var t := Grown(original, i, version, chars);
    t[i % |t|]
  }

  lemma {:induction false} StepsAt(original: Text8, step: Text8, i: nat, n: nat, k: nat, version: int,
                                   chars: Text8)
    requires Known(version) && chars != [] && original != [] && 0 < i <= k < n
    requires step == Grown(original, i - 1, version, chars)
    ensures Steps(step, i, n, version, chars)[k - i]
      == ReadAt(original, k, version, chars)
    decreases k - i
  {
    hide Grow, Wrap;
    var next := Grown(original, i, version, chars);
    var rest := Steps(next, i + 1, n, version, chars);
    assert Steps(step, i, n, version, chars) == [next[Wrap(i, |next|)]] + rest;
    if k == i {
      WrapIsRemainder(i, |next|);
    } else {
      StepsAt(original, next, i + 1, n, k, version, chars);
    }
  }

  lemma NotYetGrown(original: Text8, version: int, chars: Text8)
    requires Known(version) && chars != [] && original != []
    ensures Grown(original, 0, version, chars) == original && ReadAt(original, 0, version, chars) == original[0]
  {
  }

  lemma WalkAt(original: Text8, n: nat, k: nat, version: int, chars: Text8)
    requires Known(version) && chars != [] && original != [] && k < n
    ensures Walk(original, n, version, chars)[k] == ReadAt(original, k, version, chars)
  {
    hide Steps, Grow;
    var i := 1;
    assert Walk(original, n, version, chars) == [original[0]] + Steps(original, i, n, version, chars);
    if k == 0 {
      NotYetGrown(original, version, chars);
    } else {
      NotYetGrown(original, version, chars);
      hide Grown, ReadAt;
      StepsAt(original, original, i, n, k, version, chars);
    }
  }

  /** Character k of a pass is what round k + preLen reads, or round k in version
      1: the text grown so often, read at that index modulo its length. */
  lemma PassCharacter(data: Text8, version: int, len: nat, preLen: nat, chars: Text8, k: nat)
    requires Known(version) && chars != [] && k < len
    ensures FullsafeText(data, version, len, preLen, chars)[k]
      == ReadAt(Original(data, version, chars), if version == 1 then k else k + preLen, version, chars)
  {
    hide ReadAt, Original, Walk;
    var original := Original(data, version, chars);
    if version == 1 {
      WalkAt(original, len, k, version, chars);
    } else {
      WalkAt(original, len + preLen, k + preLen, version, chars);
    }
  }

  /** What is compiled first: each code plus its index, as a remainder by 127 that
      takes the sign of what it is the remainder of. */
  lemma ScrambleAt(data: Text8, i: nat)
    requires i < |data|
    ensures |Scramble(data)| == |data|
    ensures
      var x, r := data[i] + i, Scramble(data)[i];
      -127 < r < 127 && (r > 0 ==> x > 0) && (r < 0 ==> x < 0) && (x - r) % 127 == 0
  {
    var x: int := data[i] + i;
    if x < 0 {
      ModAddMultiple(0, -(-x / 127), 127);
    } else {
      ModAddMultiple(0, x / 127, 127);
    }
  }

  /** Every character of a pass comes from the given charset. */
  lemma FullsafeOver(data: Text8, version: int, len: int, preLen: nat, chars: Text8)
    requires chars != []
    ensures Over(FullsafeText(data, version, len, preLen, chars), chars)
  {
    if Known(version) && len > 0 {
      OriginalOver(data, version, chars);
      CutOver(Original(data, version, chars), len, preLen, version, chars);
    }
  }

  lemma OriginalOver(data: Text8, version: int, chars: Text8)
    requires Known(version) && chars != []
    ensures Over(Original(data, version, chars), chars)
  {
    var scrambled := Scramble(data);
    CompileNonEmpty(scrambled, version);
    var digits := CompileText(scrambled, version);
    SafePairsOver(Padded(digits), Fnv(Padded(digits)), chars);
  }

  lemma CutOver(original: Text8, len: nat, preLen: nat, version: int, chars: Text8)
    requires Known(version) && chars != [] && original != [] && Over(original, chars) && len > 0
    ensures Over(Cut(original, len, preLen, version, chars), chars)
  {
    var n := if version == 1 then len else len + preLen;
    StepsOver(original, 1, n, version, chars);
    var walk := Walk(original, n, version, chars);
    assert Over(walk, chars) by {
      assert original[0] in original;
    }
    OverDrop(walk, if version == 1 then 0 else preLen, chars);
  }

  lemma OverDrop(s: Text8, k: nat, chars: Text8)
    requires Over(s, chars) && k <= |s|
    ensures Over(s[k..], chars)
  {
    forall c | c in s[k..]
      ensures c in chars
    {
      assert c in s;
    }
  }

  lemma {:induction false} StepsVersions(step: Text8, i: nat, n: int, chars: Text8)
    requires chars != []
    ensures Steps(step, i, n, LATEST, chars) == Steps(step, i, n, VERSION_2, chars)
    decreases n - i
  {
    if i >= n {
    } else {
      assert Grow(step, LATEST, chars) == Grow(step, VERSION_2, chars);
      StepsVersions(Grow(step, VERSION_2, chars), i + 1, n, chars);
    }
  }

  lemma CutVersions(original: Text8, len: nat, preLen: nat, chars: Text8)
    requires chars != [] && original != [] && len > 0
    ensures Cut(original, len, preLen, LATEST, chars) == Cut(original, len, preLen, VERSION_2, chars)
  {
    hide Steps;
    StepsVersions(original, 1, len + preLen, chars);
  }

  lemma CompileVersions(data: Text8)
    ensures CompileText(data, LATEST) == CompileText(data, VERSION_2)
  {
  }

  /** Version -1 is version 2. */
  lemma LatestIsTwo(data: Text8, len: int, preLen: nat, chars: Text8)
    requires chars != []
    ensures FullsafeText(data, LATEST, len, preLen, chars) == FullsafeText(data, VERSION_2, len, preLen, chars)
  {
    if len > 0 {
      CompileVersions(Scramble(data));
      CutVersions(Original(data, LATEST, chars), len, preLen, chars);
    }
  }

  /** GXPass.hpp:369-373 and 389-393: scramble, compile, map to characters. */
  method FirstPass(data: Text8, version: int, chars: Text8) returns (original: Text8)
    requires Known(version) && chars != []
    ensures original == Original(data, version, chars)
  {
    var input := data;
    for i := 0 to |data|
      invariant |input| == |data|
      invariant forall k :: 0 <= k < |data| ==>
        input[k] == if k < i then TruncMod(data[k] + k, 127) else data[k]
    {
      input := input[i := TruncMod(input[i] + i, 127)];
    }
    assert input == Scramble(data);
    var compiled := Compile(input, version);
    CompileNonEmpty(input, version);
    original := NumberToSafeString(compiled, chars);
  }

  lemma AppendAssociative(s: Text8, c: Char8, t: Text8)
    ensures (s + [c]) + t == s + ([c] + t)
  {
  }

  /** One round of the loops below: the text grows by a compiled copy of
      itself and one character is read from it. */
  method FillRound(step: Text8, i: nat, version: int, chars: Text8) returns (next: Text8, c: Char8)
    requires Known(version) && chars != []
    ensures next == Grow(step, version, chars) && c == next[Wrap(i, |next|)]
  {
    var compiled := Compile(step, version);
    CompileNonEmpty(step, version);
    var more := NumberToSafeString(compiled, chars);
    next := step + more;
    c := next[Wrap(i, |next|)];
  }

  lemma StepsUnroll(step: Text8, i: nat, n: int, version: int, chars: Text8, final: Text8, whole: Text8)
    requires Known(version) && chars != [] && i < n
    requires final + Steps(step, i, n, version, chars) == whole
    ensures
      var next := Grow(step, version, chars);
      (final + [next[Wrap(i, |next|)]]) + Steps(next, i + 1, n, version, chars) == whole
  {
    var next := Grow(step, version, chars);
    AppendAssociative(final, next[Wrap(i, |next|)], Steps(next, i + 1, n, version, chars));
  }

  lemma WalkStarts(original: Text8, n: int, version: int, chars: Text8)
    requires Known(version) && chars != [] && original != []
    ensures [original[0]] + Steps(original, 1, n, version, chars) == Walk(original, n, version, chars)
  {
  }

  /** GXPass.hpp:378-383 and 397-403. */
  method FillPass(original: Text8, n: int, version: int, chars: Text8) returns (final: Text8)
    requires Known(version) && chars != [] && original != []
    ensures final == Walk(original, n, version, chars)
  {
    hide Walk, Steps, Grow, Wrap;
    final := [original[0]];
    var step := original;
    var i := 1;
    ghost var whole := Walk(original, n, version, chars);
    WalkStarts(original, n, version, chars);
    while i < n
      invariant 1 <= i
      invariant n <= i ==> final == whole
      invariant final + Steps(step, i, n, version, chars) == whole
    {
      StepsUnroll(step, i, n, version, chars, final, whole);
      var next, c := FillRound(step, i, version, chars);
      step, final, i := next, final + [c], i + 1;
    }
  }

  /** GXPass.hpp:365-409. */
  method Fullsafe(data: Text8, version: int, requested: int, preLen: nat, chars: Text8, minPassLen: int := 6)
      returns (r: Text8)
    requires chars != []
    requires requested == -2 ==> data != []
    ensures r == if !Known(version) then [] else
      FullsafeText(data, version, ResolvedLength(data, version, requested, chars, minPassLen), preLen, chars)
  {
    if !Known(version) {
      return [];
    }
    var original := FirstPass(data, version, chars);
    var passLen := requested;
    if passLen == -1 {
      passLen := |original|;
    }
    if passLen == -2 {
      passLen := ComputeSafePassLen(|data|, minPassLen);
    }
    if passLen <= 0 {
      return [];
    }
    r := FillAndCut(original, passLen, preLen, version, chars);
  }

  method FillAndCut(original: Text8, passLen: int, preLen: nat, version: int, chars: Text8) returns (r: Text8)
    requires Known(version) && chars != [] && original != [] && passLen > 0
    ensures r == Cut(original, passLen, preLen, version, chars)
  {
    if version == 1 {
      r := FillPass(original, passLen, version, chars);
    } else {
      r := FillPass(original, passLen + preLen, version, chars);
      r := r[preLen..];
    }
  }
}
