/** `number2ABC`, GXPass.hpp:248-295: a numeral as upper-case letters. */
module Letters {
  import opened Text

  /** The letter of a number from 1 to 26. */
  function Letter(n: int): (c: Char8)
    requires 1 <= n <= 26
    ensures 65 <= c <= 90
  {
    64 + n
  }

  /** One digit d read while `pending` holds the digit read before and not yet
      used, or -1: the letters emitted now ... */
  function Emitted(pending: int, d: int): Text8
    requires -1 <= pending <= 9 && 0 <= d <= 9
  {
    if pending == -1 then []
    else if pending == 0 then (if d == 0 then [] else [Letter(d)])
    else if pending == 1 then [Letter(10 + d)]
    else if pending == 2 then (if d <= 6 then [Letter(20 + d)] else [Letter(2), Letter(d)])
    else [Letter(pending)]
  }

  /** ... and the digit held afterwards. */
  function Held(pending: int, d: int): (next: int)
    requires -1 <= pending <= 9 && 0 <= d <= 9
    ensures next == -1 || next == 0 || next == d
  {
    if pending == -1 || pending >= 3 then d
    else if pending == 0 && d == 0 then 0
    else -1
  }

  /** Everything emitted for the rest s. */
  function Emit(pending: int, s: Text8): Text8
    requires IsNumeral(s) && -1 <= pending <= 9
    decreases |s|
  {
    if s == [] then (if pending > 0 then [Letter(pending)] else [])
    else Emitted(pending, s[0] - 48) + Emit(Held(pending, s[0] - 48), s[1..])
  }

  function NumberToABC(data: Text8): Text8
    requires IsNumeral(data)
  {
    Emit(-1, data)
  }

  method Number2ABC(data: Text8) returns (ret: Text8)
    requires IsNumeral(data)
    ensures ret == NumberToABC(data)
  {
    ret := [];
    var number := -1;
    var i := 0;
    while i < |data|
      invariant 0 <= i <= |data| && -1 <= number <= 9
      invariant ret + Emit(number, data[i..]) == NumberToABC(data)
    {
      var digit := data[i] - 48;
      EmitNext(ret, number, data, i);
      ghost var before, held := ret, number;
      if number == -1 {
        number := digit;
      } else if number == 0 {
        if digit != 0 {
          number := digit;
          ret := ret + [Letter(number)];
          number := -1;
        }
      } else if number == 1 {
        number := number * 10 + digit;
        ret := ret + [Letter(number)];
        number := -1;
      } else if number == 2 {
        if digit <= 6 {
          number := number * 10 + digit;
          ret := ret + [Letter(number)];
          number := -1;
        } else {
          ret := ret + [Letter(number)];
          number := -1;
          ret := ret + [Letter(digit)];
        }
      } else {
        ret := ret + [Letter(number)];
        number := digit;
      }
      assert ret == before + Emitted(held, digit) && number == Held(held, digit);
      i := i + 1;
    }
    if number != 0 && number != -1 {
      ret := ret + [Letter(number)];
    }
  }

  lemma EmitNext(ret: Text8, pending: int, data: Text8, i: nat)
    requires IsNumeral(data) && -1 <= pending <= 9 && i < |data|
    ensures ret + Emit(pending, data[i..])
      == (ret + Emitted(pending, data[i] - 48)) + Emit(Held(pending, data[i] - 48), data[i + 1..])
  {
    assert data[i..][1..] == data[i + 1..];
  }

  predicate IsUpper(s: Text8) {
    forall i :: 0 <= i < |s| ==> 65 <= s[i] <= 90
  }

  /** The letters written back as their numbers. */
  function Spell(letters: Text8): Text8
    requires IsUpper(letters)
  {
    if letters == [] then [] else ToDec(letters[0] - 64) + Spell(letters[1..])
  }

  /** t is s with some zeros left out and nothing else changed. */
  ghost predicate DropsZeros(s: Text8, t: Text8) {
    if s == [] then t == []
    else (t != [] && t[0] == s[0] && DropsZeros(s[1..], t[1..])) || (s[0] == 48 && DropsZeros(s[1..], t))
  }

  function PendingText(pending: int): Text8
    requires -1 <= pending <= 9
  {
    if pending == -1 then [] else [48 + pending]
  }

  lemma {:induction false} DropsZerosPrefix(u: Text8, s: Text8, t: Text8)
    requires DropsZeros(s, t)
    ensures DropsZeros(u + s, u + t)
  {
    if u == [] {
      assert u + s == s && u + t == t;
    } else {
      DropsZerosPrefix(u[1..], s, t);
      assert (u + s)[1..] == u[1..] + s && (u + t)[1..] == u[1..] + t;
    }
  }

  /** The digits of the input that the letters emitted now stand for. */
  function Used(pending: int, d: int): Text8
    requires -1 <= pending <= 9 && 0 <= d <= 9
  {
    if pending == -1 || (pending == 0 && d == 0) then []
    else if pending == 0 then [48 + d]
    else if pending <= 2 then [48 + pending, 48 + d]
    else [48 + pending]
  }

  lemma SpellOne(n: int, tail: Text8)
    requires 1 <= n <= 9 && IsUpper(tail)
    ensures IsUpper([Letter(n)] + tail) && Spell([Letter(n)] + tail) == [48 + n] + Spell(tail)
  {
    assert ([Letter(n)] + tail)[1..] == tail;
  }

  lemma SpellPair(tens: int, units: int, tail: Text8)
    requires 1 <= tens <= 2 && 0 <= units <= 9 && 10 * tens + units <= 26 && IsUpper(tail)
    ensures
      var c := Letter(10 * tens + units);
      IsUpper([c] + tail) && Spell([c] + tail) == [48 + tens, 48 + units] + Spell(tail)
  {
    var n := 10 * tens + units;
    assert ([Letter(n)] + tail)[1..] == tail;
    assert n / 10 == tens && n % 10 == units;
    assert ToDec(tens) == [48 + tens];
  }

  lemma SpellTwo(d: int, tail: Text8)
    requires 7 <= d <= 9 && IsUpper(tail)
    ensures IsUpper([Letter(2), Letter(d)] + tail)
    ensures Spell([Letter(2), Letter(d)] + tail) == [50, 48 + d] + Spell(tail)
  {
    SpellOne(d, tail);
    SpellOne(2, [Letter(d)] + tail);
    assert [Letter(2), Letter(d)] + tail == [Letter(2)] + ([Letter(d)] + tail);
    assert [50] + ([48 + d] + Spell(tail)) == [50, 48 + d] + Spell(tail);
  }

  lemma SpellEmitted(pending: int, d: int, tail: Text8)
    requires -1 <= pending <= 9 && 0 <= d <= 9 && IsUpper(tail)
    ensures IsUpper(Emitted(pending, d) + tail)
    ensures Spell(Emitted(pending, d) + tail) == Used(pending, d) + Spell(tail)
  {
    hide Spell, IsUpper;
    assert [] + tail == tail && [] + Spell(tail) == Spell(tail);
    if pending == 0 && d > 0 {
      SpellOne(d, tail);
    } else if pending == 1 {
      SpellPair(1, d, tail);
    } else if pending == 2 && d <= 6 {
      SpellPair(2, d, tail);
    } else if pending == 2 {
      SpellTwo(d, tail);
    } else if pending > 2 {
      SpellOne(pending, tail);
    }
  }

  /** The input splits into what is used now and what is still held or unread;
      only a held zero goes missing. */
  lemma UsedAndHeld(pending: int, s: Text8)
    requires IsNumeral(s) && s != [] && -1 <= pending <= 9
    ensures
      var d := s[0] - 48;
      Used(pending, d) + (PendingText(Held(pending, d)) + s[1..])
        == if pending == 0 then s else PendingText(pending) + s
  {
    assert s == [s[0]] + s[1..];
  }

  /** One digit: if the letters to come spell what is held next and the rest,
      then with the letters emitted now they spell what was held before. */
  lemma StepDropsZeros(pending: int, s: Text8, tail: Text8)
    requires IsNumeral(s) && s != [] && -1 <= pending <= 9 && IsUpper(tail)
    requires DropsZeros(PendingText(Held(pending, s[0] - 48)) + s[1..], Spell(tail))
    ensures IsUpper(Emitted(pending, s[0] - 48) + tail)
    ensures DropsZeros(PendingText(pending) + s, Spell(Emitted(pending, s[0] - 48) + tail))
  {
    hide Spell, Emitted, Used, Held, DropsZeros;
    var d := s[0] - 48;
    SpellEmitted(pending, d, tail);
    UsedAndHeld(pending, s);
    Combine(PendingText(pending), s, Used(pending, d), PendingText(Held(pending, d)) + s[1..], Spell(tail));
  }

  lemma Combine(held: Text8, s: Text8, used: Text8, core: Text8, t: Text8)
    requires DropsZeros(core, t)
    requires used + core == if held == [48] then s else held + s
    ensures DropsZeros(held + s, used + t)
  {
    DropsZerosPrefix(used, core, t);
    assert ([48] + s)[1..] == s;
  }

  lemma LastHeldDigit(pending: int)
    requires -1 <= pending <= 9
    ensures IsUpper(Emit(pending, [])) && DropsZeros(PendingText(pending) + [], Spell(Emit(pending, [])))
  {
    var t := PendingText(pending);
    assert t + [] == t;
    if pending > 0 {
      SpellOne(pending, []);
      assert [Letter(pending)] + [] == [Letter(pending)];
      assert t[1..] == [];
    }
  }

  lemma {:induction false} EmitDropsZeros(pending: int, s: Text8)
    requires IsNumeral(s) && -1 <= pending <= 9
    ensures IsUpper(Emit(pending, s))
    ensures DropsZeros(PendingText(pending) + s, Spell(Emit(pending, s)))
    decreases |s|
  {
    if s == [] {
      LastHeldDigit(pending);
    } else {
      var next := Held(pending, s[0] - 48);
      EmitDropsZeros(next, s[1..]);
      StepDropsZeros(pending, s, Emit(next, s[1..]));
    }
  }

  /** Every numeral becomes letters A to Z that spell it, up to lost zeros. */
  lemma SpelledBack(data: Text8)
    requires IsNumeral(data)
    ensures IsUpper(NumberToABC(data)) && DropsZeros(data, Spell(NumberToABC(data)))
  {
    EmitDropsZeros(-1, data);
    assert PendingText(-1) + data == data;
  }

  // ------------------------------------------------- when nothing is lost

  /** The guard of the branches that lose a zero: the digit held is never 0,
      neither before another digit nor at the end. */
  predicate NeverHoldsZero(pending: int, s: Text8)
    requires IsNumeral(s) && -1 <= pending <= 9
    decreases |s|
  {
    pending != 0 && (s == [] || NeverHoldsZero(Held(pending, s[0] - 48), s[1..]))
  }

  lemma LastLetter(pending: int)
    requires -1 <= pending <= 9
    ensures IsUpper(Emit(pending, []))
    ensures Spell(Emit(pending, [])) == if pending > 0 then PendingText(pending) else []
  {
    if pending > 0 {
      SpellOne(pending, []);
      assert [Letter(pending)] + [] == [Letter(pending)];
    }
  }

  /** From any point of the loop, what the letters spell is no longer than what is
      held and unread, and it is the same text exactly when no zero is ever held. */
  lemma {:induction false} SpelledIff(pending: int, s: Text8)
    requires IsNumeral(s) && -1 <= pending <= 9
    ensures IsUpper(Emit(pending, s))
    ensures |Spell(Emit(pending, s))| <= |PendingText(pending) + s|
    ensures Spell(Emit(pending, s)) == PendingText(pending) + s <==> NeverHoldsZero(pending, s)
    decreases |s|
  {
    hide Spell, Emitted, Used, Held, IsUpper;
    if s == [] {
      LastLetter(pending);
      assert PendingText(pending) + s == PendingText(pending);
    } else {
      var d := s[0] - 48;
      var next := Held(pending, d);
      var tail := Emit(next, s[1..]);
      SpelledIff(next, s[1..]);
      SpellEmitted(pending, d, tail);
      UsedAndHeld(pending, s);
      SamePrefix(Used(pending, d), Spell(tail), PendingText(next) + s[1..]);
    }
  }

  lemma SamePrefix(u: Text8, s: Text8, t: Text8)
    ensures u + s == u + t <==> s == t
    ensures |u + s| <= |u + t| <==> |s| <= |t|
  {
    assert (u + s)[|u|..] == s && (u + t)[|u|..] == t;
  }

  /** The letters of a numeral spell it if and only if the loop never holds a
      zero. Zeros right behind a 1 or a 2, as in 10, 20 and 110, do no harm. */
  lemma SpelledExactlyIff(data: Text8)
    requires IsNumeral(data)
    ensures IsUpper(NumberToABC(data))
    ensures Spell(NumberToABC(data)) == data <==> NeverHoldsZero(-1, data)
  {
    SpelledIff(-1, data);
    assert PendingText(-1) + data == data;
  }

  /** No two numerals of that kind share their letters. */
  lemma InjectiveIfNeverHeld(s: Text8, t: Text8)
    requires IsNumeral(s) && IsNumeral(t) && NeverHoldsZero(-1, s) && NeverHoldsZero(-1, t)
    requires NumberToABC(s) == NumberToABC(t)
    ensures s == t
  {
    SpelledExactlyIff(s);
    SpelledExactlyIff(t);
  }

  /** A numeral without zeros is of that kind. */
  lemma {:induction false} ZeroFreeNeverHolds(pending: int, s: Text8)
    requires ZeroFree(s) && IsNumeral(s) && -1 <= pending <= 9 && pending != 0
    ensures NeverHoldsZero(pending, s)
    decreases |s|
  {
    if s == [] {
    } else {
      ZeroFreeNeverHolds(Held(pending, s[0] - 48), s[1..]);
    }
  }

  // ------------------------------------------------- two digits at a time

  /** Wherever two digits make a letter they do: an A only at the end, and a B
      only there or in front of a 7, 8 or 9. */
  predicate IsGreedy(t: Text8) {
    forall i :: 0 <= i < |t| - 1 ==> t[i] != 65 && (t[i] == 66 ==> 71 <= t[i + 1] <= 73)
  }

  lemma JoinGreedy(now: Text8, rest: Text8)
    requires IsGreedy(now) && IsGreedy(rest) && (now != [] ==> now[|now| - 1] >= 67)
    ensures IsGreedy(now + rest)
  {
    var t := now + rest;
    forall i | 0 <= i < |t| - 1
      ensures t[i] != 65 && (t[i] == 66 ==> 71 <= t[i + 1] <= 73)
    {
      if i >= |now| {
        assert t[i] == rest[i - |now|] && t[i + 1] == rest[i - |now| + 1];
      }
    }
  }

  lemma {:induction false} EmitGreedy(pending: int, s: Text8)
    requires IsNumeral(s) && -1 <= pending <= 9 && NeverHoldsZero(pending, s)
    ensures IsGreedy(Emit(pending, s))
    decreases |s|
  {
    if s == [] {
    } else {
      var d := s[0] - 48;
      var next := Held(pending, d);
      EmitGreedy(next, s[1..]);
      JoinGreedy(Emitted(pending, d), Emit(next, s[1..]));
    }
  }

  /** The digits of a letter, as the text that spells it begins. */
  function DigitsOf(n: int): (r: Text8)
    requires 1 <= n <= 26
  {
    if n < 10 then [48 + n] else [48 + n / 10, 48 + n % 10]
  }

  lemma SpellFirst(t: Text8)
    requires IsUpper(t) && t != []
    ensures IsUpper(t[1..]) && Spell(t) == DigitsOf(t[0] - 64) + Spell(t[1..])
  {
    hide Spell;
    var n := t[0] - 64;
    assert t == [Letter(n)] + t[1..];
    if n >= 10 {
      SpellPair(n / 10, n % 10, t[1..]);
    } else {
      SpellOne(n, t[1..]);
    }
  }

  /** What follows a greedy letter of one digit cannot make it one of two. */
  lemma SecondDigit(t: Text8)
    requires IsUpper(t) && IsGreedy(t) && t != [] && t[0] - 64 <= 2
    ensures |Spell(t)| == 1 || (t[0] - 64 == 2 && Spell(t)[1] >= 55)
  {
    hide Spell;
    SpellFirst(t);
    if |t| > 1 {
      SpellFirst(t[1..]);
    } else {
      assert t[1..] == [];
      SpellNothing();
    }
  }

  lemma SpellNothing()
    ensures Spell([]) == []
  {
  }

  lemma SameFirst(t: Text8, u: Text8)
    requires IsUpper(t) && IsUpper(u) && IsGreedy(t) && t != [] && u != [] && Spell(t) == Spell(u)
    ensures t[0] - 64 < 10 ==> u[0] - 64 < 10
  {
    hide Spell;
    SpellFirst(t);
    SpellFirst(u);
    var n, m := t[0] - 64, u[0] - 64;
    assert Spell(t)[0] == Spell(u)[0];
    if n <= 2 {
      SecondDigit(t);
    }
  }

  /** Greedy letters are determined by the digits they spell. */
  lemma {:induction false} GreedyUnique(t: Text8, u: Text8)
    requires IsUpper(t) && IsUpper(u) && IsGreedy(t) && IsGreedy(u) && Spell(t) == Spell(u)
    ensures t == u
    decreases |t|
  {
    hide Spell;
    SpellNothing();
    if t == [] || u == [] {
      if t != [] {
        SpellFirst(t);
      }
      if u != [] {
        SpellFirst(u);
      }
    } else {
      SameFirst(t, u);
      SameFirst(u, t);
      SpellFirst(t);
      SpellFirst(u);
      SameHead(t, u);
      GreedyUnique(t[1..], u[1..]);
      assert t == [t[0]] + t[1..] && u == [u[0]] + u[1..];
    }
  }

  lemma SameHead(t: Text8, u: Text8)
    requires IsUpper(t) && IsUpper(u) && t != [] && u != [] && Spell(t) == Spell(u)
    requires t[0] - 64 < 10 <==> u[0] - 64 < 10
    ensures t[0] == u[0] && Spell(t[1..]) == Spell(u[1..])
  {
    hide Spell;
    SpellFirst(t);
    SpellFirst(u);
    var k := if t[0] - 64 < 10 then 1 else 2;
    assert Spell(t)[0] == Spell(u)[0] && Spell(t)[k - 1] == Spell(u)[k - 1];
    assert Spell(t)[k..] == Spell(t[1..]) && Spell(u)[k..] == Spell(u[1..]);
    var n, m := t[0] - 64, u[0] - 64;
    if k == 2 {
      assert n == 10 * (n / 10) + n % 10 && m == 10 * (m / 10) + m % 10;
    }
  }

  /** The letters of a numeral that keeps its zeros are the one text that spells
      it and takes two digits whenever it can. */
  lemma GreedyLettersIff(s: Text8, t: Text8)
    requires IsNumeral(s) && NeverHoldsZero(-1, s)
    ensures t == NumberToABC(s) <==> IsUpper(t) && IsGreedy(t) && Spell(t) == s
  {
    SpelledExactlyIff(s);
    EmitGreedy(-1, s);
    if IsUpper(t) && IsGreedy(t) && Spell(t) == s {
      GreedyUnique(t, NumberToABC(s));
    }
  }

  /** Behind a lost zero, further zeros are lost too, and the next digit stands
      alone. */
  lemma AfterHeldZero(d: int, rest: Text8)
    requires 0 <= d <= 9 && IsNumeral(rest)
    ensures Emit(0, [48 + d] + rest) == if d == 0 then Emit(0, rest) else [Letter(d)] + NumberToABC(rest)
    ensures Emit(0, []) == []
  {
    assert ([48 + d] + rest)[1..] == rest;
  }

  lemma InjectiveWithoutZeros(s: Text8, t: Text8)
    requires IsNumeral(s) && IsNumeral(t) && ZeroFree(s) && ZeroFree(t)
    requires NumberToABC(s) == NumberToABC(t)
    ensures s == t
  {
    ZeroFreeNeverHolds(-1, s);
    ZeroFreeNeverHolds(-1, t);
    InjectiveIfNeverHeld(s, t);
  }

  /** The digit held after s, and the letters emitted on the way. */
  function HeldAfter(pending: int, s: Text8): (p: int)
    requires IsNumeral(s) && -1 <= pending <= 9
    ensures -1 <= p <= 9
    decreases |s|
  {
    if s == [] then pending else HeldAfter(Held(pending, s[0] - 48), s[1..])
  }

  function EmittedBy(pending: int, s: Text8): Text8
    requires IsNumeral(s) && -1 <= pending <= 9
    decreases |s|
  {
    if s == [] then [] else Emitted(pending, s[0] - 48) + EmittedBy(Held(pending, s[0] - 48), s[1..])
  }

  lemma {:induction false} EmitSplit(pending: int, s: Text8, t: Text8)
    requires IsNumeral(s) && IsNumeral(t) && -1 <= pending <= 9
    ensures IsNumeral(s + t)
    ensures Emit(pending, s + t) == EmittedBy(pending, s) + Emit(HeldAfter(pending, s), t)
    decreases |s|
  {
    hide Emitted, Held;
    if s == [] {
      assert s + t == t;
    } else {
      var next := Held(pending, s[0] - 48);
      EmitSplit(next, s[1..], t);
      assert (s + t)[1..] == s[1..] + t;
      var now, rest, last := Emitted(pending, s[0] - 48), EmittedBy(next, s[1..]), Emit(HeldAfter(next, s[1..]), t);
      assert now + (rest + last) == (now + rest) + last;
    }
  }

  /** A digit 1 or 2 still held at the end was read last, with nothing held that
      it could have completed. */
  lemma {:induction false} HeldLast(pending: int, s: Text8)
    requires IsNumeral(s) && -1 <= pending <= 9 && s != []
    requires 1 <= HeldAfter(pending, s) <= 2
    ensures s[|s| - 1] == 48 + HeldAfter(pending, s)
    ensures HeldAfter(pending, s[..|s| - 1]) == -1 || HeldAfter(pending, s[..|s| - 1]) >= 3
    decreases |s|
  {
    var next := Held(pending, s[0] - 48);
    if |s| == 1 {
      assert s[1..] == [] && s[..0] == [];
    } else {
      HeldLast(next, s[1..]);
      assert s[..|s| - 1][1..] == s[1..][..|s| - 2];
    }
  }

  lemma ZeroAtEnd(pending: int)
    requires -1 <= pending <= 9 && pending != 1 && pending != 2
    ensures Emit(pending, [48]) == Emit(pending, [])
  {
    assert [48][1..] == [];
  }

  lemma ZeroBeforeLast(pending: int, d: int)
    requires (pending == -1 || 3 <= pending <= 9) && 1 <= d <= 2
    ensures Emit(pending, [48, 48 + d]) == Emit(pending, [48 + d])
  {
    var two, one := [48, 48 + d], [48 + d];
    assert two[1..] == one && one[1..] == [];
    assert Emit(0, one) == [Letter(d)] + Emit(-1, []) == [Letter(d)];
    assert Emit(d, []) == [Letter(d)];
  }

  /** Texts that go on from the same place with the same letters. */
  lemma SameLetters(front: Text8, t: Text8, u: Text8)
    requires IsNumeral(front) && IsNumeral(t) && IsNumeral(u)
    requires Emit(HeldAfter(-1, front), t) == Emit(HeldAfter(-1, front), u)
    ensures IsNumeral(front + t) && IsNumeral(front + u) && NumberToABC(front + t) == NumberToABC(front + u)
  {
    hide Emit, HeldAfter, EmittedBy;
    EmitSplit(-1, front, t);
    EmitSplit(-1, front, u);
  }

  /** No numeral has its letters to itself: a zero more, at its end or before its
      last digit, goes unnoticed. */
  lemma EveryNumeralCollides(s: Text8) returns (t: Text8)
    requires IsNumeral(s)
    ensures IsNumeral(t) && |t| == |s| + 1 && NumberToABC(t) == NumberToABC(s)
  {
    var pending := HeldAfter(-1, s);
    if pending == 1 || pending == 2 {
      assert s != [];
      t := ZeroInside(s, pending);
    } else {
      hide Emit, HeldAfter, NumberToABC;
      ZeroAtEnd(pending);
      SameLetters(s, [48], []);
      assert s + [] == s;
      t := s + [48];
    }
  }

  lemma ZeroInside(s: Text8, pending: int) returns (t: Text8)
    requires IsNumeral(s) && s != [] && 1 <= pending <= 2 && HeldAfter(-1, s) == pending
    ensures IsNumeral(t) && |t| == |s| + 1 && NumberToABC(t) == NumberToABC(s)
  {
    hide Emit, HeldAfter, NumberToABC;
    var front := s[..|s| - 1];
    HeldLast(-1, s);
    assert s == front + [48 + pending];
    ZeroBeforeLast(HeldAfter(-1, front), pending);
    SameLetters(front, [48, 48 + pending], [48 + pending]);
    t := front + [48, 48 + pending];
  }

  /** The smallest such pair: 3 and 30 both become C, and 30 holds a zero. */
  lemma ZerosCollide()
    ensures NumberToABC([51]) == NumberToABC([51, 48]) == [67]
    ensures NeverHoldsZero(-1, [51]) && !NeverHoldsZero(-1, [51, 48])
  {
    assert [51][1..] == [] && [51, 48][1..] == [48] && [48][1..] == [];
  }
}
