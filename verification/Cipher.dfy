/** `encrypt` and `decrypt`, GXPass.hpp:455-529. */
module Cipher {
  import opened Common
  import opened Digits
  import opened BigInteger
  import opened BigDivide
  import opened Text
  import opened KeyText
  import opened SafeText
  import opened Unranking

  /** `fullsafe` with a fixed length. */
  method Pass(data: Text8, version: int, len: nat, preLen: nat, chars: Text8) returns (r: Text8)
    requires chars != []
    ensures r == FullsafeText(data, version, len, preLen, chars)
  {
    r := Fullsafe(data, version, len, preLen, chars);
  }

  function Numbers(): (r: Text8)
    ensures r != [] && ZeroFree(r)
  {
    Ascii("123456789")
  }

  lemma PassZeroFree(data: Text8, version: int, len: nat, preLen: nat, chars: Text8)
    requires chars != [] && ZeroFree(chars)
    ensures ZeroFree(FullsafeText(data, version, len, preLen, chars))
  {
    var r := FullsafeText(data, version, len, preLen, chars);
    FullsafeOver(data, version, len, preLen, chars);
    forall i | 0 <= i < |r|
      ensures 49 <= r[i] <= 57
    {
      assert r[i] in r && r[i] in chars;
    }
  }

  /** The pass as a number without zero digits. */
  function NumberPass(data: Text8, version: int, len: nat, preLen: nat): (r: Text8)
    ensures |r| == if Known(version) then len else 0
    ensures ZeroFree(r) && IsNumeral(r)
  {
    PassZeroFree(data, version, len, preLen, Numbers());
    FullsafeText(data, version, len, preLen, Numbers())
  }

  lemma ZeroFreeText(s: Text8)
    requires ZeroFree(s)
    ensures Unsigned(s) == s
    ensures IsNumeral(s) && Ones(|s|) <= ParseDec(s) < Pow10(|s|)
  {
    ZeroFreeBounds(s);
  }

  /** A pass read as an int: dictionary lengths (2 digits) and window sizes
      (3 digits) come from here. */
  method SmallNumber(data: Text8, version: int, len: nat, preLen: nat) returns (n: int)
    requires len <= 3
    ensures n == ParseDec(NumberPass(data, version, len, preLen))
    ensures if Known(version) then Ones(len) <= n < Pow10(len) else n == 0
  {
    hide FullsafeText, Numbers, ZeroFree;
    var text := Pass(data, version, len, preLen, Numbers());
    ghost var spec := NumberPass(data, version, len, preLen);
    assert text == spec;
    ZeroFreeText(text);
    var big := FromText(text);
    MagnitudeBounds(big);
    Pow10Monotone(|text|, 3);
    assert Pow10(3) == 1000;
    n := ToInt(big);
  }

  function KeyNumber(finalPass: Text8): nat {
    ParseDec(NumberPass(finalPass, LATEST, 600, 16))
  }

  /** The key is read from 600 digits without zeros, and no two such texts give
      the same. */
  lemma KeyNumberIff(p: Text8, q: Text8)
    ensures KeyNumber(p) == KeyNumber(q)
      <==> FullsafeText(p, LATEST, 600, 16, Numbers()) == FullsafeText(q, LATEST, 600, 16, Numbers())
    ensures |FullsafeText(p, LATEST, 600, 16, Numbers())| == 600
  {
    hide FullsafeText, Numbers;
    var s, t := NumberPass(p, LATEST, 600, 16), NumberPass(q, LATEST, 600, 16);
    if ParseDec(s) == ParseDec(t) {
      ParseInjective(s, t);
    }
  }

  method Key(finalPass: Text8) returns (key: NCint)
    ensures WellFormed(key) && Value(key) == KeyNumber(finalPass)
  {
    var text := Pass(finalPass, LATEST, 600, 16, Numbers());
    ghost var spec := NumberPass(finalPass, LATEST, 600, 16);
    assert text == spec;
    ZeroFreeText(text);
    key := FromText(text);
  }

  // ------------------------------------------------------- hashes and passes

  const DATA_HASH_LEN := 32
  const PASS_LEN := 256

  function DataHash(data: Text8, version: int, charset: Text8): (r: Text8)
    requires charset != []
    ensures |r| == if Known(version) then DATA_HASH_LEN else 0
  {
    FullsafeText(data, version, DATA_HASH_LEN, 16, charset)
  }

  /** GXPass.hpp:456-458 and 607-612; `device` is empty unless the file is tied
      to one. */
  function OriginText(device: Text8, crossDevices: bool, passHash: Text8, dataHash: Text8): Text8 {
    (if crossDevices then Ascii("| Device ID: ") + device + Ascii(" ") else [])
    + Ascii("| PassHash: ") + passHash + Ascii(" | DataHash: ") + dataHash
  }

  /** Where each part of the text stands, counted from its end. */
  lemma OriginParts(device: Text8, crossDevices: bool, passHash: Text8, dataHash: Text8)
    ensures
      var t := OriginText(device, crossDevices, passHash, dataHash);
      var data := |t| - |dataHash|;
      var pass := data - 13 - |passHash|;
      && 12 <= pass
      && t[data..] == dataHash && t[data - 13..data] == Ascii(" | DataHash: ")
      && t[pass..data - 13] == passHash && t[pass - 12..pass] == Ascii("| PassHash: ")
      && t[..pass - 12] == if crossDevices then Ascii("| Device ID: ") + device + Ascii(" ") else []
  {
    hide Ascii;
    var front := if crossDevices then Ascii("| Device ID: ") + device + Ascii(" ") else [];
    var p, d := Ascii("| PassHash: "), Ascii(" | DataHash: ");
    var t := OriginText(device, crossDevices, passHash, dataHash);
    assert |p| == 12 && |d| == 13;
    assert t == front + p + passHash + d + dataHash;
    FiveParts(front, p, passHash, d, dataHash);
  }

  lemma FiveParts(a: Text8, b: Text8, c: Text8, d: Text8, e: Text8)
    ensures
      var t := a + b + c + d + e;
      var i, j, k, l := |a|, |a| + |b|, |a| + |b| + |c|, |a| + |b| + |c| + |d|;
      |t| == l + |e| && t[..i] == a && t[i..j] == b && t[j..k] == c && t[k..l] == d && t[l..] == e
  {
  }

  /** The text determines its parts, hashes of known length given: another pass
      hash, another data hash, and with a device another device make another
      text, and so does leaving the device out. */
  lemma OriginDetermines(d1: Text8, c1: bool, p1: Text8, h1: Text8, d2: Text8, c2: bool, p2: Text8, h2: Text8)
    requires |p1| == |p2| && |h1| == |h2|
    ensures OriginText(d1, c1, p1, h1) == OriginText(d2, c2, p2, h2)
      <==> p1 == p2 && h1 == h2 && c1 == c2 && (c1 ==> d1 == d2)
  {
    hide Ascii;
    OriginParts(d1, c1, p1, h1);
    OriginParts(d2, c2, p2, h2);
    DeviceFront(d1);
    DeviceFront(d2);
  }

  lemma DeviceFront(device: Text8)
    ensures
      var front := Ascii("| Device ID: ") + device + Ascii(" ");
      |front| == |device| + 14 && front[13..|front| - 1] == device
  {
    hide Ascii;
    assert |Ascii("| Device ID: ")| == 13 && |Ascii(" ")| == 1;
  }

  function FinalPass(origin: Text8, version: int, charset: Text8): Text8
    requires charset != []
  {
    FullsafeText(origin, version, PASS_LEN, 256, charset)
  }

  /** The passes by their lengths and their characters: how far into the grown text
      each of them begins. */
  lemma PassesAre(text: Text8, version: int, charset: Text8, k: nat)
    requires Known(version) && charset != []
    ensures
      var skipped := (n: nat) => if version == 1 then 0 else n;
      var original := Original(text, version, charset);
      && |FinalPass(text, version, charset)| == 256 && |DataHash(text, version, charset)| == 32
      && (k < 256 ==> FinalPass(text, version, charset)[k] == ReadAt(original, k + skipped(256), version, charset))
      && (k < 32 ==> DataHash(text, version, charset)[k] == ReadAt(original, k + skipped(16), version, charset))
  {
    hide ReadAt, Original, FullsafeText;
    if k < 256 {
      PassCharacter(text, version, 256, 256, charset, k);
    }
    if k < 32 {
      PassCharacter(text, version, 32, 16, charset, k);
    }
  }

  /** GXPass.hpp:456-460: the pass a text is encrypted under. */
  function DerivedPass(data: Text8, passHash: Text8, version: int, crossDevices: bool, device: Text8, charset: Text8)
      : Text8
    requires charset != []
  {
    FinalPass(OriginText(device, crossDevices, passHash, DataHash(data, version, charset)), version, charset)
  }

  /** It is the final pass of a text that ends with the data hash, the pass hash in
      front of it, and begins with the device if the file is tied to one. */
  lemma DerivedPassIs(data: Text8, passHash: Text8, version: int, crossDevices: bool, device: Text8, charset: Text8)
      returns (origin: Text8)
    requires charset != []
    ensures DerivedPass(data, passHash, version, crossDevices, device, charset) == FinalPass(origin, version, charset)
    ensures
      var dataHash := DataHash(data, version, charset);
      var front := if crossDevices then Ascii("| Device ID: ") + device + Ascii(" ") else [];
      && front + Ascii("| PassHash: ") + passHash <= origin
      && origin == front + Ascii("| PassHash: ") + passHash + Ascii(" | DataHash: ") + dataHash
  {
    hide Ascii, FinalPass, DataHash;
    origin := OriginText(device, crossDevices, passHash, DataHash(data, version, charset));
  }

  function EncipherText(k: nat, data: Text8): (r: Text8)
    ensures |r| == |data|
  {
    seq(|data|, i requires 0 <= i < |data| => Encipher(k, data[i]))
  }

  function DecipherText(k: nat, data: Text8): (r: Text8)
    ensures |r| == |data|
  {
    seq(|data|, i requires 0 <= i < |data| => Decipher(k, data[i]))
  }

  /** Under one key the two substitutions are inverse on every byte string. */
  lemma DecipherTextInverts(k: nat, data: Text8)
    ensures DecipherText(k, EncipherText(k, data)) == data
    ensures EncipherText(k, DecipherText(k, data)) == data
  {
    forall i | 0 <= i < |data|
      ensures Decipher(k, Encipher(k, data[i])) == data[i]
    {
      DecipherInverts(k, data[i]);
    }
  }

  /** Two keys give the same text exactly when they agree on each of its
      characters: every character is replaced, each by its own image. */
  lemma SameTextIff(k: nat, l: nat, data: Text8)
    ensures EncipherText(k, data) == EncipherText(l, data)
      <==> forall i :: 0 <= i < |data| ==> Encipher(k, data[i]) == Encipher(l, data[i])
    ensures forall i :: 0 <= i < |data| ==> EncipherText(k, data)[i] == Encipher(k, data[i])
  {
    hide Encipher;
    if EncipherText(k, data) == EncipherText(l, data) {
      forall i | 0 <= i < |data|
        ensures Encipher(k, data[i]) == Encipher(l, data[i])
      {
        assert EncipherText(k, data)[i] == EncipherText(l, data)[i];
      }
    }
  }

  // --------------------------------------------------------------- the loops

  /** How many characters before the current one a window takes at most. */
  function WindowSize(finalPass: Text8): nat {
    ParseDec(NumberPass(finalPass, LATEST, 3, 8))
  }

  /** The character at i and up to `size` before it; nothing before the first. */
  function Window(seen: Text8, i: int, size: nat): Text8
    requires -1 <= i < |seen|
  {
    seen[i - (if size < i then size else i)..i + 1]
  }

  lemma WindowSizeIs(finalPass: Text8)
    ensures 111 <= WindowSize(finalPass) <= 999
  {
    ZeroFreeText(NumberPass(finalPass, LATEST, 3, 8));
    hide NumberPass;
    TwoDigits();
    assert Ones(3) == 10 * Ones(2) + 1 && Pow10(3) == 10 * Pow10(2);
  }

  /** The window ends with the character at i and reaches back at most `size`. */
  lemma WindowIs(seen: Text8, i: nat, size: nat)
    requires i < |seen|
    ensures |Window(seen, i, size)| == 1 + Min(size, i)
    ensures forall k :: i - Min(size, i) <= k <= i ==> seen[k] == Window(seen, i, size)[k - (i - Min(size, i))]
  {
  }

  function DictionaryLength(seed: Text8, window: Text8, version: int): (dl: nat)
    ensures if Known(version) then 11 <= dl <= 99 else dl == 0
  {
    var pass := NumberPass(seed + Ascii(" | WindowData: ") + window, version, 2, 16);
    ZeroFreeText(pass);
    TwoDigits();
    ParseDec(pass)
  }

  /** GXPass.hpp:481-489 and 516-524: the window seeds the next dictionary
      length, which has two digits and no zero among them. An unknown version
      gives none, and 0. */
  method NextLength(seen: Text8, i: int, finalPass: Text8, seed: Text8, version: int) returns (dl: int)
    requires -1 <= i < |seen|
    ensures dl == DictionaryLength(seed, Window(seen, i, WindowSize(finalPass)), version)
    ensures if Known(version) then 11 <= dl <= 99 else dl == 0
  {
    hide NumberPass, Ascii;
    var ws := SmallNumber(finalPass, LATEST, 3, 8);
    var wsFinal := if ws < i then ws else i;
    var windowData := [];
    for j := i - wsFinal to i + 1
      invariant windowData == seen[i - wsFinal..j]
    {
      windowData := windowData + [seen[j]];
    }
    assert windowData == Window(seen, i, ws);
    dl := SmallNumber(seed + Ascii(" | WindowData: ") + windowData, version, 2, 16);
    TwoDigits();
  }

  lemma TwoDigits()
    ensures Ones(2) == 11 && Pow10(2) == 100 && Ones(0) == 0 && Pow10(0) == 1
  {
    assert Ones(1) == 1 && Pow10(1) == 10;
  }

  /** Every character replaced through a 256-slot table. */
  function Apply(table: seq<Char8>, data: Text8): (r: Text8)
    requires |table| == 256
    ensures |r| == |data|
  {
    seq(|data|, i requires 0 <= i < |data| => table[Slot(data[i])])
  }

  /** GXPass.hpp:467-493. Whatever lengths the hashes give, the windows cover the
      data once, in order, and the loop ends, for a known version. For another
      the length is 0, and a round that leaves the position and the length as
      they were does so for ever: there is no result. */
  method EncryptLoop(data: Text8, charmap: array<Char8>, finalPass: Text8, seed: Text8, version: int)
      returns (r: Option<Text8>)
    requires charmap.Length == 256
    ensures r == if Known(version) || data == [] then Some(Apply(charmap[..], data)) else None
  {
    hide NumberPass, DictionaryLength;
    var encrypted := [];
    var dl := SmallNumber(finalPass, version, 2, 8);
    TwoDigits();
    var i := 0;
    while i < |data|
      invariant 0 <= i <= |data| && if Known(version) then dl >= 11 else dl == 0
      invariant encrypted == Apply(charmap[..], data)[..i]
      invariant data == [] || Known(version) || i < |data|
      decreases |data| - i
    {
      var from, stop := i, Min(|data|, i + dl);
      while i < stop
        invariant from <= i <= stop
        invariant encrypted == Apply(charmap[..], data)[..i]
      {
        encrypted := encrypted + [charmap[Slot(data[i])]];
        i := i + 1;
      }
      i := i - 1;
      var next := NextLength(data, i, finalPass, seed, version);
      i := i + 1;
      if i == from && next == dl {
        return None;
      }
      dl := next;
    }
    assert encrypted == Apply(charmap[..], data);
    r := Some(encrypted);
  }

  /** GXPass.hpp:502-528. The windows differ from those of `encrypt`: the seed
      is the final pass, and the window is read from what is decrypted. */
  method DecryptLoop(data: Text8, charmap: array<Char8>, finalPass: Text8, version: int)
      returns (r: Option<Text8>)
    requires charmap.Length == 256
    ensures r == if Known(version) || data == [] then Some(Apply(charmap[..], data)) else None
  {
    hide NumberPass, DictionaryLength;
    var decrypted := [];
    var dl := SmallNumber(finalPass, version, 2, 8);
    TwoDigits();
    var i := 0;
    while i < |data|
      invariant 0 <= i <= |data| && if Known(version) then dl >= 11 else dl == 0
      invariant decrypted == Apply(charmap[..], data)[..i]
      invariant data == [] || Known(version) || i < |data|
      decreases |data| - i
    {
      var from, stop := i, Min(|data|, i + dl);
      while i < stop
        invariant from <= i <= stop
        invariant decrypted == Apply(charmap[..], data)[..i]
      {
        decrypted := decrypted + [charmap[Slot(data[i])]];
        i := i + 1;
      }
      i := i - 1;
      var next := NextLength(decrypted, i, finalPass, finalPass, version);
      i := i + 1;
      if i == from && next == dl {
        return None;
      }
      dl := next;
    }
    assert decrypted == Apply(charmap[..], data);
    r := Some(decrypted);
  }

  method EncryptWith(data: Text8, key: NCint, finalPass: Text8, origin: Text8, version: int)
      returns (r: Option<Text8>)
    requires WellFormed(key) && Value(key) >= 0
    ensures r == if Known(version) || data == [] then Some(EncipherText(Value(key), data)) else None
  {
    var charmap := EncipherTable(key);
    r := EncryptLoop(data, charmap, finalPass, origin, version);
    assert Apply(charmap[..], data) == EncipherText(Value(key), data);
  }

  method DecryptWith(data: Text8, key: NCint, finalPass: Text8, version: int) returns (r: Option<Text8>)
    requires WellFormed(key) && Value(key) >= 0
    ensures r == if Known(version) || data == [] then Some(DecipherText(Value(key), data)) else None
  {
    var charmap := DecipherTable(key);
    r := DecryptLoop(data, charmap, finalPass, version);
    assert Apply(charmap[..], data) == DecipherText(Value(key), data);
  }

  // --------------------------------------------------- a loop without end

  /** The position and the dictionary length after one round of the loop of
      `encrypt`. */
  function Round(data: Text8, finalPass: Text8, seed: Text8, version: int, i: nat, dl: nat): (next: (nat, nat))
    requires i <= |data|
    ensures next.0 <= |data|
  {
    var stop := Min(|data|, i + dl);
    (stop, DictionaryLength(seed, Window(data, stop - 1, WindowSize(finalPass)), version))
  }

  /** The same after n rounds from the start. */
  function Rounds(data: Text8, finalPass: Text8, seed: Text8, version: int, n: nat): (now: (nat, nat))
    ensures now.0 <= |data|
  {
    if n == 0 then (0, ParseDec(NumberPass(finalPass, version, 2, 8)))
    else
      var (i, dl) := Rounds(data, finalPass, seed, version, n - 1);
      Round(data, finalPass, seed, version, i, dl)
  }

  /** The loop ends if and only if the version is known or there is nothing to
      do: a round of a known version gets on by 11 characters or to the end, and
      all rounds of another stay at the start. */
  lemma LoopEndsIff(data: Text8, finalPass: Text8, seed: Text8, version: int)
    ensures (exists n :: Rounds(data, finalPass, seed, version, n).0 == |data|) <==> Known(version) || data == []
  {
    if Known(version) || data == [] {
      RoundsAdvance(data, finalPass, seed, version, |data|);
    } else {
      forall n
        ensures Rounds(data, finalPass, seed, version, n).0 != |data|
      {
        RoundsStay(data, finalPass, seed, version, n);
      }
    }
  }

  lemma {:induction false} RoundsAdvance(data: Text8, finalPass: Text8, seed: Text8, version: int, n: nat)
    requires Known(version) || data == []
    ensures Rounds(data, finalPass, seed, version, n).0 >= Min(|data|, 11 * n)
    ensures Known(version) ==> Rounds(data, finalPass, seed, version, n).1 >= 11
  {
    hide NumberPass, DictionaryLength;
    if n == 0 {
      FirstLength(finalPass, version);
    } else {
      RoundsAdvance(data, finalPass, seed, version, n - 1);
    }
  }

  lemma {:induction false} RoundsStay(data: Text8, finalPass: Text8, seed: Text8, version: int, n: nat)
    requires !Known(version)
    ensures Rounds(data, finalPass, seed, version, n) == (0, 0)
  {
    hide NumberPass, DictionaryLength;
    if n == 0 {
      FirstLength(finalPass, version);
    } else {
      RoundsStay(data, finalPass, seed, version, n - 1);
    }
  }

  lemma FirstLength(finalPass: Text8, version: int)
    ensures
      var dl := ParseDec(NumberPass(finalPass, version, 2, 8));
      if Known(version) then 11 <= dl <= 99 else dl == 0
  {
    ZeroFreeText(NumberPass(finalPass, version, 2, 8));
    TwoDigits();
  }

  // ------------------------------------------------------- the whole cipher

  /** GXPass.hpp:455-494. None stands for a call that never returns. */
  method Encrypt(data: Text8, passHash: Text8, version: int, crossDevices: bool, device: Text8, charset: Text8)
      returns (r: Option<Text8>)
    requires charset != []
    ensures r == if Known(version) || data == []
      then Some(EncipherText(KeyNumber(DerivedPass(data, passHash, version, crossDevices, device, charset)), data))
      else None
  {
    var dataHash := Pass(data, version, DATA_HASH_LEN, 16, charset);
    var origin := OriginText(device, crossDevices, passHash, dataHash);
    var finalPass := Pass(origin, version, PASS_LEN, 256, charset);
    var key := Key(finalPass);
    r := EncryptWith(data, key, finalPass, origin, version);
  }

  /** GXPass.hpp:495-529. */
  method Decrypt(data: Text8, finalPass: Text8, version: int) returns (r: Option<Text8>)
    ensures r == if Known(version) || data == [] then Some(DecipherText(KeyNumber(finalPass), data)) else None
  {
    var key := Key(finalPass);
    r := DecryptWith(data, key, finalPass, version);
  }

  /** Decrypting with the pass that encryption derived gives the data back, for
      every byte string, password hash and version with which encryption ends. */
  method EncryptThenDecrypt(data: Text8, passHash: Text8, version: int, crossDevices: bool, device: Text8,
                            charset: Text8) returns (r: Option<Text8>)
    requires charset != []
    ensures r == if Known(version) || data == [] then Some(data) else None
  {
    var encrypted := Encrypt(data, passHash, version, crossDevices, device, charset);
    if encrypted.None? {
      return None;
    }
    var finalPass := DerivedPass(data, passHash, version, crossDevices, device, charset);
    r := Decrypt(encrypted.value, finalPass, version);
    DecipherTextInverts(KeyNumber(finalPass), data);
  }
}
