/**
 * The device identifier (`lib/device-fingerprint.ts`): a 32-bit rolling
 * hash of the browser's traits joined with '|', written in decimal, and kept
 * in local storage once made. The traits themselves (user agent, screen,
 * canvas, ...) are an input.
 */
module DeviceId {
  import opened Common
  import opened Text

  const TwoTo31: int := 0x8000_0000
  const TwoTo32: int := 0x1_0000_0000

  /** A UTF-16 code unit, what `charCodeAt` returns. */
  newtype CodeUnit = x: int | 0 <= x < 0x1_0000

  /** A JavaScript string's code units: one per character of the basic plane, a surrogate pair otherwise. */
  function Utf16(s: string): (u: seq<CodeUnit>)
    ensures |u| >= |s|
  {
    if s == [] then []
    else
      var v := s[0] as int;
      var head: seq<CodeUnit> :=
        if v < 0x1_0000 then [v as CodeUnit]
        else [(0xD800 + (v - 0x1_0000) / 0x400) as CodeUnit, (0xDC00 + (v - 0x1_0000) % 0x400) as CodeUnit];
      head + Utf16(s[1..])
  }

  /** ToInt32 of ECMA-262 (section 7.1.6) on an integer: wrap modulo 2^32 into [-2^31, 2^31). */
  function ToInt32(x: int): (r: int)
    ensures -TwoTo31 <= r < TwoTo31
    ensures (r - x) % TwoTo32 == 0
  {
    var m := x % TwoTo32;
    if m >= TwoTo31 then m - TwoTo32 else m
  }

  /** Integers that agree modulo 2^32 have the same ToInt32. */
  lemma ToInt32Congruent(x: int, y: int)
    requires (x - y) % TwoTo32 == 0
    ensures ToInt32(x) == ToInt32(y)
  {
    var k := (x - y) / TwoTo32;
    assert x == y + k * TwoTo32;
    ModShift(y, k);
  }

  lemma ModShift(y: int, k: int)
    ensures (y + k * TwoTo32) % TwoTo32 == y % TwoTo32
  {
  }

  /** `(hash << 5) - hash + char` then `hash & hash`, on a 32-bit `hash`. */
  function Step(hash: int, c: CodeUnit): int {
    var shifted := ToInt32(ToInt32(hash) * 32);   // `<<` converts with ToInt32 and wraps
    ToInt32(shifted - hash + c as int)            // `& hash` on an exact sum converts with ToInt32
  }

  /** One step multiplies by 31, adds the code unit and wraps to 32 bits. */
  lemma StepIsTimes31(hash: int, c: CodeUnit)
    requires -TwoTo31 <= hash < TwoTo31
    ensures Step(hash, c) == ToInt32(hash * 31 + c as int)
  {
    var shifted := ToInt32(ToInt32(hash) * 32);
    assert ToInt32(hash) == hash;
    assert (shifted - hash * 32) % TwoTo32 == 0;
    var d := shifted - hash * 32;
    assert shifted - hash + c as int == hash * 31 + c as int + d;
    ToInt32Congruent(shifted - hash + c as int, hash * 31 + c as int);
  }

  /** The hash of a prefix: the loop's value after reading `s`. */
  function HashFold(s: seq<CodeUnit>): (h: int)
    ensures -TwoTo31 <= h < TwoTo31
  {
    if s == [] then 0 else Step(HashFold(s[..|s| - 1]), s[|s| - 1])
  }

  /** The reference definition: the polynomial `sum s[i] * 31^(n-1-i)` over unbounded integers. */
  function Poly(s: seq<CodeUnit>): int {
    if s == [] then 0 else Poly(s[..|s| - 1]) * 31 + s[|s| - 1] as int
  }

  /** Multiplying by 31 and adding a code unit keeps two congruent values congruent. */
  lemma Times31Congruent(a: int, b: int, c: int)
    requires (a - b) % TwoTo32 == 0
    ensures ToInt32(a * 31 + c) == ToInt32(b * 31 + c)
  {
    var k := (a - b) / TwoTo32;
    assert a - b == k * TwoTo32;
    assert (a * 31 + c) - (b * 31 + c) == (k * 31) * TwoTo32;
    ModShift(0, k * 31);
    ToInt32Congruent(a * 31 + c, b * 31 + c);
  }

  /** The rolling hash is the polynomial hash, wrapped to a signed 32-bit integer. */
  lemma {:induction false} HashIsWrappedPoly(s: seq<CodeUnit>)
    ensures HashFold(s) == ToInt32(Poly(s))
  {
    if s != [] {
      var p := s[..|s| - 1];
      var c := s[|s| - 1];
      HashIsWrappedPoly(p);
      StepIsTimes31(HashFold(p), c);
      Times31Congruent(HashFold(p), Poly(p), c as int);
    }
  }

  function Abs(x: int): nat {
    if x < 0 then -x else x
  }

  /** `hashCode`: the loop over the code units, then `Math.abs`. */
  method HashCode(s: seq<CodeUnit>) returns (h: nat)
    ensures h == Abs(HashFold(s))
    ensures h <= TwoTo31
  {
    var hash := 0;
    if |s| == 0 {
      return hash;
    }
    var i := 0;
    while i < |s|
      invariant 0 <= i <= |s|
      invariant hash == HashFold(s[..i])
    {
      assert s[..i + 1][..i] == s[..i];
      hash := Step(hash, s[i]);
      i := i + 1;
    }
    assert s[..i] == s;
    h := Abs(hash);
  }

  /** The hash of the empty string is 0, and every hash is in [0, 2^31]. */
  lemma HashRange(s: seq<CodeUnit>)
    ensures Abs(HashFold([])) == 0
    ensures 0 <= Abs(HashFold(s)) <= TwoTo31
  {
  }

  /** `generateDeviceFingerprint` in a browser: the traits joined with '|', hashed, in decimal. */
  method GenerateFingerprint(traits: seq<string>) returns (fp: string)
    requires |traits| >= 1
    ensures fp == Decimal(Abs(HashFold(Utf16(Join(traits, '|')))))
  {
    var h := HashCode(Utf16(Join(traits, '|')));
    fp := Decimal(h);
  }

  /** A fingerprint is a non-empty string of digits that reads back as the hash. */
  lemma FingerprintDigits(traits: seq<string>)
    requires |traits| >= 1
    ensures var h := Abs(HashFold(Utf16(Join(traits, '|'))));
      && Decimal(h) != []
      && (forall i :: 0 <= i < |Decimal(h)| ==> IsDigit(Decimal(h)[i]))
      && DecimalValue(Decimal(h)) == h
  {
    DecimalRoundTrip(Abs(HashFold(Utf16(Join(traits, '|')))));
  }

  /** The device-id storage key. */
  class DeviceStore {
    var stored: Option<string>

    constructor (initial: Option<string>)
      ensures stored == initial
    {
      stored := initial;
    }

    /** A stored id counts only when it is a non-empty string. */
    predicate HasId()
      reads this
    {
      stored.Some? && stored.value != ""
    }

    /** `getDeviceId`: the stored id, or a new fingerprint that is stored and returned. */
    method GetDeviceId(traits: seq<string>) returns (id: string)
      requires |traits| >= 1
      modifies this
      ensures old(HasId()) ==> id == old(stored).value && stored == old(stored)
      ensures !old(HasId()) ==> id == Decimal(Abs(HashFold(Utf16(Join(traits, '|'))))) && stored == Some(id)
      ensures HasId() && stored == Some(id)
    {
      if HasId() {
        return stored.value;
      }
      id := GenerateFingerprint(traits);
      stored := Some(id);
    }
  }

  /** Once an id exists, every later call returns it, whatever the traits are then. */
  method GetDeviceIdTwice(store: DeviceStore, traits1: seq<string>, traits2: seq<string>) returns (first: string, second: string)
    requires |traits1| >= 1 && |traits2| >= 1
    modifies store
    ensures first == second
  {
    first := store.GetDeviceId(traits1);
    second := store.GetDeviceId(traits2);
  }
}
