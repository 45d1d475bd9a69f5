/**
 The code points that hex escapes stand for (`src/lib/cssValidate.ts`): hexadecimal
 numerals and UTF-16.
 */
module CssCodePoints {
  import opened Texts
  import opened CssEscapes
  import opened CssSpellings

  // ---------------------------------------------------------------------
  // Numerals
  // ---------------------------------------------------------------------

  const DIGITS: Text := Lit("0123456789abcdef")

  /** `n.toString(16)` */
  function HexNumeral(n: nat): (t: Text)
    ensures t != []
  {
    if n < 16 then [DIGITS[n]] else HexNumeral(n / 16) + [DIGITS[n % 16]]
  }

  function Zeros(n: nat): (t: Text)
    ensures |t| == n && forall i :: 0 <= i < n ==> t[i] == 0x30
  {
    seq(n, _ => 0x30)
  }

  ghost predicate AllHexDigits(t: Text) { forall k :: 0 <= k < |t| ==> IsHexDigit(t[k]) }

  /** The numeral of `n` in either case, behind any zeros. */
  ghost predicate IsHexOf(digits: Text, n: nat) {
    exists zeros: nat :: Lower(digits) == Zeros(zeros) + HexNumeral(n)
  }

  lemma DigitIs(u: Unit)
    requires IsHexDigit(u)
    ensures DIGITS[HexDigitValue(u)] == LowerUnit(u)
  {}

  lemma DigitOf(u: Unit, v: nat)
    requires v < 16 && LowerUnit(u) == DIGITS[v]
    ensures IsHexDigit(u) && HexDigitValue(u) == v
  {}

  lemma ValueStep(t: Text, u: Unit)
    ensures AllHexDigits(t + [u]) <==> AllHexDigits(t) && IsHexDigit(u)
    ensures AllHexDigits(t) && IsHexDigit(u) ==>
              AllHexDigits(t + [u]) && HexValue(t + [u]) == 16 * HexValue(t) + HexDigitValue(u)
  {
    hide IsHexDigit;
    assert (t + [u])[..|t|] == t && (t + [u])[|t|] == u;
    if AllHexDigits(t + [u]) {
      forall k | 0 <= k < |t| ensures IsHexDigit(t[k]) { assert (t + [u])[k] == t[k]; }
    }
  }

  lemma NoDigits()
    ensures AllHexDigits([]) && HexValue([]) == 0
  {}

  lemma NumeralStep(n: nat)
    ensures HexNumeral(n) == (if n < 16 then [] else HexNumeral(n / 16)) + [DIGITS[n % 16]]
  {
    hide DIGITS;
  }

  lemma LowerEnd(front: Text, u: Unit)
    ensures Lower(front + [u]) == Lower(front) + [LowerUnit(u)]
  {
    hide LowerUnit;
  }

  lemma {:induction false} ZerosAreNothing(digits: Text)
    requires Lower(digits) == Zeros(|digits|)
    ensures AllHexDigits(digits) && HexValue(digits) == 0
  {
    if digits == [] {
      NoDigits();
    } else {
      var front, u := digits[..|digits| - 1], digits[|digits| - 1];
      assert digits == front + [u];
      assert Lower(digits)[|front|] == LowerUnit(u) == 0x30;
      assert Lower(front) == Zeros(|front|);
      ZerosAreNothing(front);
      DigitOf(u, 0) by { assert DIGITS[0] == 0x30; }
      hide *;
      ValueStep(front, u);
    }
  }

  lemma EndsAlike(a: Text, u: Unit, b: Text, v: Unit)
    requires a + [u] == b + [v]
    ensures a == b && u == v
  {
    assert (a + [u])[|a|] == u && (b + [v])[|b|] == v && |a| == |b|;
    assert a == (a + [u])[..|a|];
  }

  /** A written numeral, taken apart at its last digit. */
  lemma NumeralSplits(digits: Text, zeros: nat, n: nat)
    requires Lower(digits) == Zeros(zeros) + HexNumeral(n)
    ensures digits != []
    ensures var front, u := digits[..|digits| - 1], digits[|digits| - 1];
            && Lower(front) == Zeros(zeros) + (if n < 16 then [] else HexNumeral(n / 16))
            && n % 16 < |DIGITS| && LowerUnit(u) == DIGITS[n % 16]
  {
    NumeralStep(n);
    LastDigitIs(n);
    LowerLength(digits);
    hide *;
    assert digits != [];
    var front, u := digits[..|digits| - 1], digits[|digits| - 1];
    var head := if n < 16 then [] else HexNumeral(n / 16);
    assert digits == front + [u];
    LowerEnd(front, u);
    ApartAgain(Zeros(zeros), head, [DIGITS[n % 16]]);
    EndsAlike(Lower(front), LowerUnit(u), Zeros(zeros) + head, DIGITS[n % 16]);
  }

  lemma LowerLength(t: Text)
    ensures |Lower(t)| == |t|
  {}

  lemma {:induction false} NumeralIsRead(digits: Text, zeros: nat, n: nat)
    requires Lower(digits) == Zeros(zeros) + HexNumeral(n)
    ensures AllHexDigits(digits) && HexValue(digits) == n
    decreases |digits|
  {
    hide *;
    NumeralSplits(digits, zeros, n);
    var front, u := digits[..|digits| - 1], digits[|digits| - 1];
    DigitOf(u, n % 16);
    if n < 16 {
      NothingBehind(Zeros(zeros));
      LowerLength(front);
      ZerosAreNothing(front);
    } else {
      NumeralIsRead(front, zeros, n / 16);
    }
    ValueStep(front, u);
    assert digits == front + [u];
  }

  lemma NothingBehind(t: Text)
    ensures t + [] == t && [] + t == t
  {}

  lemma LastDigitIs(n: nat)
    ensures n % 16 < |DIGITS|
  {}

  /** Hex digits and their value, taken apart at the last digit. */
  lemma ValueSplits(digits: Text)
    requires digits != [] && AllHexDigits(digits)
    ensures var front, u, n := digits[..|digits| - 1], digits[|digits| - 1], HexValue(digits);
            && AllHexDigits(front) && HexValue(front) == n / 16
            && Lower(digits) == Lower(front) + [DIGITS[n % 16]]
  {
    var front, u := digits[..|digits| - 1], digits[|digits| - 1];
    assert digits == front + [u];
    ValueStep(front, u);
    LowerEnd(front, u);
    DigitIs(u);
    hide HexValue, HexDigitValue, Lower, LowerUnit, DIGITS, IsHexDigit;
    var n := HexValue(digits);
    assert n == 16 * HexValue(front) + HexDigitValue(u);
  }

  lemma FirstDigit(n: nat)
    requires n / 16 == 0
    ensures [DIGITS[n % 16]] == Zeros(0) + HexNumeral(n)
  {
    assert n < 16 && n % 16 == n;
    LowerNothing();
    hide DIGITS, Lower;
  }

  /** One digit more behind a numeral; the zero alone becomes one of the zeros. */
  lemma NextDigit(zeros: nat, n: nat)
    ensures Zeros(zeros) + HexNumeral(n / 16) + [DIGITS[n % 16]]
         == Zeros(if n < 16 then zeros + 1 else zeros) + HexNumeral(n)
  {
    NumeralStep(n);
    ZeroNumeral();
    OneMoreZero(zeros);
    LastDigitIs(n);
    NothingBehind([DIGITS[n % 16]]);
    hide HexNumeral, DIGITS, Zeros;
    if n >= 16 { ApartAgain(Zeros(zeros), HexNumeral(n / 16), [DIGITS[n % 16]]); }
  }

  lemma {:induction false} ReadIsNumeral(digits: Text) returns (zeros: nat)
    requires digits != [] && AllHexDigits(digits)
    ensures Lower(digits) == Zeros(zeros) + HexNumeral(HexValue(digits))
    decreases |digits|
  {
    ValueSplits(digits);
    var front, n := digits[..|digits| - 1], HexValue(digits);
    NoDigits();
    LowerNothing();
    LastDigitIs(n);
    NothingBehind([DIGITS[n % 16]]);
    hide *;
    if front == [] {
      FirstDigit(n);
      zeros := 0;
    } else {
      var before := ReadIsNumeral(front);
      NextDigit(before, n);
      zeros := if n < 16 then before + 1 else before;
    }
  }

  lemma OneMoreZero(zeros: nat)
    ensures Zeros(zeros) + [0x30] == Zeros(zeros + 1)
  {}

  lemma LowerNothing()
    ensures Lower([]) == [] && Zeros(0) == [] && forall t: Text :: [] + t == t
  {}

  lemma ZeroNumeral()
    ensures HexNumeral(0) == [0x30]
  {}

  lemma ApartAgain(a: Text, b: Text, c: Text)
    ensures a + b + c == a + (b + c)
  {}

  /** Hex digits are read as the number whose numeral they are, and every run of them
      is the numeral of one. */
  lemma HexReads(digits: Text, n: nat)
    ensures digits != [] && AllHexDigits(digits) && HexValue(digits) == n <==> IsHexOf(digits, n)
  {
    hide HexNumeral, DIGITS, HexValue, HexDigitValue;
    if zeros: nat :| Lower(digits) == Zeros(zeros) + HexNumeral(n) {
      NumeralIsRead(digits, zeros, n);
    }
    if digits != [] && AllHexDigits(digits) && HexValue(digits) == n {
      var zeros := ReadIsNumeral(digits);
    }
  }

  // ---------------------------------------------------------------------
  // UTF-16
  // ---------------------------------------------------------------------

  /** Any code point but NUL and the surrogates. */
  predicate IsCharacter(n: nat) { 0 < n <= 0x10FFFF && !(0xD800 <= n < 0xE000) }

  /** One unit for itself, or a high and a low surrogate for what they encode. */
  ghost predicate Encodes(t: Text, n: nat) {
    if n < 0x10000 then t == [n]
    else
      && |t| == 2 && 0xD800 <= t[0] < 0xDC00 && 0xDC00 <= t[1] < 0xE000
      && 0x10000 + 0x400 * (t[0] as int - 0xD800) + (t[1] as int - 0xDC00) == n
  }

  lemma CodePointExactly(n: nat)
    ensures IsCharacter(n) ==> Encodes(CodePointText(n), n)
    ensures !IsCharacter(n) ==> CodePointText(n) == [0xFFFD]
  {}

  /** A hex escape means the character whose numeral it holds, in UTF-16; U+FFFD where
      that is none. */
  lemma HexEscapeMeans(digits: Text, blank: Option<Unit>, n: nat)
    requires IsHexOf(digits, n)
    ensures AllHexDigits(digits)
    ensures IsCharacter(n) ==> Encodes(PieceMeaning(Hex(digits, blank)), n)
    ensures !IsCharacter(n) ==> PieceMeaning(Hex(digits, blank)) == [0xFFFD]
  {
    hide HexValue, CodePointText, IsHexOf, Encodes, IsCharacter;
    HexReads(digits, n);
    CodePointExactly(n);
  }
}
