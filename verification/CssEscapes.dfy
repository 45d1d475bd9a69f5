/**
 CSS escape decoding: one pass, its index map back to the source, and the
 capped iteration (`src/lib/cssValidate.ts`). The escape rules are those of
 section 4.3.7 of CSS Syntax Module Level 3.
 */
module CssEscapes {
  import opened Texts

  const BACKSLASH: Unit := 0x5C
  const REPLACEMENT_CHARACTER: Unit := 0xFFFD
  const MAX_PASSES: nat := 8

  /** The one blank a hex escape may swallow. */
  predicate IsEscapeBlank(u: Unit) { u == 0x20 || u == 0x09 || u == 0x0A || u == 0x0C || u == 0x0D }

  predicate IsCssNewline(u: Unit) { u == 0x0A || u == 0x0C || u == 0x0D }

  predicate IsHigh(u: Unit) { 0xD800 <= u < 0xDC00 }

  predicate IsLow(u: Unit) { 0xDC00 <= u < 0xE000 }

  /** How many hex digits start `t`, counting at most `limit`. */
  function HexRun(t: Text, limit: nat): (n: nat)
    ensures n <= limit && n <= |t|
    ensures forall k :: 0 <= k < n ==> IsHexDigit(t[k])
    ensures n < limit && n < |t| ==> !IsHexDigit(t[n])
  {
    if limit == 0 || t == [] || !IsHexDigit(t[0]) then 0 else 1 + HexRun(t[1..], limit - 1)
  }

  function HexDigitValue(u: Unit): (v: nat)
    requires IsHexDigit(u)
    ensures v < 16
  {
    if u <= 0x39 then u - 0x30 else if u <= 0x46 then u - 0x37 else u - 0x57
  }

  /** `parseInt(digits, 16)` */
  function HexValue(digits: Text): nat
    requires forall k :: 0 <= k < |digits| ==> IsHexDigit(digits[k])
  {
    if digits == [] then 0
    else 16 * HexValue(digits[..|digits| - 1]) + HexDigitValue(digits[|digits| - 1])
  }

  /** The length of the escape at the front of `t`, 0 when there is none. */
  function EscapeLength(t: Text): (n: nat)
    ensures n <= |t|
    ensures n > 0 ==> n >= 2 && t[0] == BACKSLASH
  {
    if |t| < 2 || t[0] != BACKSLASH then 0 else
      var d := HexRun(t[1..], 6);
      if d == 0 then if IsCssNewline(t[1]) then 0 else 2
      else if 1 + d < |t| && IsEscapeBlank(t[1 + d]) then d + 2
      else d + 1
  }

  /** A code point that a hex escape may stand for; others read as U+FFFD. */
  predicate IsEscapable(cp: nat) { 0 < cp <= 0x10FFFF && !(0xD800 <= cp <= 0xDFFF) }

  /** `String.fromCodePoint(cp)` as UTF-16, or U+FFFD. */
  function CodePointText(cp: nat): (t: Text)
    ensures |t| == 1 || |t| == 2
    ensures |t| == 2 <==> 0x10000 <= cp <= 0x10FFFF
    ensures |t| == 2 ==> IsHigh(t[0]) && IsLow(t[1])
  {
    if !IsEscapable(cp) then [REPLACEMENT_CHARACTER]
    else if cp < 0x10000 then [cp]
    else [0xD800 + (cp - 0x10000) / 0x400, 0xDC00 + (cp - 0x10000) % 0x400]
  }

  /** What the escape at the front of `t` decodes to. */
  function Replacement(t: Text): (r: Text)
    requires EscapeLength(t) > 0
    ensures |r| == 1 || (|r| == 2 && IsHigh(r[0]) && IsLow(r[1]))
  {
    var d := HexRun(t[1..], 6);
    if d == 0 then [t[1]] else CodePointText(HexValue(t[1..1 + d]))
  }

  // ---------------------------------------------------------------------
  // One pass
  // ---------------------------------------------------------------------

  /** The text after one decode pass. */
  function DecodedText(t: Text): Text {
    var n := EscapeLength(t);
    if t == [] then []
    else if n > 0 then Replacement(t) + DecodedText(t[n..])
    else [t[0]] + DecodedText(t[1..])
  }

  /** The index map after one decode pass: every unit keeps the origin of its escape. */
  function DecodedMap(t: Text, map_: seq<nat>): (m: seq<nat>)
    requires |map_| == |t|
    ensures |m| == |DecodedText(t)|
    decreases |t|
  {
    var n := EscapeLength(t);
    if t == [] then []
    else if n > 0 then seq(|Replacement(t)|, _ => map_[0]) + DecodedMap(t[n..], map_[n..])
    else [map_[0]] + DecodedMap(t[1..], map_[1..])
  }

  /** A pass, told at the front of the text. */
  lemma DecodeFront(t: Text, m: seq<nat>)
    requires t != [] && |m| == |t|
    ensures var n := EscapeLength(t);
            if n > 0 then
              && DecodedText(t) == Replacement(t) + DecodedText(t[n..])
              && DecodedMap(t, m) == seq(|Replacement(t)|, _ => m[0]) + DecodedMap(t[n..], m[n..])
            else
              && DecodedText(t) == [t[0]] + DecodedText(t[1..])
              && DecodedMap(t, m) == [m[0]] + DecodedMap(t[1..], m[1..])
  {
    hide EscapeLength, Replacement;
  }

  ghost predicate HasEscape(t: Text) {
    exists i :: 0 <= i < |t| && EscapeLength(t[i..]) > 0
  }

  /** Hex numerals are smaller than the power of sixteen of their length. */
  lemma {:induction false} HexValueBound(digits: Text)
    requires |digits| <= 4
    requires forall k :: 0 <= k < |digits| ==> IsHexDigit(digits[k])
    ensures |digits| == 0 ==> HexValue(digits) == 0
    ensures |digits| == 1 ==> HexValue(digits) < 0x10
    ensures |digits| == 2 ==> HexValue(digits) < 0x100
    ensures |digits| == 3 ==> HexValue(digits) < 0x1000
    ensures |digits| == 4 ==> HexValue(digits) < 0x10000
  {
    if digits != [] { HexValueBound(digits[..|digits| - 1]); }
  }

  /** No escape decodes to more than it was: the replacement is strictly shorter. */
  lemma ReplacementIsShorter(t: Text)
    requires EscapeLength(t) > 0
    ensures |Replacement(t)| < EscapeLength(t)
  {
    hide HexRun, HexValue, CodePointText;
    var d := HexRun(t[1..], 6);
    if 0 < d <= 4 {
      var digits := t[1..1 + d];
      forall k | 0 <= k < d ensures IsHexDigit(digits[k]) {
        assert digits[k] == t[1..][k];
      }
      HexValueBound(digits);
    }
  }

  lemma EscapeIsAheadOrLater(t: Text)
    requires t != []
    ensures EscapeLength(t) > 0 ==> HasEscape(t)
    ensures EscapeLength(t) == 0 ==> (HasEscape(t) <==> HasEscape(t[1..]))
  {
    hide EscapeLength;
    assert t[0..] == t;
    assert forall i :: 1 <= i < |t| ==> t[i..] == t[1..][i - 1..];
  }

  /** A pass strictly shortens the text exactly when there is an escape in it,
      and changes nothing, the index map included, when there is none. */
  lemma {:induction false} PassMakesProgress(t: Text, map_: seq<nat>)
    requires |map_| == |t|
    ensures HasEscape(t) <==> |DecodedText(t)| < |t|
    ensures HasEscape(t) <==> DecodedText(t) != t
    ensures !HasEscape(t) ==> DecodedMap(t, map_) == map_
    decreases |t|
  {
    hide EscapeLength, Replacement, HasEscape;
    if t == [] {
      EmptyHasNoEscape();
      return;
    }
    EscapeIsAheadOrLater(t);
    var n := EscapeLength(t);
    if n > 0 {
      ReplacementIsShorter(t);
      DecodeNeverGrows(t[n..]);
    } else {
      PassMakesProgress(t[1..], map_[1..]);
      assert t == [t[0]] + t[1..];
      assert map_ == [map_[0]] + map_[1..];
    }
  }

  lemma EmptyHasNoEscape()
    ensures !HasEscape([])
  {}

  lemma {:induction false} DecodeNeverGrows(t: Text)
    ensures |DecodedText(t)| <= |t|
    decreases |t|
  {
    if t == [] { return; }
    var n := EscapeLength(t);
    if n > 0 {
      ReplacementIsShorter(t);
      DecodeNeverGrows(t[n..]);
    } else {
      DecodeNeverGrows(t[1..]);
    }
  }

  // ---------------------------------------------------------------------
  // The index map
  // ---------------------------------------------------------------------

  /** From unit `k` to the next the map moves on, or the two are the halves of
      one astral code point. */
  ghost predicate MovesOn(t: Text, m: seq<nat>, k: int) {
    && 0 <= k && k + 1 < |m| && k + 1 < |t|
    && (m[k] < m[k + 1] || (m[k] == m[k + 1] && IsHigh(t[k]) && IsLow(t[k + 1])))
  }

  /** The invariant every pass keeps. The map points inside the source, never
      goes back, and stands still only between the two halves of one astral
      code point. */
  ghost predicate Aligned(t: Text, m: seq<nat>, sourceLength: nat) {
    && |m| == |t|
    && (forall k :: 0 <= k < |m| ==> m[k] < sourceLength)
    && (forall k :: 0 <= k < |m| - 1 ==> MovesOn(t, m, k))
  }

  lemma {:induction false} AlignedOrder(t: Text, m: seq<nat>, n: nat, j: nat, k: nat)
    requires Aligned(t, m, n) && j <= k < |t|
    ensures m[j] <= m[k]
    ensures j < k && !IsLow(t[k]) ==> m[j] < m[k]
    decreases k - j
  {
    if j < k {
      assert MovesOn(t, m, k - 1);
      AlignedOrder(t, m, n, j, k - 1);
    }
  }

  lemma AlignedSuffix(t: Text, m: seq<nat>, n: nat, from: nat)
    requires Aligned(t, m, n) && from <= |t|
    ensures Aligned(t[from..], m[from..], n)
  {
    forall k | 0 <= k < |m| - from - 1 ensures MovesOn(t[from..], m[from..], k) {
      assert MovesOn(t, m, from + k);
    }
  }

  lemma AlignedAppend(head: Text, headMap: seq<nat>, rest: Text, restMap: seq<nat>, n: nat)
    requires Aligned(head, headMap, n) && Aligned(rest, restMap, n)
    requires head != [] && rest != [] ==>
               var l := |head| - 1;
               headMap[l] < restMap[0] || (headMap[l] == restMap[0] && IsHigh(head[l]) && IsLow(rest[0]))
    ensures Aligned(head + rest, headMap + restMap, n)
  {
    forall k | 0 <= k < |head| + |rest| - 1 ensures MovesOn(head + rest, headMap + restMap, k) {
      if k + 1 < |head| {
        assert MovesOn(head, headMap, k);
      } else if k >= |head| {
        assert MovesOn(rest, restMap, k - |head|);
      }
    }
  }

  /** One pass keeps the index-map invariant. */
  lemma {:induction false} PassKeepsAligned(t: Text, m: seq<nat>, n: nat)
    requires Aligned(t, m, n)
    ensures Aligned(DecodedText(t), DecodedMap(t, m), n)
    ensures t != [] ==> DecodedMap(t, m) != [] && DecodedMap(t, m)[0] == m[0]
    ensures t != [] && EscapeLength(t) == 0 ==> DecodedText(t)[0] == t[0]
    decreases |t|
  {
    hide *;
    AlignedLength(t, m, n);
    if t == [] {
      NothingAligned(n);
      return;
    }
    var e := EscapeLength(t);
    var step := if e > 0 then e else 1;
    var head := if e > 0 then Replacement(t) else [t[0]];
    var rest, restMap := DecodedText(t[step..]), DecodedMap(t[step..], m[step..]);
    DecodeFront(t, m);
    OneOrigin(m[0]);
    AlignedSuffix(t, m, n, step);
    PassKeepsAligned(t[step..], m[step..], n);
    if step < |t| { JunctionAligned(t, m, n, step); } else { NothingDecodes(t[step..]); }
    HeadAligned(head, m[0], n);
    AlignedAppend(head, seq(|head|, _ => m[0]), rest, restMap, n);
  }

  lemma AlignedLength(t: Text, m: seq<nat>, n: nat)
    requires Aligned(t, m, n)
    ensures |m| == |t| && (t != [] ==> m[0] < n)
  {}

  lemma NothingAligned(n: nat)
    ensures Aligned(DecodedText([]), DecodedMap([], []), n)
  {}

  lemma NothingDecodes(t: Text)
    requires t == []
    ensures DecodedText(t) == []
  {}

  lemma OneOrigin(at: nat)
    ensures seq(1, _ => at) == [at]
  {}

  /** A token of one unit, or of the two halves of a code point. */
  lemma HeadAligned(head: Text, at: nat, n: nat)
    requires |head| == 1 || (|head| == 2 && IsHigh(head[0]) && IsLow(head[1]))
    requires at < n
    ensures Aligned(head, seq(|head|, _ => at), n)
  {
    var m := seq(|head|, _ => at);
    forall k | 0 <= k < |head| - 1 ensures MovesOn(head, m, k) {}
  }

  /** Where one decoded token meets the next, the map moves on, or both are the
      halves of one code point already decoded. */
  lemma JunctionAligned(t: Text, m: seq<nat>, n: nat, step: nat)
    requires Aligned(t, m, n) && 0 < step < |t|
    requires if EscapeLength(t) > 0 then step == EscapeLength(t) else step == 1
    ensures m[0] < m[step] || (step == 1 && EscapeLength(t) == 0 && m[0] == m[1] && IsHigh(t[0]) && IsLow(t[1])
                               && EscapeLength(t[1..]) == 0)
  {
    hide HexRun;
    assert MovesOn(t, m, 0);
    AlignedOrder(t, m, n, 1, step);
  }

  // ---------------------------------------------------------------------
  // The capped iteration
  // ---------------------------------------------------------------------

  datatype Decoded = Decoded(text: Text, map_: seq<nat>)

  function Start(source: Text): Decoded {
    Decoded(source, seq(|source|, i => i))
  }

  /** The state after `passes` decode passes. */
  function Passes(d: Decoded, passes: nat): (r: Decoded)
    requires |d.map_| == |d.text|
    ensures |r.map_| == |r.text|
    decreases passes
  {
    if passes == 0 then d
    else Passes(Decoded(DecodedText(d.text), DecodedMap(d.text, d.map_)), passes - 1)
  }

  /** What `decodeToFixedPoint` returns. */
  function FixedPoint(source: Text): (r: Decoded)
    ensures |r.map_| == |r.text|
  {
    Passes(Start(source), MAX_PASSES)
  }

  /** How many passes it takes until no escape is left. */
  ghost function PassesNeeded(t: Text): nat
    decreases |t|
  {
    if HasEscape(t) then
      PassMakesProgress(t, seq(|t|, i => i));
      1 + PassesNeeded(DecodedText(t))
    else 0
  }

  lemma PassesStep(d: Decoded, passes: nat)
    requires |d.map_| == |d.text| && passes > 0
    ensures Passes(d, passes) == Passes(Decoded(DecodedText(d.text), DecodedMap(d.text, d.map_)), passes - 1)
  {}

  lemma {:induction false} PassesSettle(d: Decoded, passes: nat)
    requires |d.map_| == |d.text| && !HasEscape(d.text)
    ensures Passes(d, passes) == d
    decreases passes
  {
    hide *;
    if passes == 0 {
      NoPass(d);
    } else {
      PassesStep(d, passes);
      PassMakesProgress(d.text, d.map_);
      PassesSettle(d, passes - 1);
    }
  }

  lemma NoPass(d: Decoded)
    requires |d.map_| == |d.text|
    ensures Passes(d, 0) == d
  {}

  /** Passing `passes` times is passing only as often as needed, and leaves no
      escape exactly when that was enough. */
  lemma {:induction false} PassesReachEnd(d: Decoded, passes: nat)
    requires |d.map_| == |d.text|
    ensures var n := PassesNeeded(d.text);
            && Passes(d, passes) == Passes(d, if passes < n then passes else n)
            && (HasEscape(Passes(d, passes).text) <==> passes < n)
    decreases passes
  {
    hide DecodedText, DecodedMap, HasEscape;
    if !HasEscape(d.text) {
      PassesSettle(d, passes);
    } else if passes > 0 {
      PassesReachEnd(Decoded(DecodedText(d.text), DecodedMap(d.text, d.map_)), passes - 1);
    }
  }

  /** `decodeToFixedPoint` reaches a fixed point exactly when at most eight
      passes are needed, and then it is the end of the unbounded iteration. */
  lemma FixedPointReached(source: Text)
    ensures var n := PassesNeeded(source);
            && FixedPoint(source) == Passes(Start(source), if n <= 8 then n else 8)
            && (!HasEscape(FixedPoint(source).text) <==> n <= 8)
  {
    PassesReachEnd(Start(source), MAX_PASSES);
  }

  lemma {:induction false} PassesKeepAligned(d: Decoded, n: nat, passes: nat)
    requires Aligned(d.text, d.map_, n)
    ensures Aligned(Passes(d, passes).text, Passes(d, passes).map_, n)
    decreases passes
  {
    if passes > 0 {
      PassKeepsAligned(d.text, d.map_, n);
      PassesKeepAligned(Decoded(DecodedText(d.text), DecodedMap(d.text, d.map_)), n, passes - 1);
    }
  }

  /** The index map of the decoded sheet is aligned with the source. */
  lemma FixedPointAligned(source: Text)
    ensures Aligned(FixedPoint(source).text, FixedPoint(source).map_, |source|)
  {
    PassesKeepAligned(Start(source), |source|, MAX_PASSES);
  }

  // ---------------------------------------------------------------------
  // The cap is real: a nested chain that outlasts it
  // ---------------------------------------------------------------------

  /** `\5c 5c ... 5c 40 ` with `depth` copies of `5c `. */
  function Chain(depth: nat): Text { [BACKSLASH] + ChainTail(depth) }

  function ChainTail(depth: nat): (t: Text)
    ensures BACKSLASH !in t
    ensures |t| >= 3 && IsHexDigit(t[0])
  {
    if depth == 0 then [0x34, 0x30, 0x20] else [0x35, 0x63, 0x20] + ChainTail(depth - 1)
  }

  lemma NoBackslashNoEscape(t: Text)
    requires BACKSLASH !in t
    ensures !HasEscape(t) && DecodedText(t) == t
  {
    forall i | 0 <= i < |t| ensures EscapeLength(t[i..]) == 0 {
      assert t[i..][0] == t[i] && t[i] in t;
    }
    PassMakesProgress(t, seq(|t|, i => i));
  }

  /** A hex escape of two digits and a blank. */
  lemma TwoDigitEscape(a: Unit, b: Unit, rest: Text)
    requires IsHexDigit(a) && IsHexDigit(b)
    ensures var t := [BACKSLASH, a, b, 0x20] + rest;
            EscapeLength(t) == 4 && Replacement(t) == CodePointText(16 * HexDigitValue(a) + HexDigitValue(b))
  {
    var t := [BACKSLASH, a, b, 0x20] + rest;
    assert HexRun(t[1..], 6) == 2 by {
      hide HexRun;
      assert !IsHexDigit(t[1..][2]) && IsHexDigit(t[1..][1]) && IsHexDigit(t[1..][0]);
    }
    hide HexRun, CodePointText, HexDigitValue;
    var digits := t[1..3];
    assert digits == [a, b] && digits[..1] == [a] && digits[..1][..0] == [];
    assert HexValue(digits[..1]) == HexDigitValue(a);
    assert HexValue(digits) == 16 * HexDigitValue(a) + HexDigitValue(b);
  }

  /** A pass over one such escape and text without a backslash. */
  lemma TwoDigitsDecode(a: Unit, b: Unit, u: Unit, rest: Text)
    requires IsHexDigit(a) && IsHexDigit(b) && BACKSLASH !in rest
    requires CodePointText(16 * HexDigitValue(a) + HexDigitValue(b)) == [u]
    ensures DecodedText([BACKSLASH, a, b, 0x20] + rest) == [u] + rest
  {
    TwoDigitEscape(a, b, rest);
    NoBackslashNoEscape(rest);
    hide EscapeLength, Replacement, CodePointText, HexDigitValue;
    var t := [BACKSLASH, a, b, 0x20] + rest;
    assert t[4..] == rest;
  }

  /** Each pass peels exactly one level off the chain, whatever follows it. */
  lemma ChainPeels(depth: nat, rest: Text)
    requires depth > 0 && BACKSLASH !in rest
    ensures DecodedText(Chain(depth) + rest) == Chain(depth - 1) + rest
  {
    FiveCIsBackslash();
    hide *;
    var tail := ChainTail(depth - 1) + rest;
    ChainText(depth, rest);
    TwoDigitsDecode(0x35, 0x63, BACKSLASH, tail);
  }

  lemma FiveCIsBackslash()
    ensures IsHexDigit(0x35) && IsHexDigit(0x63)
    ensures CodePointText(16 * HexDigitValue(0x35) + HexDigitValue(0x63)) == [BACKSLASH]
  {}

  lemma ChainText(depth: nat, rest: Text)
    requires depth > 0 && BACKSLASH !in rest
    ensures BACKSLASH !in ChainTail(depth - 1) + rest
    ensures Chain(depth) + rest == [BACKSLASH, 0x35, 0x63, 0x20] + (ChainTail(depth - 1) + rest)
    ensures Chain(depth - 1) + rest == [BACKSLASH] + (ChainTail(depth - 1) + rest)
  {
    var tail := ChainTail(depth - 1);
    assert ChainTail(depth) == [0x35, 0x63, 0x20] + tail;
    assert Chain(depth - 1) == [BACKSLASH] + tail;
    hide ChainTail;
    assert Chain(depth) == [BACKSLASH, 0x35, 0x63, 0x20] + tail;
  }

  lemma {:induction false} ChainOutlastsCap(depth: nat, rest: Text, passes: nat, m: seq<nat>)
    requires passes <= depth && BACKSLASH !in rest && |m| == |Chain(depth) + rest|
    ensures Passes(Decoded(Chain(depth) + rest, m), passes).text == Chain(depth - passes) + rest
    decreases passes
  {
    hide DecodedText, DecodedMap, Chain;
    if passes > 0 {
      ChainPeels(depth, rest);
      ChainOutlastsCap(depth - 1, rest, passes - 1, DecodedMap(Chain(depth) + rest, m));
    }
  }

  /** Eight levels of nesting are one too many: the decoded text still holds an escape. */
  lemma NestedChainKeepsEscape(depth: nat, rest: Text)
    requires depth >= 8 && BACKSLASH !in rest
    ensures FixedPoint(Chain(depth) + rest).text == Chain(depth - 8) + rest
    ensures HasEscape(FixedPoint(Chain(depth) + rest).text)
  {
    hide *;
    ChainStartsEscape(depth - 8, rest);
    var t := Chain(depth) + rest;
    FixedPointIs(t);
    ChainOutlastsCap(depth, rest, 8, Start(t).map_);
  }

  lemma FixedPointIs(source: Text)
    ensures |Start(source).map_| == |source|
    ensures FixedPoint(source) == Passes(Decoded(source, Start(source).map_), 8)
  {
    hide Passes;
  }

  lemma ChainStartsEscape(depth: nat, rest: Text)
    ensures HasEscape(Chain(depth) + rest)
  {
    hide ChainTail, HexRun;
    var t := Chain(depth) + rest;
    assert t[1..][0] == t[1] == ChainTail(depth)[0];
    assert t[0..] == t && EscapeLength(t[0..]) > 0;
  }

  /** Fewer levels are decoded in full. */
  lemma {:induction false} ChainEnds(depth: nat, rest: Text, passes: nat, m: seq<nat>)
    requires passes > depth && BACKSLASH !in rest && |m| == |Chain(depth) + rest|
    ensures Passes(Decoded(Chain(depth) + rest, m), passes).text == [0x40] + rest
    decreases depth
  {
    hide *;
    var next := DecodedMap(Chain(depth) + rest, m);
    PassesStep(Decoded(Chain(depth) + rest, m), passes);
    if depth > 0 {
      ChainPeels(depth, rest);
      ChainEnds(depth - 1, rest, passes - 1, next);
    } else {
      LastLevel(rest);
      NoBackslashNoEscape([0x40] + rest);
      PassesSettle(Decoded([0x40] + rest, next), passes - 1);
    }
  }

  lemma LastLevel(rest: Text)
    requires BACKSLASH !in rest
    ensures DecodedText(Chain(0) + rest) == [0x40] + rest
    ensures BACKSLASH !in [0x40] + rest
  {
    assert Chain(0) == [BACKSLASH, 0x34, 0x30, 0x20];
    FortyIsAt();
    hide Chain, ChainTail, IsHexDigit, HexDigitValue, CodePointText, DecodedText;
    TwoDigitsDecode(0x34, 0x30, 0x40, rest);
  }

  lemma FortyIsAt()
    ensures IsHexDigit(0x34) && IsHexDigit(0x30)
    ensures CodePointText(16 * HexDigitValue(0x34) + HexDigitValue(0x30)) == [0x40]
  {}

  // ---------------------------------------------------------------------
  // The loops of the program
  // ---------------------------------------------------------------------

  /** `CSS_ESCAPE.exec` from `from`: the start of the leftmost escape, or the length. */
  method NextEscape(text: Text, from: nat) returns (i: nat)
    requires from <= |text|
    ensures from <= i <= |text|
    ensures forall k :: from <= k < i ==> EscapeLength(text[k..]) == 0
    ensures i < |text| ==> EscapeLength(text[i..]) > 0
  {
    i := from;
    while i < |text| && EscapeLength(text[i..]) == 0
      invariant from <= i <= |text|
      invariant forall k :: from <= k < i ==> EscapeLength(text[k..]) == 0
    {
      i := i + 1;
    }
  }

  lemma PlainUnfolds(text: Text, map_: seq<nat>, i: nat)
    requires |map_| == |text| && i < |text| && EscapeLength(text[i..]) == 0
    ensures DecodedText(text[i..]) == [text[i]] + DecodedText(text[i + 1..])
    ensures DecodedMap(text[i..], map_[i..]) == [map_[i]] + DecodedMap(text[i + 1..], map_[i + 1..])
  {
    hide EscapeLength, Replacement;
    assert text[i..][1..] == text[i + 1..] && map_[i..][1..] == map_[i + 1..];
  }

  /** Copy `text[from..to]`, which holds no escape, to the output. */
  method CopyPlain(text: Text, map_: seq<nat>, from: nat, to: nat, out0: Text, outMap0: seq<nat>)
    returns (out: Text, outMap: seq<nat>)
    requires |map_| == |text| && from <= to <= |text|
    requires forall k :: from <= k < to ==> EscapeLength(text[k..]) == 0
    ensures out + DecodedText(text[to..]) == out0 + DecodedText(text[from..])
    ensures outMap + DecodedMap(text[to..], map_[to..]) == outMap0 + DecodedMap(text[from..], map_[from..])
  {
    hide EscapeLength, DecodedText, DecodedMap;
    out, outMap := out0, outMap0;
    var i := from;
    while i < to
      invariant from <= i <= to
      invariant out + DecodedText(text[i..]) == out0 + DecodedText(text[from..])
      invariant outMap + DecodedMap(text[i..], map_[i..]) == outMap0 + DecodedMap(text[from..], map_[from..])
    {
      PlainUnfolds(text, map_, i);
      out, outMap := out + [text[i]], outMap + [map_[i]];
      i := i + 1;
    }
  }

  lemma DecodeUnfolds(text: Text, map_: seq<nat>, m: nat, last: nat)
    requires |map_| == |text| && m < |text| && EscapeLength(text[m..]) > 0
    requires last == m + EscapeLength(text[m..]) <= |text|
    ensures DecodedText(text[m..]) == Replacement(text[m..]) + DecodedText(text[last..])
    ensures DecodedMap(text[m..], map_[m..])
         == seq(|Replacement(text[m..])|, _ => map_[m]) + DecodedMap(text[last..], map_[last..])
  {
    hide EscapeLength, Replacement;
    assert text[m..][last - m..] == text[last..] && map_[m..][last - m..] == map_[last..];
  }

  /** Append the replacement of the escape at `m`, unit by unit. */
  method EmitReplacement(text: Text, map_: seq<nat>, m: nat, out0: Text, outMap0: seq<nat>)
    returns (out: Text, outMap: seq<nat>, last: nat)
    requires |map_| == |text| && m < |text| && EscapeLength(text[m..]) > 0
    ensures last == m + EscapeLength(text[m..]) <= |text|
    ensures out + DecodedText(text[last..]) == out0 + DecodedText(text[m..])
    ensures outMap + DecodedMap(text[last..], map_[last..]) == outMap0 + DecodedMap(text[m..], map_[m..])
  {
    hide EscapeLength, Replacement, DecodedText, DecodedMap;
    out, outMap := out0, outMap0;
    var replacement := Replacement(text[m..]);
    var k := 0;
    while k < |replacement|
      invariant 0 <= k <= |replacement|
      invariant out == out0 + replacement[..k]
      invariant outMap == outMap0 + seq(k, _ => map_[m])
    {
      out, outMap := out + [replacement[k]], outMap + [map_[m]];
      k := k + 1;
    }
    assert replacement[..k] == replacement;
    last := m + EscapeLength(text[m..]);
    DecodeUnfolds(text, map_, m, last);
  }

  /** One decode pass, as the program runs it. */
  method DecodeStep(text: Text, map_: seq<nat>) returns (out: Text, outMap: seq<nat>)
    requires |map_| == |text|
    ensures out == DecodedText(text)
    ensures outMap == DecodedMap(text, map_)
  {
    hide EscapeLength, Replacement, DecodedText, DecodedMap;
    out, outMap := [], [];
    var last := 0;
    assert text[0..] == text && map_[0..] == map_;
    var m := NextEscape(text, 0);
    while m < |text|
      invariant last <= m <= |text|
      invariant forall k :: last <= k < m ==> EscapeLength(text[k..]) == 0
      invariant m < |text| ==> EscapeLength(text[m..]) > 0
      invariant out + DecodedText(text[last..]) == DecodedText(text)
      invariant outMap + DecodedMap(text[last..], map_[last..]) == DecodedMap(text, map_)
      decreases |text| - last
    {
      out, outMap := CopyPlain(text, map_, last, m, out, outMap);
      out, outMap, last := EmitReplacement(text, map_, m, out, outMap);
      m := NextEscape(text, last);
    }
    out, outMap := CopyPlain(text, map_, last, |text|, out, outMap);
    assert text[|text|..] == [] && map_[|text|..] == [];
    NothingDecodesToNothing();
  }

  lemma NothingDecodesToNothing()
    ensures DecodedText([]) == [] && DecodedMap([], []) == []
  {}

  /** The capped iteration, as the program runs it. */
  method DecodeToFixedPoint(source: Text) returns (text: Text, map_: seq<nat>)
    ensures Decoded(text, map_) == FixedPoint(source)
  {
    hide DecodedText, DecodedMap, HasEscape;
    text, map_ := source, seq(|source|, i => i);
    var i := 0;
    while i < MAX_PASSES
      invariant 0 <= i <= MAX_PASSES
      invariant |map_| == |text|
      invariant Passes(Decoded(text, map_), MAX_PASSES - i) == FixedPoint(source)
    {
      var nextText, nextMap := DecodeStep(text, map_);
      if nextText == text {
        PassMakesProgress(text, map_);
        PassesSettle(Decoded(text, map_), MAX_PASSES - i);
        return;
      }
      text, map_ := nextText, nextMap;
      i := i + 1;
    }
  }
}
