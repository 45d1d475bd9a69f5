/**
 Where the source of every decoded unit starts and ends, through any number of
 decode passes (`src/lib/cssValidate.ts`).
 */
module CssSpans {
  import opened Texts
  import opened CssEscapes
  import opened CssSpellings

  // ---------------------------------------------------------------------
  // Ends
  // ---------------------------------------------------------------------

  /** The ends after one pass: what an escape decodes to ends where the escape ends. */
  ghost function DecodedEnds(t: Text, ends: seq<nat>): (r: seq<nat>)
    requires |ends| == |t|
    ensures |r| == |DecodedText(t)|
    decreases |t|
  {
    var n := EscapeLength(t);
    if t == [] then []
    else if n > 0 then seq(|Replacement(t)|, _ => ends[n - 1]) + DecodedEnds(t[n..], ends[n..])
    else [ends[0]] + DecodedEnds(t[1..], ends[1..])
  }

  /** How many units the front token of `t` takes. */
  function TokenWidth(t: Text): (n: nat)
    requires t != []
    ensures 0 < n <= |t|
  {
    if EscapeLength(t) > 0 then EscapeLength(t) else 1
  }

  function TokenText(t: Text): (r: Text)
    requires t != []
    ensures |r| == 1 || (|r| == 2 && IsHigh(r[0]) && IsLow(r[1]))
  {
    if EscapeLength(t) > 0 then Replacement(t) else [t[0]]
  }

  /** A pass taken apart at the front token. */
  lemma PassStep(t: Text, m: seq<nat>, e: seq<nat>)
    requires t != [] && |m| == |e| == |t|
    ensures var w, head := TokenWidth(t), TokenText(t);
            && DecodedText(t) == head + DecodedText(t[w..])
            && DecodedMap(t, m) == seq(|head|, _ => m[0]) + DecodedMap(t[w..], m[w..])
            && DecodedEnds(t, e) == seq(|head|, _ => e[w - 1]) + DecodedEnds(t[w..], e[w..])
  {
    hide EscapeLength, Replacement;
    assert EscapeLength(t) == 0 ==> seq(1, _ => m[0]) == [m[0]] && seq(1, _ => e[0]) == [e[0]];
  }

  lemma NothingEnds()
    ensures DecodedText([]) == [] && DecodedMap([], []) == [] && DecodedEnds([], []) == []
  {}

  // ---------------------------------------------------------------------
  // The invariant
  // ---------------------------------------------------------------------

  /** A non-empty stretch of the source, of one unit exactly when no escape
      starts there. */
  ghost predicate SpanOk(source: Text, start: nat, end: nat) {
    start < end <= |source| && (end == start + 1 <==> EscapeLength(source[start..]) == 0)
  }

  /** A backslash that is written as itself still has nothing to escape. */
  ghost predicate StaysPut(source: Text, t: Text, m: seq<nat>, k: int) {
    && 0 <= k < |t| && k < |m| && m[k] <= |source|
    && (t[k] == BACKSLASH && EscapeLength(source[m[k]..]) == 0 ==> k + 1 == |t| || IsCssNewline(t[k + 1]))
  }

  /** No gap between the stretch of unit `k` and the next one, and no going back. */
  ghost predicate Meets(m: seq<nat>, e: seq<nat>, k: int) {
    0 <= k && k + 1 < |m| && k + 1 < |e| && m[k + 1] <= e[k] <= e[k + 1]
  }

  ghost predicate Spans(source: Text, t: Text, m: seq<nat>, e: seq<nat>) {
    && |m| == |e| == |t|
    && (forall k :: 0 <= k < |t| ==> SpanOk(source, m[k], e[k]))
    && (forall k :: 0 <= k < |t| ==> StaysPut(source, t, m, k))
    && (forall k :: 0 <= k < |t| - 1 ==> Meets(m, e, k))
  }

  lemma SpansSuffix(source: Text, t: Text, m: seq<nat>, e: seq<nat>, from: nat)
    requires Spans(source, t, m, e) && from <= |t|
    ensures Spans(source, t[from..], m[from..], e[from..])
  {
    hide SpanOk;
    forall k | 0 <= k < |t| - from ensures StaysPut(source, t[from..], m[from..], k) {
      assert StaysPut(source, t, m, from + k);
    }
    forall k | 0 <= k < |t| - from - 1 ensures Meets(m[from..], e[from..], k) {
      assert Meets(m, e, from + k);
    }
  }

  /** One more unit in front. */
  lemma SpansUnit(source: Text, u: Unit, start: nat, end: nat, t: Text, m: seq<nat>, e: seq<nat>)
    requires SpanOk(source, start, end) && Spans(source, t, m, e)
    requires t != [] ==> m[0] <= end <= e[0]
    requires u == BACKSLASH && EscapeLength(source[start..]) == 0 ==> t == [] || IsCssNewline(t[0])
    ensures Spans(source, [u] + t, [start] + m, [end] + e)
  {
    hide EscapeLength;
    var t', m', e' := [u] + t, [start] + m, [end] + e;
    forall k | 0 <= k < |t'| ensures SpanOk(source, m'[k], e'[k]) && StaysPut(source, t', m', k) {
      if k > 0 {
        assert SpanOk(source, m[k - 1], e[k - 1]) && StaysPut(source, t, m, k - 1);
      }
    }
    forall k | 0 <= k < |t'| - 1 ensures Meets(m', e', k) {
      if k > 0 { assert Meets(m, e, k - 1); }
    }
  }

  /** One more token in front, of one unit or the two halves of a code point. */
  lemma SpansToken(source: Text, head: Text, start: nat, end: nat, t: Text, m: seq<nat>, e: seq<nat>)
    requires SpanOk(source, start, end) && Spans(source, t, m, e)
    requires |head| == 1 || (|head| == 2 && IsHigh(head[0]) && IsLow(head[1]))
    requires t != [] ==> m[0] <= end <= e[0]
    requires head == [BACKSLASH] && EscapeLength(source[start..]) == 0 ==> t == [] || IsCssNewline(t[0])
    ensures Spans(source, head + t, seq(|head|, _ => start) + m, seq(|head|, _ => end) + e)
  {
    if |head| == 1 {
      assert head == [head[0]] && seq(1, _ => start) == [start] && seq(1, _ => end) == [end];
      hide *;
      SpansUnit(source, head[0], start, end, t, m, e);
    } else {
      assert head[0] != BACKSLASH && head[1] != BACKSLASH && start < end;
      hide *;
      SpansUnit(source, head[1], start, end, t, m, e);
      SpansUnit(source, head[0], start, end, [head[1]] + t, [start] + m, [end] + e);
      TwoAhead(head, t);
      TwoAhead([start, start], m);
      TwoAhead([end, end], e);
      assert seq(2, _ => start) == [start, start] && seq(2, _ => end) == [end, end];
    }
  }

  lemma TwoAhead<T>(two: seq<T>, rest: seq<T>)
    requires |two| == 2
    ensures [two[0]] + ([two[1]] + rest) == two + rest
  {}

  // ---------------------------------------------------------------------
  // The first pass
  // ---------------------------------------------------------------------

  /** What the first pass makes of the source from `at` on. */
  lemma {:induction false} FirstPassSpans(source: Text, at: nat)
    requires at <= |source|
    ensures var t, n := source[at..], |source| - at;
            && Spans(source, DecodedText(t), DecodedMap(t, Range(at, n)), DecodedEnds(t, Range(at + 1, n)))
            && Bounded(t, Range(at, n), Range(at + 1, n))
    decreases |source| - at
  {
    hide *;
    if at == |source| {
      NothingSpans(source, at);
      return;
    }
    var t, n := source[at..], |source| - at;
    var m, e := Range(at, n), Range(at + 1, n);
    var w, head := TokenWidth(t), TokenText(t);
    FirstToken(source, at);
    RangesFrom(source, at, w);
    FirstPassSpans(source, at + w);
    PassStep(t, m, e);
    BoundedStep(t, m, e);
    if w < n {
      PassFront(t[w..], m[w..], e[w..]);
      FrontEnds(source, at + w);
      if head == [BACKSLASH] && EscapeLength(t) == 0 { StrayFront(t); }
    } else {
      NothingLeft(t, w);
    }
    SpansToken(source, head, at, at + w, DecodedText(t[w..]), DecodedMap(t[w..], m[w..]), DecodedEnds(t[w..], e[w..]));
  }

  lemma NothingSpans(source: Text, at: nat)
    requires at == |source|
    ensures var t, n := source[at..], |source| - at;
            && Spans(source, DecodedText(t), DecodedMap(t, Range(at, n)), DecodedEnds(t, Range(at + 1, n)))
            && Bounded(t, Range(at, n), Range(at + 1, n))
  {
    assert source[at..] == [] && Range(at, 0) == [] && Range(at + 1, 0) == [];
    NothingEnds();
    hide DecodedText, DecodedMap, DecodedEnds;
  }

  /** The rest of the source, and of its indices. */
  lemma RangesFrom(source: Text, at: nat, w: nat)
    requires 0 < w && at + w <= |source|
    ensures var n := |source| - at;
            && source[at..][w..] == source[at + w..]
            && Range(at, n)[w..] == Range(at + w, n - w)
            && Range(at + 1, n)[w..] == Range(at + w + 1, n - w)
            && Range(at, n)[0] == at && Range(at + 1, n)[w - 1] == at + w
  {}

  /** The map starts, and the ends end, where they did before the pass. */
  ghost predicate Bounded(t: Text, m: seq<nat>, e: seq<nat>)
    requires |m| == |e| == |t|
  {
    t != [] ==>
      && DecodedText(t) != []
      && DecodedMap(t, m)[0] == m[0]
      && DecodedEnds(t, e)[|DecodedText(t)| - 1] == e[|e| - 1]
  }

  lemma BoundedStep(t: Text, m: seq<nat>, e: seq<nat>)
    requires t != [] && |m| == |e| == |t|
    requires var w := TokenWidth(t); Bounded(t[w..], m[w..], e[w..])
    ensures Bounded(t, m, e)
  {
    hide TokenWidth, TokenText, DecodedText, DecodedMap, DecodedEnds;
    var w := TokenWidth(t);
    PassStep(t, m, e);
    if w == |t| {
      NothingLeft(t, w);
      assert e[w..] == [];
    } else {
      LastOfAppend(seq(|TokenText(t)|, _ => e[w - 1]), DecodedEnds(t[w..], e[w..]));
    }
  }

  lemma LastOfAppend(a: seq<nat>, b: seq<nat>)
    requires b != []
    ensures (a + b)[|a + b| - 1] == b[|b| - 1]
  {}

  lemma NothingLeft(t: Text, w: nat)
    requires w == |t|
    ensures t[w..] == [] && DecodedText(t[w..]) == []
  {}

  lemma FirstToken(source: Text, at: nat)
    requires at < |source|
    ensures SpanOk(source, at, at + TokenWidth(source[at..]))
  {
    hide HexRun;
  }

  /** The front of a decoded text. */
  lemma PassFront(t: Text, m: seq<nat>, e: seq<nat>)
    requires t != [] && |m| == |e| == |t|
    ensures DecodedText(t) != [] && DecodedMap(t, m)[0] == m[0]
    ensures DecodedEnds(t, e)[0] == e[TokenWidth(t) - 1]
  {
    PassStep(t, m, e);
    hide TokenWidth, TokenText, DecodedText, DecodedMap, DecodedEnds;
  }

  lemma FrontEnds(source: Text, at: nat)
    requires at < |source|
    ensures var t, n := source[at..], |source| - at;
            Range(at, n)[0] == at && at < Range(at + 1, n)[TokenWidth(t) - 1]
  {
    hide TokenWidth;
  }

  /** What follows a stray backslash decodes to itself. */
  lemma StrayFront(t: Text)
    requires t != [] && TokenText(t) == [BACKSLASH] && EscapeLength(t) == 0
    ensures |t| > 1 ==> IsCssNewline(t[1]) && DecodedText(t[1..]) != [] && DecodedText(t[1..])[0] == t[1]
    ensures TokenWidth(t) == 1
  {
    hide HexRun;
  }

  // ---------------------------------------------------------------------
  // Every further pass
  // ---------------------------------------------------------------------

  /** An escape of a decoded text comes from a stretch that starts with an escape. */
  lemma MergedSpan(source: Text, t: Text, m: seq<nat>, e: seq<nat>)
    requires t != [] && Aligned(t, m, |source|) && Spans(source, t, m, e)
    ensures SpanOk(source, m[0], e[TokenWidth(t) - 1])
  {
    var w := TokenWidth(t);
    assert SpanOk(source, m[0], e[0]) && SpanOk(source, m[w - 1], e[w - 1]);
    if w > 1 {
      EscapeWasWritten(source, t, m);
      assert MovesOn(t, m, 0) && !IsHigh(t[0]);
      AlignedOrder(t, m, |source|, 1, w - 1);
      hide EscapeLength;
    }
  }

  lemma EscapeWasWritten(source: Text, t: Text, m: seq<nat>)
    requires |m| == |t| && EscapeLength(t) > 0 && StaysPut(source, t, m, 0)
    ensures EscapeLength(source[m[0]..]) > 0
  {
    hide HexRun;
    assert t[1..][0] == t[1];
  }

  lemma {:induction false} PassKeepsSpans(source: Text, t: Text, m: seq<nat>, e: seq<nat>)
    requires Aligned(t, m, |source|) && Spans(source, t, m, e)
    ensures Spans(source, DecodedText(t), DecodedMap(t, m), DecodedEnds(t, e)) && Bounded(t, m, e)
    decreases |t|
  {
    hide *;
    SameLengths(source, t, m, e);
    if t == [] {
      NothingKept(source, t, m, e);
      return;
    }
    var w, head := TokenWidth(t), TokenText(t);
    AlignedSuffix(t, m, |source|, w);
    SpansSuffix(source, t, m, e, w);
    PassKeepsSpans(source, t[w..], m[w..], e[w..]);
    PassStep(t, m, e);
    BoundedStep(t, m, e);
    MergedSpan(source, t, m, e);
    if w < |t| {
      PassFront(t[w..], m[w..], e[w..]);
      MeetsNext(source, t, m, e, w);
      if head == [BACKSLASH] && EscapeLength(source[m[0]..]) == 0 { StrayKept(source, t, m); }
    } else {
      NothingLeft(t, w);
    }
    var rest, restMap, restEnds := DecodedText(t[w..]), DecodedMap(t[w..], m[w..]), DecodedEnds(t[w..], e[w..]);
    SpansToken(source, head, m[0], e[w - 1], rest, restMap, restEnds);
  }

  lemma SameLengths(source: Text, t: Text, m: seq<nat>, e: seq<nat>)
    requires Spans(source, t, m, e)
    ensures |m| == |e| == |t|
    ensures t != [] ==> m[0] <= |source| && StaysPut(source, t, m, 0)
  {}

  lemma NothingKept(source: Text, t: Text, m: seq<nat>, e: seq<nat>)
    requires t == [] && m == [] && e == []
    ensures Spans(source, DecodedText(t), DecodedMap(t, m), DecodedEnds(t, e)) && Bounded(t, m, e)
  {}

  /** The token after the front one starts inside or right after its stretch. */
  lemma {:induction false} MeetsNext(source: Text, t: Text, m: seq<nat>, e: seq<nat>, w: nat)
    requires Spans(source, t, m, e) && 0 < w < |t|
    ensures m[w] <= e[w - 1] <= e[w..][TokenWidth(t[w..]) - 1]
  {
    hide TokenWidth, SpanOk, StaysPut;
    assert Meets(m, e, w - 1);
    EndsAscend(source, t, m, e, w, w + TokenWidth(t[w..]) - 1);
  }

  lemma {:induction false} EndsAscend(source: Text, t: Text, m: seq<nat>, e: seq<nat>, j: nat, k: nat)
    requires Spans(source, t, m, e) && j <= k < |t|
    ensures e[j] <= e[k]
    decreases k - j
  {
    hide SpanOk, StaysPut;
    if j < k {
      assert Meets(m, e, k - 1);
      EndsAscend(source, t, m, e, j, k - 1);
    }
  }

  /** A backslash that is no escape in the source is none in the decoded text. */
  lemma StrayKept(source: Text, t: Text, m: seq<nat>)
    requires |t| > 1 && |m| == |t| && StaysPut(source, t, m, 0)
    requires TokenText(t) == [BACKSLASH] && m[0] <= |source| && EscapeLength(source[m[0]..]) == 0
    ensures EscapeLength(t) == 0 && TokenWidth(t) == 1
    ensures IsCssNewline(t[1]) && DecodedText(t[1..]) != [] && DecodedText(t[1..])[0] == t[1]
  {
    if EscapeLength(t) > 0 { EscapeWasWritten(source, t, m); }
    StrayFront(t);
  }

  // ---------------------------------------------------------------------
  // The capped iteration
  // ---------------------------------------------------------------------

  /** The ends after `passes` decode passes. */
  ghost function PassesEnds(t: Text, ends: seq<nat>, passes: nat): seq<nat>
    requires |ends| == |t|
    decreases passes
  {
    if passes == 0 then ends else PassesEnds(DecodedText(t), DecodedEnds(t, ends), passes - 1)
  }

  lemma {:induction false} PassesKeepSpans(source: Text, t: Text, m: seq<nat>, e: seq<nat>, passes: nat)
    requires Aligned(t, m, |source|) && Spans(source, t, m, e) && |m| == |e| == |t|
    ensures var r, ends := Passes(Decoded(t, m), passes), PassesEnds(t, e, passes);
            && Spans(source, r.text, r.map_, ends) && |ends| == |r.text| == |r.map_|
            && (t != [] ==> r.text != [] && r.map_[0] == m[0] && ends[|ends| - 1] == e[|e| - 1])
    decreases passes
  {
    hide Aligned, Spans, DecodedText, DecodedMap, DecodedEnds;
    if passes > 0 {
      PassKeepsAligned(t, m, |source|);
      PassKeepsSpans(source, t, m, e);
      PassesKeepSpans(source, DecodedText(t), DecodedMap(t, m), DecodedEnds(t, e), passes - 1);
    }
  }

  /** Where the source of every unit of the decoded sheet ends. */
  ghost function FixedPointEnds(source: Text): seq<nat> {
    PassesEnds(source, Range(1, |source|), MAX_PASSES)
  }

  /** Every unit of the decoded sheet comes from a non-empty stretch of the source,
      which is one unit exactly when no escape starts there. The stretches come in
      order, without gaps, from the first unit of the source to its last. */
  lemma FixedPointSpans(source: Text)
    ensures var t, m, ends := FixedPoint(source).text, FixedPoint(source).map_, FixedPointEnds(source);
            && |ends| == |m| == |t|
            && Spans(source, t, m, ends)
            && (source != [] ==> t != [] && m[0] == 0 && ends[|ends| - 1] == |source|)
  {
    FirstPass(source);
    hide *;
    StartAligned(source);
    PassKeepsAligned(source, Range(0, |source|), |source|);
    var m, e := DecodedMap(source, Range(0, |source|)), DecodedEnds(source, Range(1, |source|));
    PassesKeepSpans(source, DecodedText(source), m, e, MAX_PASSES - 1);
  }

  /** The first pass of eight. */
  lemma FirstPass(source: Text)
    ensures MAX_PASSES > 0
    ensures var n := |source|;
            var t, m, e := DecodedText(source), DecodedMap(source, Range(0, n)), DecodedEnds(source, Range(1, n));
            && FixedPoint(source) == Passes(Decoded(t, m), MAX_PASSES - 1)
            && FixedPointEnds(source) == PassesEnds(t, e, MAX_PASSES - 1)
            && Spans(source, t, m, e) && |t| == |m| == |e|
            && (source != [] ==> t != [] && m[0] == 0 && e[|e| - 1] == n)
  {
    hide DecodedText, DecodedMap, DecodedEnds, Spans;
    assert source[0..] == source && Start(source).map_ == Range(0, |source|);
    FirstPassSpans(source, 0);
    PassesStep(Start(source), MAX_PASSES);
  }

  lemma StartAligned(source: Text)
    ensures Aligned(source, Range(0, |source|), |source|)
  {
    var m := Range(0, |source|);
    forall k | 0 <= k < |m| - 1 ensures MovesOn(source, m, k) {}
  }

  // ---------------------------------------------------------------------
  // The ends are those of the tokens
  // ---------------------------------------------------------------------

  /** For every unit that is meant, where its token ends in the written sheet. */
  function Ends(ps: seq<Piece>, at: nat): seq<nat>
    requires WellFormed(ps)
  {
    if ps == [] then []
    else
      var next := at + |PieceSource(ps[0])|;
      seq(|PieceMeaning(ps[0])|, _ => next) + Ends(ps[1..], next)
  }

  lemma EndsStep(ps: seq<Piece>, at: nat)
    requires ps != [] && WellFormed(ps)
    ensures ps[0].Hex? ==> forall k :: 0 <= k < |ps[0].digits| ==> IsHexDigit(ps[0].digits[k])
    ensures WellFormed(ps[1..])
    ensures var next := at + |PieceSource(ps[0])|;
            Ends(ps, at) == seq(|PieceMeaning(ps[0])|, _ => next) + Ends(ps[1..], next)
  {
    SpellingStep(ps, at);
    hide PieceSource, PieceMeaning;
  }

  /** The front token of a text that starts with a written token. */
  lemma PieceIsToken(p: Piece, rest: Text)
    requires Fits(p, rest)
    ensures var t := PieceSource(p) + rest;
            TokenWidth(t) == |PieceSource(p)| && TokenText(t) == PieceMeaning(p)
  {
    PieceIsRead(p, rest);
    hide EscapeLength, Replacement, Fits;
  }

  /** One decode pass over any spelling gives the ends of its tokens. */
  lemma {:induction false} DecodeRecoversEnds(ps: seq<Piece>, at: nat)
    requires WellFormed(ps)
    ensures DecodedEnds(Source(ps), Range(at + 1, |Source(ps)|)) == Ends(ps, at)
    decreases |ps|
  {
    hide *;
    if ps == [] {
      NothingWritten(at);
      return;
    }
    var p, rest := ps[0], Source(ps[1..]);
    SpellingStep(ps, at);
    EndsStep(ps, at);
    PieceIsToken(p, rest);
    var t, w := PieceSource(p) + rest, |PieceSource(p)|;
    var e := Range(at + 1, |t|);
    PassStep(t, e, e);
    assert t[w..] == rest;
    assert e[w..] == Range(at + 1 + w, |rest|) && e[w - 1] == at + w;
    DecodeRecoversEnds(ps[1..], at + w);
  }

  lemma NothingWritten(at: nat)
    ensures DecodedEnds(Source([]), Range(at + 1, |Source([])|)) == Ends([], at)
  {}

  /** The token of any meant unit is a non-empty stretch of the sheet, of one unit
      exactly when no escape starts there. */
  lemma TokenSpan(ps: seq<Piece>, k: nat)
    requires WellFormed(ps) && k < |Meaning(ps)|
    ensures |Starts(ps, 0)| == |Ends(ps, 0)| == |Meaning(ps)|
    ensures Starts(ps, 0)[k] < Ends(ps, 0)[k] <= |Source(ps)|
    ensures Ends(ps, 0)[k] == Starts(ps, 0)[k] + 1 <==> EscapeLength(Source(ps)[Starts(ps, 0)[k]..]) == 0
  {
    hide *;
    DecodeRecoversMeaning(ps, 0);
    DecodeRecoversEnds(ps, 0);
    FirstPass(Source(ps));
    SpanAt(Source(ps), Meaning(ps), Starts(ps, 0), Ends(ps, 0), k);
  }

  lemma SpanAt(source: Text, t: Text, m: seq<nat>, e: seq<nat>, k: nat)
    requires Spans(source, t, m, e) && k < |t|
    ensures |m| == |e| == |t| && m[k] < e[k] <= |source|
    ensures e[k] == m[k] + 1 <==> EscapeLength(source[m[k]..]) == 0
  {
    hide EscapeLength, StaysPut;
    assert SpanOk(source, m[k], e[k]);
  }

  lemma {:induction false} EndsSettle(t: Text, ends: seq<nat>)
    requires |ends| == |t| && !HasEscape(t)
    ensures DecodedEnds(t, ends) == ends && DecodedText(t) == t
    decreases |t|
  {
    PassMakesProgress(t, ends);
    hide EscapeLength, HasEscape, DecodedText;
    if t != [] {
      EscapeIsAheadOrLater(t);
      EndsSettle(t[1..], ends[1..]);
      assert ends == [ends[0]] + ends[1..];
    }
  }

  lemma {:induction false} PassesEndsSettle(t: Text, ends: seq<nat>, passes: nat)
    requires |ends| == |t| && !HasEscape(t)
    ensures PassesEnds(t, ends, passes) == ends
    decreases passes
  {
    hide HasEscape, DecodedText, DecodedEnds;
    if passes > 0 {
      EndsSettle(t, ends);
      PassesEndsSettle(t, ends, passes - 1);
    }
  }

  /** The ends in a sheet whose meaning holds no escape are those of its tokens. */
  lemma SpelledEnds(ps: seq<Piece>)
    requires WellFormed(ps) && !HasEscape(Meaning(ps))
    ensures FixedPointEnds(Source(ps)) == Ends(ps, 0)
  {
    hide *;
    DecodeRecoversMeaning(ps, 0);
    DecodeRecoversEnds(ps, 0);
    FirstPass(Source(ps));
    PassesEndsSettle(Meaning(ps), Ends(ps, 0), MAX_PASSES - 1);
  }
}
