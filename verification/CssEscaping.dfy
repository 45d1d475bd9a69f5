/**
 Escaping hides nothing from the stylesheet validator, as long as eight decode
 passes are enough; and what happens beyond (`src/lib/cssValidate.ts`).
 */
module CssEscaping {
  import opened Texts
  import opened CssEscapes
  import opened CssSpellings
  import opened CssSpans
  import opened CssScan
  import opened SourcePositions
  import opened CssValidate

  // ---------------------------------------------------------------------
  // Maps compose
  // ---------------------------------------------------------------------

  ghost predicate PointsInto(inner: seq<nat>, n: nat) {
    forall k :: 0 <= k < |inner| ==> inner[k] < n
  }

  /** Follow `inner`, then `outer`. */
  function Compose(outer: seq<nat>, inner: seq<nat>): (r: seq<nat>)
    requires PointsInto(inner, |outer|)
    ensures |r| == |inner|
    ensures forall k :: 0 <= k < |inner| ==> r[k] == outer[inner[k]]
  {
    seq(|inner|, k requires 0 <= k < |inner| => outer[inner[k]])
  }

  lemma ComposeSuffix(outer: seq<nat>, inner: seq<nat>, from: nat)
    requires PointsInto(inner, |outer|) && from <= |inner|
    ensures PointsInto(inner[from..], |outer|) && Compose(outer, inner)[from..] == Compose(outer, inner[from..])
  {}

  lemma ComposePrepend(outer: seq<nat>, at: nat, n: nat, inner: seq<nat>)
    requires at < |outer| && PointsInto(inner, |outer|)
    ensures PointsInto(seq(n, _ => at) + inner, |outer|)
    ensures Compose(outer, seq(n, _ => at) + inner) == seq(n, _ => outer[at]) + Compose(outer, inner)
  {}

  /** A pass moves a map along without looking at it. */
  lemma {:induction false} MapComposes(t: Text, inner: seq<nat>, outer: seq<nat>)
    requires |inner| == |t| && PointsInto(inner, |outer|)
    ensures PointsInto(DecodedMap(t, inner), |outer|)
    ensures DecodedMap(t, Compose(outer, inner)) == Compose(outer, DecodedMap(t, inner))
    decreases |t|
  {
    if t == [] {
      assert inner == [] && Compose(outer, inner) == [];
      return;
    }
    var at := inner[0];
    assert at < |outer| && Compose(outer, inner)[0] == outer[at];
    hide *;
    var w, composed := TokenWidth(t), Compose(outer, inner);
    PassStep(t, inner, inner);
    PassStep(t, composed, composed);
    ComposeSuffix(outer, inner, w);
    MapComposes(t[w..], inner[w..], outer);
    ComposePrepend(outer, at, |TokenText(t)|, DecodedMap(t[w..], inner[w..]));
  }

  lemma {:induction false} PassesCompose(t: Text, inner: seq<nat>, outer: seq<nat>, passes: nat)
    requires |inner| == |t| && PointsInto(inner, |outer|)
    ensures var r := Passes(Decoded(t, inner), passes);
            && PointsInto(r.map_, |outer|)
            && Passes(Decoded(t, Compose(outer, inner)), passes) == Decoded(r.text, Compose(outer, r.map_))
    decreases passes
  {
    hide DecodedText, DecodedMap;
    if passes > 0 {
      MapComposes(t, inner, outer);
      PassesCompose(DecodedText(t), DecodedMap(t, inner), outer, passes - 1);
    }
  }

  // ---------------------------------------------------------------------
  // Escaping hides nothing
  // ---------------------------------------------------------------------

  /** Seven passes settle what is meant, if eight settle what is written. */
  lemma OnePassLess(ps: seq<Piece>)
    requires WellFormed(ps) && PassesNeeded(Source(ps)) <= 8
    ensures PassesNeeded(Meaning(ps)) <= 7
  {
    hide Source, Meaning, Starts, WellFormed, HasEscape, DecodedText, DecodedMap;
    var s := Source(ps);
    DecodeRecoversMeaning(ps, 0);
    PassMakesProgress(s, Range(0, |s|));
  }

  /** What seven passes make of a sheet. */
  function Seven(sheet: Text): (d: Decoded)
    ensures |d.map_| == |d.text|
  {
    Passes(Start(sheet), SEVEN)
  }

  lemma SevenIs(sheet: Text)
    ensures Seven(sheet) == Passes(Decoded(sheet, Range(0, |sheet|)), SEVEN)
  {
    hide Passes;
    assert Start(sheet).map_ == Range(0, |sheet|);
  }

  /** Decoding a written sheet is passing seven times over the sheet that is meant,
      every unit mapped on to the token it is written with. */
  lemma SpellingDecodes(ps: seq<Piece>)
    requires WellFormed(ps)
    ensures |Starts(ps, 0)| == |Meaning(ps)|
    ensures var d := Seven(Meaning(ps));
            && PointsInto(d.map_, |Starts(ps, 0)|)
            && FixedPoint(Source(ps)) == Decoded(d.text, Compose(Starts(ps, 0), d.map_))
  {
    hide *;
    DecodeRecoversMeaning(ps, 0);
    var sheet, starts := Meaning(ps), Starts(ps, 0);
    SevenIs(sheet);
    FirstOfEight(Source(ps));
    WholeRange(sheet, starts);
    PassesCompose(sheet, Range(0, |sheet|), starts, SEVEN);
  }

  /** If eight passes decode what is written, seven and eight are the same. */
  lemma SpellingSettles(ps: seq<Piece>)
    requires WellFormed(ps) && PassesNeeded(Source(ps)) <= 8
    ensures FixedPoint(Meaning(ps)) == Seven(Meaning(ps))
  {
    hide *;
    OnePassLess(ps);
    SevenIs(Meaning(ps));
    SettledEarly(Meaning(ps));
  }

  const SEVEN: nat := 7

  lemma FirstOfEight(source: Text)
    ensures var m := Range(0, |source|);
            FixedPoint(source) == Passes(Decoded(DecodedText(source), DecodedMap(source, m)), SEVEN)
  {
    hide DecodedText, DecodedMap;
    assert Start(source).map_ == Range(0, |source|);
    PassesStep(Start(source), MAX_PASSES);
  }

  lemma SettledEarly(sheet: Text)
    requires PassesNeeded(sheet) <= 7
    ensures FixedPoint(sheet) == Passes(Decoded(sheet, Range(0, |sheet|)), SEVEN)
  {
    hide Passes, HasEscape, PassesNeeded;
    assert Start(sheet).map_ == Range(0, |sheet|);
    PassesReachEnd(Start(sheet), MAX_PASSES);
    PassesReachEnd(Start(sheet), MAX_PASSES - 1);
  }

  lemma WholeRange(sheet: Text, starts: seq<nat>)
    requires |starts| == |sheet|
    ensures PointsInto(Range(0, |sheet|), |starts|) && Compose(starts, Range(0, |sheet|)) == starts
  {}

  /** What the validator reports for a written sheet, told from the sheet that is
      meant: a violation for each hit of its text after seven passes, where the unit
      that starts it is written. */
  lemma WrittenViolations(ps: seq<Piece>)
    requires WellFormed(ps)
    ensures var d, vs := Seven(Meaning(ps)), Violations(Source(ps));
            var hs := AllHits(d.text);
            && |vs| == |hs| && |Starts(ps, 0)| == |Meaning(ps)|
            && forall i :: 0 <= i < |hs| ==>
                 && hs[i].start < |d.map_| && d.map_[hs[i].start] < |Starts(ps, 0)|
                 && vs[i].rule == hs[i].rule
                 && vs[i].position == PositionOf(Source(ps), Starts(ps, 0)[d.map_[hs[i].start]])
  {
    hide *;
    SpellingDecodes(ps);
    ViolationsAreHits(Source(ps));
    var d := Seven(Meaning(ps));
    forall i | 0 <= i < |AllHits(d.text)|
      ensures AllHits(d.text)[i].start < |d.map_|
      ensures d.map_[AllHits(d.text)[i].start] < |Starts(ps, 0)|
      ensures Violations(Source(ps))[i].rule == AllHits(d.text)[i].rule
      ensures Violations(Source(ps))[i].position
           == PositionOf(Source(ps), Starts(ps, 0)[d.map_[AllHits(d.text)[i].start]])
    {
      ViolationAt(Source(ps), i);
      PointsAt(d.map_, |Starts(ps, 0)|, AllHits(d.text)[i].start);
    }
  }

  lemma PointsAt(inner: seq<nat>, n: nat, k: nat)
    requires PointsInto(inner, n) && k < |inner|
    ensures inner[k] < n
  {}

  ghost predicate SameRules(vs: seq<Violation>, ws: seq<Violation>) {
    |vs| == |ws| && forall i :: 0 <= i < |vs| ==> vs[i].rule == ws[i].rule
  }

  ghost predicate SameHitRules(hs: seq<Hit>, gs: seq<Hit>) {
    |hs| == |gs| && forall i :: 0 <= i < |hs| ==> hs[i].rule == gs[i].rule
  }

  /** Exactly when escaping hides nothing: a sheet and a way it is written have the
      same rules reported, in the same order, if and only if the eighth pass over
      the sheet changes nothing in the rules of its hits. How it is written does
      not matter. */
  lemma EscapingHidesNothingIff(ps: seq<Piece>)
    requires WellFormed(ps)
    ensures var sheet := Meaning(ps);
            SameRules(Violations(Source(ps)), Violations(sheet))
            <==> SameHitRules(AllHits(Seven(sheet).text), AllHits(FixedPoint(sheet).text))
  {
    hide Violations, Meaning, Source, Starts, WellFormed, AllHits, FixedPoint, Seven, PositionOf;
    var sheet := Meaning(ps);
    WrittenViolations(ps);
    ViolationsAreHits(sheet);
    forall i | 0 <= i < |Violations(sheet)|
      ensures Violations(sheet)[i].rule == AllHits(FixedPoint(sheet).text)[i].rule
    {
      ViolationAt(sheet, i);
    }
  }

  /** Escaping hides nothing. However any units of a sheet are rewritten as
      escapes, if eight passes decode the result then the validator reports the
      same rules in the same order, each where the unit that starts it in the
      sheet is written. */
  lemma EscapingHidesNothing(ps: seq<Piece>)
    requires WellFormed(ps) && PassesNeeded(Source(ps)) <= 8
    ensures var sheet, written := Meaning(ps), Source(ps);
            && |Violations(written)| == |Violations(sheet)|
            && forall i :: 0 <= i < |Violations(sheet)| ==> SameViolation(ps, i)
  {
    hide *;
    SpellingDecodes(ps);
    SpellingSettles(ps);
    ViolationsAreHits(Meaning(ps));
    ViolationsAreHits(Source(ps));
    forall i | 0 <= i < |Violations(Meaning(ps))| ensures SameViolation(ps, i) {
      ViolationAt(Meaning(ps), i);
      ViolationAt(Source(ps), i);
      OneViolation(ps, i);
    }
  }

  /** The `i`-th violations agree in rule, and in place up to the spelling. */
  ghost predicate SameViolation(ps: seq<Piece>, i: nat)
    requires WellFormed(ps) && i < |Violations(Meaning(ps))| == |Violations(Source(ps))|
  {
    var v, v' := Violations(Meaning(ps))[i], Violations(Source(ps))[i];
    && v.rule == v'.rule
    && exists offset: nat :: WrittenAt(ps, v.position, v'.position, offset)
  }

  ghost predicate WrittenAt(ps: seq<Piece>, p: Position, p': Position, offset: nat)
    requires WellFormed(ps)
  {
    && offset < |Meaning(ps)| == |Starts(ps, 0)|
    && p == PositionOf(Meaning(ps), offset)
    && p' == PositionOf(Source(ps), Starts(ps, 0)[offset])
  }

  lemma ViolationsAreHits(source: Text)
    ensures |Violations(source)| == |AllHits(FixedPoint(source).text)|
  {}

  lemma OneViolation(ps: seq<Piece>, i: nat)
    requires WellFormed(ps) && i < |Violations(Meaning(ps))| == |Violations(Source(ps))|
    requires |Starts(ps, 0)| == |Meaning(ps)|
    requires var meant := FixedPoint(Meaning(ps));
             && PointsInto(meant.map_, |Starts(ps, 0)|)
             && FixedPoint(Source(ps)) == Decoded(meant.text, Compose(Starts(ps, 0), meant.map_))
    requires var m, m' := FixedPoint(Meaning(ps)).map_, FixedPoint(Source(ps)).map_;
             var hs := AllHits(FixedPoint(Meaning(ps)).text);
             && i < |hs| && hs[i].start < |m| == |m'|
             && Violations(Meaning(ps))[i].rule == hs[i].rule == Violations(Source(ps))[i].rule
             && Violations(Meaning(ps))[i].position == PositionOf(Meaning(ps), m[hs[i].start])
             && Violations(Source(ps))[i].position == PositionOf(Source(ps), m'[hs[i].start])
    ensures SameViolation(ps, i)
  {
    hide Violations, Meaning, Source, Starts, WellFormed, AllHits, FixedPoint, PositionOf;
    var offset := FixedPoint(Meaning(ps)).map_[AllHits(FixedPoint(Meaning(ps)).text)[i].start];
    assert WrittenAt(ps, Violations(Meaning(ps))[i].position, Violations(Source(ps))[i].position, offset);
  }

  /** One pass decodes any spelling of a backslash-free sheet. */
  lemma BackslashFreeIsReached(ps: seq<Piece>)
    requires WellFormed(ps) && BACKSLASH !in Meaning(ps)
    ensures PassesNeeded(Source(ps)) <= 1
  {
    hide Source, Meaning, Starts, WellFormed, HasEscape, DecodedText, DecodedMap;
    DecodeRecoversMeaning(ps, 0);
    NoBackslashNoEscape(Meaning(ps));
  }

  /** In a backslash-free sheet every hit is found however it is spelled, and
      reported where its first unit is written. */
  lemma BackslashFreeHidesNothing(ps: seq<Piece>)
    requires WellFormed(ps) && BACKSLASH !in Meaning(ps)
    ensures var sheet, written, hs := Meaning(ps), Source(ps), AllHits(Meaning(ps));
            && |Violations(written)| == |Violations(sheet)| == |hs|
            && |Starts(ps, 0)| == |sheet|
            && forall i :: 0 <= i < |hs| ==>
                 && hs[i].start < |sheet|
                 && Violations(sheet)[i].rule == Violations(written)[i].rule == hs[i].rule
                 && Violations(sheet)[i].position == PositionOf(sheet, hs[i].start)
                 && Violations(written)[i].position == PositionOf(written, Starts(ps, 0)[hs[i].start])
  {
    hide *;
    var sheet := Meaning(ps);
    BackslashFreeIsReached(ps);
    SpellingDecodes(ps);
    SpellingSettles(ps);
    PlainSheetIsItself(sheet);
    WholeRange(sheet, Starts(ps, 0));
    ViolationsAreHits(sheet);
    ViolationsAreHits(Source(ps));
    forall i | 0 <= i < |AllHits(sheet)|
      ensures i < |Violations(sheet)| == |Violations(Source(ps))|
            && AllHits(sheet)[i].start < |sheet| == |Starts(ps, 0)|
      ensures Violations(sheet)[i].rule == Violations(Source(ps))[i].rule == AllHits(sheet)[i].rule
      ensures Violations(sheet)[i].position == PositionOf(sheet, AllHits(sheet)[i].start)
      ensures Violations(Source(ps))[i].position == PositionOf(Source(ps), Starts(ps, 0)[AllHits(sheet)[i].start])
    {
      ViolationAt(sheet, i);
      ViolationAt(Source(ps), i);
      assert Range(0, |sheet|)[AllHits(sheet)[i].start] == AllHits(sheet)[i].start;
    }
  }


  lemma PlainSheetIsItself(sheet: Text)
    requires BACKSLASH !in sheet
    ensures FixedPoint(sheet) == Decoded(sheet, Range(0, |sheet|))
  {
    hide HasEscape;
    assert Start(sheet).map_ == Range(0, |sheet|);
    NoBackslashNoEscape(sheet);
    PassesSettle(Start(sheet), MAX_PASSES);
  }

  // ---------------------------------------------------------------------
  // What the cap lets through, and what the construct leaves out
  // ---------------------------------------------------------------------

  /** `import x` */
  const IMPORT: Text := Lit("import x")

  lemma ImportUnits()
    ensures IMPORT == [0x69, 0x6D, 0x70, 0x6F, 0x72, 0x74, 0x20, 0x78]
    ensures AtRuleLength([AT] + IMPORT) == 7
  {
    assert IMPORT == [0x69, 0x6D, 0x70, 0x6F, 0x72, 0x74, 0x20, 0x78];
    ImportAhead(0x20, [0x78]);
    assert [AT] + IMPORT == [AT, 0x69, 0x6D, 0x70, 0x6F, 0x72, 0x74] + ([0x20] + [0x78]);
  }

  lemma ImportWord()
    ensures Lit("import") == [0x69, 0x6D, 0x70, 0x6F, 0x72, 0x74]
  {}

  /** `@import` before anything that is no word unit. */
  lemma ImportAhead(u: Unit, rest: Text)
    requires !IsWord(u)
    ensures AtRuleLength([AT, 0x69, 0x6D, 0x70, 0x6F, 0x72, 0x74] + ([u] + rest)) == 7
  {
    ImportWord();
    hide Lit;
    var t, w := [AT, 0x69, 0x6D, 0x70, 0x6F, 0x72, 0x74] + ([u] + rest), Lit("import");
    assert forall i :: 0 <= i < 6 ==> t[1..][i] == w[i] && LowerUnit(w[i]) == w[i];
    assert KeywordAhead(t, w);
  }

  lemma {:induction false} ChainUnits(depth: nat)
    ensures forall u :: u in ChainTail(depth) ==> u in [0x34, 0x30, 0x20, 0x35, 0x63]
  {
    if depth > 0 { ChainUnits(depth - 1); }
  }

  /** Without `@` and without `u` a text holds nothing that is scanned for. */
  lemma NothingToFind(t: Text)
    requires forall u :: u in t ==> u != AT && u != 0x75 && u != 0x55
    ensures AllHits(t) == []
  {
    hide AllHits;
    if AllHits(t) != [] { HitHasFront(t); }
  }

  lemma HitHasFront(t: Text)
    requires AllHits(t) != []
    ensures AT in t || 0x75 in t || 0x55 in t
  {
    hide AllHits, TrueHit;
    AllHitsOrdered(t);
    TrueHitBounds(t, AllHits(t)[0]);
  }

  /** A match at the front of the text is the first hit. */
  lemma FrontHit(t: Text)
    requires t != [] && AtRuleLength(t) > 0
    ensures AllHits(t) != [] && AllHits(t)[0] == Hit(AtRule, 0, AtRuleLength(t))
  {
    var h := Hit(AtRule, 0, AtRuleLength(t));
    assert t[0..] == t;
    assert h.start == 0;
    EveryAtRuleIsHit(t, 0, 0);
    assert h in RecordedHits(t);
    hide AllHits, RecordedHits, AtRuleLength;
    AllHitsOrdered(t);
    var i :| 0 <= i < |AllHits(t)| && AllHits(t)[i] == h;
    var first := AllHits(t)[0];
    assert first.start >= 0;
    assert i == 0;
  }

  /** A sheet-pulling at-rule behind a chain of nested escapes is refused, where
      it is written, exactly when the chain is less than eight levels deep. */
  lemma NestedImportRefusedIff(depth: nat)
    ensures var vs := Violations(Chain(depth) + IMPORT);
            if depth < 8 then vs != [] && vs[0].rule == AtRule && vs[0].position == Position(1, 1)
            else vs == []
  {
    var source := Chain(depth) + IMPORT;
    ImportUnits();
    ViolationsAreHits(source);
    hide Violations, FixedPoint, AllHits, AtRuleLength, PositionOf, Chain, ChainTail, IMPORT;
    if depth < MAX_PASSES {
      ChainDecodes(depth);
      FrontHit([AT] + IMPORT);
      ViolationAt(source, 0);
      FixedPointSpans(source);
      FrontPosition(source);
    } else {
      NestedChainKeepsEscape(depth, IMPORT);
      NothingInChain(depth - MAX_PASSES);
    }
  }

  lemma ChainDecodes(depth: nat)
    requires depth < MAX_PASSES
    ensures FixedPoint(Chain(depth) + IMPORT).text == [AT] + IMPORT
    ensures Chain(depth) + IMPORT != []
  {
    ImportUnits();
    hide Passes, IMPORT;
    ChainEnds(depth, IMPORT, MAX_PASSES, Start(Chain(depth) + IMPORT).map_);
  }

  lemma NothingInChain(depth: nat)
    ensures AllHits(Chain(depth) + IMPORT) == []
  {
    ChainUnits(depth);
    ImportUnits();
    var t := Chain(depth) + IMPORT;
    forall u | u in t ensures u != AT && u != 0x75 && u != 0x55 {
      assert u == BACKSLASH || u in ChainTail(depth) || u in IMPORT;
    }
    hide Chain, IMPORT, AllHits;
    NothingToFind(t);
  }

  lemma FrontPosition(source: Text)
    ensures PositionOf(source, 0) == Position(1, 1)
  {}

  lemma PlainStep(u: Unit, rest: Text, m: seq<nat>)
    requires u != BACKSLASH && |m| == 1 + |rest|
    ensures DecodedText([u] + rest) == [u] + DecodedText(rest)
    ensures DecodedMap([u] + rest, m) == [m[0]] + DecodedMap(rest, m[1..])
  {
    var t := [u] + rest;
    assert t[1..] == rest && EscapeLength(t) == 0;
    hide EscapeLength, Replacement;
  }

  /** Text without a backslash decodes to itself in front of any other. */
  lemma {:induction false} PrefixDecodes(plain: Text, t: Text, m: seq<nat>)
    requires BACKSLASH !in plain && |m| == |plain| + |t|
    ensures DecodedText(plain + t) == plain + DecodedText(t)
    ensures DecodedMap(plain + t, m) == m[..|plain|] + DecodedMap(t, m[|plain|..])
  {
    hide *;
    if plain == [] {
      NoPrefix(t, m);
      return;
    }
    PlainStep(plain[0], plain[1..] + t, m);
    PrefixDecodes(plain[1..], t, m[1..]);
    HeadFirst(plain, t);
    HeadFirst(plain, DecodedText(t));
    HeadFirst(m[..|plain|], DecodedMap(t, m[|plain|..]));
    assert m[1..][|plain| - 1..] == m[|plain|..] && m[1..][..|plain| - 1] == m[..|plain|][1..];
  }

  lemma NoPrefix(t: Text, m: seq<nat>)
    requires |m| == |t|
    ensures [] + t == t && [] + DecodedText(t) == DecodedText(t)
    ensures m[0..] == m && m[..0] + DecodedMap(t, m) == DecodedMap(t, m)
  {}

  lemma HeadFirst<T>(a: seq<T>, b: seq<T>)
    requires a != []
    ensures [a[0]] + (a[1..] + b) == a + b
  {}

  /** `@impor` */
  const PLAIN: Text := Lit("@impor")

  /** `\74 ` */
  const ESCAPE: Text := [BACKSLASH, 0x37, 0x34, 0x20]

  /** `@import` */
  const KEYWORD: Text := [AT] + Lit("import")

  lemma CutUnits()
    ensures PLAIN == [0x40, 0x69, 0x6D, 0x70, 0x6F, 0x72] && |ESCAPE| == 4
    ensures PLAIN + [0x74] == KEYWORD && AtRuleLength(KEYWORD) == 7 && BACKSLASH !in KEYWORD && BACKSLASH !in PLAIN
  {
    PlainWord();
    ImportWord();
    hide Lit, PLAIN;
    assert KEYWORD == [AT, 0x69, 0x6D, 0x70, 0x6F, 0x72, 0x74];
    ImportAlone();
  }

  lemma PlainWord()
    ensures PLAIN == [0x40, 0x69, 0x6D, 0x70, 0x6F, 0x72]
  {}

  lemma ImportAlone()
    ensures AtRuleLength([AT, 0x69, 0x6D, 0x70, 0x6F, 0x72, 0x74]) == 7
  {
    ImportWord();
    hide Lit;
    var t, w := [AT, 0x69, 0x6D, 0x70, 0x6F, 0x72, 0x74], Lit("import");
    assert forall i :: 0 <= i < 6 ==> t[1..][i] == w[i] && LowerUnit(w[i]) == w[i];
    assert KeywordAhead(t, w);
  }

  lemma EscapeDecodes()
    ensures DecodedText(ESCAPE) == [0x74]
  {
    SeventyFourIsT();
    TwoDigitsDecode(0x37, 0x34, 0x74, []);
    assert ESCAPE + [] == ESCAPE && [0x74] + [] == [0x74 as Unit];
  }

  /** `@impor\74 ` decodes to `@import`, the last unit standing for the whole escape. */
  lemma CutDecodes()
    ensures FixedPoint(PLAIN + ESCAPE).text == KEYWORD
    ensures var m := FixedPoint(PLAIN + ESCAPE).map_; |m| == 7 && m[0] == 0 && m[6] == 6
  {
    hide *;
    CutUnits();
    var source, m := PLAIN + ESCAPE, Range(0, 10);
    EscapeDecodes();
    PrefixDecodes(PLAIN, ESCAPE, m);
    PassFront(ESCAPE, m[6..], m[6..]);
    FirstOfEight(source);
    NoBackslashNoEscape(KEYWORD);
    var d := Decoded(KEYWORD, DecodedMap(source, m));
    PassesSettle(d, SEVEN);
    assert m[..6][0] == 0 && m[6..][0] == 6;
  }

  lemma SeventyFourIsT()
    ensures IsHexDigit(0x37) && IsHexDigit(0x34)
    ensures CodePointText(16 * HexDigitValue(0x37) + HexDigitValue(0x34)) == [0x74]
  {}

  /** `@impor\74 ` is refused, but the construct it is refused for stops right
      after the backslash. */
  lemma ConstructCutShort()
    ensures var source := PLAIN + ESCAPE;
            var vs := Violations(source);
            vs != [] && vs[0].rule == AtRule && vs[0].construct == source[..7] == PLAIN + [BACKSLASH]
  {
    hide *;
    CutUnits();
    CutDecodes();
    FrontHit(KEYWORD);
    var source := PLAIN + ESCAPE;
    ViolationsAreHits(source);
    ViolationAt(source, 0);
    ConstructSpansMatch(source, AllHits(KEYWORD)[0]);
    CutShown();
  }

  lemma CutShown()
    ensures |PLAIN + ESCAPE| == 10
    ensures Shown((PLAIN + ESCAPE)[0..7]) == (PLAIN + ESCAPE)[..7] == PLAIN + [BACKSLASH]
  {
    assert |PLAIN| == 6 && ESCAPE[0] == BACKSLASH;
    hide PLAIN, ESCAPE;
    assert (PLAIN + ESCAPE)[..7] == PLAIN + ESCAPE[..1];
  }
}
