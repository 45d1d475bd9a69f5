/**
 The stylesheet validator: what it reports, where, and that escaping hides
 nothing from it (`src/lib/cssValidate.ts`).
 */
module CssValidate {
  import opened Texts
  import opened CssEscapes
  import opened CssSpellings
  import opened CssSpans
  import opened CssScan
  import opened SourcePositions

  const CONSTRUCT_MAX: nat := 80
  const ELLIPSIS: Unit := 0x2026

  datatype Violation = Violation(rule: Rule, construct: Text, position: Position)

  /** A violation with the source offset it is sorted by. */
  datatype Recorded = Recorded(violation: Violation, offset: nat)

  function OffsetKey(r: Recorded): nat { r.offset }

  function Shown(construct: Text): Text {
    if |construct| > CONSTRUCT_MAX then construct[..CONSTRUCT_MAX] + [ELLIPSIS] else construct
  }

  /** One past the last source unit of the construct. */
  function ConstructEnd(m: seq<nat>, h: Hit): nat
    requires 0 < h.length && h.start + h.length <= |m|
  {
    var start, end := m[h.start], m[h.start + h.length - 1] + 1;
    if end > start + 1 then end else start + 1
  }

  /** Does the hit lie inside the decoded text, and the map inside the source? */
  ghost predicate Recordable(source: Text, m: seq<nat>, h: Hit) {
    && 0 < h.length && h.start + h.length <= |m|
    && m[h.start] < |source| && m[h.start + h.length - 1] < |source|
  }

  function Record(source: Text, m: seq<nat>, h: Hit): (r: Recorded)
    requires Recordable(source, m, h)
    ensures r.offset == m[h.start] && r.violation.position == PositionOf(source, r.offset)
  {
    var start := m[h.start];
    Recorded(Violation(h.rule, Shown(source[start..ConstructEnd(m, h)]), PositionOf(source, start)), start)
  }

  function RecordAll(source: Text, m: seq<nat>, hs: seq<Hit>): (rs: seq<Recorded>)
    requires forall i :: 0 <= i < |hs| ==> Recordable(source, m, hs[i])
    ensures |rs| == |hs|
    ensures forall i :: 0 <= i < |hs| ==> rs[i] == Record(source, m, hs[i])
  {
    seq(|hs|, i requires 0 <= i < |hs| => Record(source, m, hs[i]))
  }

  lemma RecordAllAppend(source: Text, m: seq<nat>, hs: seq<Hit>, x: Hit)
    requires forall i :: 0 <= i < |hs| ==> Recordable(source, m, hs[i])
    requires Recordable(source, m, x)
    ensures forall i :: 0 <= i < |hs + [x]| ==> Recordable(source, m, (hs + [x])[i])
    ensures RecordAll(source, m, hs + [x]) == RecordAll(source, m, hs) + [Record(source, m, x)]
  {
    hide Recordable, Record;
  }

  function Stripped(rs: seq<Recorded>): seq<Violation> {
    seq(|rs|, i requires 0 <= i < |rs| => rs[i].violation)
  }

  /** Every true hit of the decoded sheet can be recorded. */
  lemma HitsRecordable(source: Text, t: Text, m: seq<nat>)
    requires Aligned(t, m, |source|)
    ensures forall i :: 0 <= i < |RecordedHits(t)| ==> Recordable(source, m, RecordedHits(t)[i])
    ensures forall i :: 0 <= i < |AllHits(t)| ==> Recordable(source, m, AllHits(t)[i])
  {
    hide RecordedHits, AllHits, TrueHit;
    RecordedStartsDistinct(t);
    AllHitsOrdered(t);
    forall h | TrueHit(t, h) ensures Recordable(source, m, h) {
      TrueHitBounds(t, h);
    }
  }

  /** What the validator returns: one violation for each hit of the decoded
      sheet, in the order of the text. */
  function Violations(source: Text): (vs: seq<Violation>)
    ensures |vs| == |AllHits(FixedPoint(source).text)|
  {
    FixedPointAligned(source);
    var d := FixedPoint(source);
    HitsRecordable(source, d.text, d.map_);
    Stripped(RecordAll(source, d.map_, AllHits(d.text)))
  }

  // ---------------------------------------------------------------------
  // Order, slices, completeness
  // ---------------------------------------------------------------------

  /** The map takes the hits of a sheet, in order, to strictly increasing offsets. */
  lemma HitOffsetsAscend(t: Text, m: seq<nat>, n: nat, h: Hit, g: Hit)
    requires Aligned(t, m, n) && TrueHit(t, h) && TrueHit(t, g) && h.start < g.start
    ensures m[h.start] < m[g.start]
  {
    hide TrueHit, Aligned;
    TrueHitBounds(t, h);
    TrueHitBounds(t, g);
    AlignedOrder(t, m, n, h.start, g.start);
  }

  lemma RecordIsSlice(source: Text, m: seq<nat>, h: Hit)
    requires Recordable(source, m, h)
    ensures IsSlice(source, m[h.start], ConstructEnd(m, h), Record(source, m, h).violation)
  {}

  /** Violations come out in strictly increasing source position, and each
      construct is a non-empty slice of the source that starts at that position,
      cut after eighty units. */
  lemma ViolationsAscend(source: Text)
    ensures var vs := Violations(source);
            && (forall i, j :: 0 <= i < j < |vs| ==> Before(vs[i].position, vs[j].position))
            && forall i :: 0 <= i < |vs| ==>
                 NamesSlice(source, vs[i])
  {
    hide Aligned, AllHits, TrueHit, FixedPoint, RecordedHits;
    var d := FixedPoint(source);
    FixedPointAligned(source);
    HitsRecordable(source, d.text, d.map_);
    AllHitsOrdered(d.text);
    var hs, vs := AllHits(d.text), Violations(source);
    forall i, j | 0 <= i < j < |vs| ensures Before(vs[i].position, vs[j].position) {
      HitOffsetsAscend(d.text, d.map_, |source|, hs[i], hs[j]);
      PositionOrder(source, d.map_[hs[i].start], d.map_[hs[j].start]);
    }
    forall i | 0 <= i < |vs| ensures NamesSlice(source, vs[i]) {
      RecordIsSlice(source, d.map_, hs[i]);
      var a, b := d.map_[hs[i].start], ConstructEnd(d.map_, hs[i]);
      assert vs[i] == Record(source, d.map_, hs[i]).violation;
      assert IsSlice(source, a, b, vs[i]);
    }
  }

  ghost predicate NamesSlice(source: Text, v: Violation) {
    exists a: nat, b: nat :: IsSlice(source, a, b, v)
  }

  ghost predicate IsSlice(source: Text, a: nat, b: nat, v: Violation) {
    && a < b <= |source|
    && v.construct == Shown(source[a..b])
    && v.position == PositionOf(source, a)
  }

  /** A construct spans its match: it ends one unit past the start of the source
      of the last decoded unit, which lies at or after its own start. */
  lemma ConstructSpansMatch(source: Text, h: Hit)
    requires h in AllHits(FixedPoint(source).text)
    ensures var m := FixedPoint(source).map_;
            && 0 < h.length && h.start + h.length <= |m|
            && m[h.start] <= m[h.start + h.length - 1]
            && ConstructEnd(m, h) == m[h.start + h.length - 1] + 1
  {
    hide Aligned, AllHits, FixedPoint, RecordedHits, Recordable, ConstructEnd;
    var d := FixedPoint(source);
    FixedPointAligned(source);
    HitsRecordable(source, d.text, d.map_);
    SpanOrdered(source, d.text, d.map_, h);
  }

  lemma SpanOrdered(source: Text, t: Text, m: seq<nat>, h: Hit)
    requires Aligned(t, m, |source|) && Recordable(source, m, h)
    ensures h.start + h.length <= |m| && m[h.start] <= m[h.start + h.length - 1]
    ensures 0 < h.length && ConstructEnd(m, h) == m[h.start + h.length - 1] + 1
  {
    MapHasTextLength(t, m, |source|);
    hide Aligned;
    AlignedOrder(t, m, |source|, h.start, h.start + h.length - 1);
  }

  lemma MapHasTextLength(t: Text, m: seq<nat>, n: nat)
    requires Aligned(t, m, n)
    ensures |m| == |t|
  {}

  /** A sheet passes exactly when its decoded text holds no sheet-pulling at-rule
      anywhere and no forbidden `url()` that the scan does not read as part of an
      earlier `url()`. */
  lemma PassesExactly(source: Text)
    ensures var t := FixedPoint(source).text;
            Violations(source) == [] <==>
            && (forall i :: 0 <= i < |t| ==> AtRuleLength(t[i..]) == 0)
            && (forall i :: 0 <= i < |t| && MatchLength(Urls, t[i..]) > 0 && Covering(Urls, t, 0, i) == i ==>
                  Verdict(Urls, t[i..]) == None)
  {
    hide Aligned, AllHits, FixedPoint, MatchLength, Verdict, Covering, AtRuleLength, Hits;
    var t := FixedPoint(source).text;
    AllHitsOrdered(t);
    if Violations(source) == [] {
      NoHits(t);
      forall i | 0 <= i < |t| ensures AtRuleLength(t[i..]) == 0 {
        if AtRuleLength(t[i..]) > 0 { EveryAtRuleIsHit(t, 0, i); }
      }
      forall i | 0 <= i < |t| && MatchLength(Urls, t[i..]) > 0 && Covering(Urls, t, 0, i) == i
        ensures Verdict(Urls, t[i..]) == None
      {
        if Verdict(Urls, t[i..]).Some? { EveryUrlIsHitOrCovered(Urls, t, 0, i); }
      }
    } else {
      FirstHitRefutes(t);
    }
  }

  lemma NoHits(t: Text)
    requires AllHits(t) == []
    ensures Hits(AtRules, t, 0) == [] && Hits(Urls, t, 0) == []
  {
    hide AllHits, Hits;
    AllHitsOrdered(t);
  }

  lemma FirstHitRefutes(t: Text)
    requires AllHits(t) != []
    ensures (exists i :: 0 <= i < |t| && AtRuleLength(t[i..]) > 0)
         || (exists i ::
               && 0 <= i < |t| && MatchLength(Urls, t[i..]) > 0
               && Covering(Urls, t, 0, i) == i && Verdict(Urls, t[i..]).Some?)
  {
    hide AllHits, MatchLength, Verdict, Covering, AtRuleLength, Hits;
    AllHitsOrdered(t);
    var h := AllHits(t)[0];
    assert h in RecordedHits(t);
    if h in Hits(AtRules, t, 0) {
      HitsAreMatches(AtRules, t, 0);
      MatchIsAtRule(t[h.start..]);
    } else {
      HitsAreMatches(Urls, t, 0);
      HitsCoverThemselves(Urls, t, 0, h);
    }
  }

  lemma MatchIsAtRule(t: Text)
    ensures MatchLength(AtRules, t) == AtRuleLength(t)
  {}

  lemma {:induction false} HitsCoverThemselves(k: Scanner, t: Text, at: nat, h: Hit)
    requires at <= |t| && h in Hits(k, t, at)
    ensures at <= h.start < |t| && Covering(k, t, at, h.start) == h.start
    decreases |t| - at
  {
    hide MatchLength, Verdict;
    var n := MatchLength(k, t[at..]);
    HitsAreMatches(k, t, at);
    if n == 0 {
      HitsCoverThemselves(k, t, at + 1, h);
    } else if h.start != at {
      HitsCoverThemselves(k, t, at + n, h);
    }
  }

  /** The violation reported for a hit. */
  lemma ViolationAt(source: Text, i: nat)
    requires i < |AllHits(FixedPoint(source).text)|
    ensures var h, m := AllHits(FixedPoint(source).text)[i], FixedPoint(source).map_;
            && h.start < |m| && i < |Violations(source)|
            && Violations(source)[i].rule == h.rule
            && Violations(source)[i].position == PositionOf(source, m[h.start])
            && 0 < h.length && h.start + h.length <= |m|
            && m[h.start] < ConstructEnd(m, h) <= |source|
            && Violations(source)[i].construct == Shown(source[m[h.start]..ConstructEnd(m, h)])
  {
    hide AllHits, FixedPoint, Aligned, RecordedHits;
    var d := FixedPoint(source);
    FixedPointAligned(source);
    HitsRecordable(source, d.text, d.map_);
  }

  /** The construct ends where the source of the hit's last unit ends, unless an
      escape starts where that unit comes from: then it is cut short. */
  ghost predicate WholeUnlessEscaped(source: Text, m: seq<nat>, ends: seq<nat>, h: Hit) {
    && 0 < h.length && h.start + h.length <= |m| == |ends|
    && var last := h.start + h.length - 1;
    && m[last] <= |source|
    && ConstructEnd(m, h) <= ends[last]
    && (ConstructEnd(m, h) == ends[last] <==> EscapeLength(source[m[last]..]) == 0)
  }

  /** The construct reported for a hit reaches the end of what was written for it
      exactly when its last decoded unit is not written as an escape. */
  lemma ConstructIsWholeIff(source: Text, h: Hit)
    requires h in AllHits(FixedPoint(source).text)
    ensures WholeUnlessEscaped(source, FixedPoint(source).map_, FixedPointEnds(source), h)
  {
    hide *;
    ConstructSpansMatch(source, h);
    FixedPointSpans(source);
    var d, ends := FixedPoint(source), FixedPointEnds(source);
    SpanAt(source, d.text, d.map_, ends, h.start + h.length - 1);
    WholeMeans(source, d.map_, ends, h);
  }

  lemma WholeMeans(source: Text, m: seq<nat>, ends: seq<nat>, h: Hit)
    requires 0 < h.length && h.start + h.length <= |m| == |ends|
    requires var last := h.start + h.length - 1;
             && m[last] < ends[last] <= |source|
             && ConstructEnd(m, h) == m[last] + 1
             && (ends[last] == m[last] + 1 <==> EscapeLength(source[m[last]..]) == 0)
    ensures WholeUnlessEscaped(source, m, ends, h)
  {
    hide EscapeLength, ConstructEnd;
  }

  // ---------------------------------------------------------------------
  // The program
  // ---------------------------------------------------------------------

  /** The map orders the two hits as their starts do. */
  ghost predicate SameOrder(m: seq<nat>, h: Hit, g: Hit) {
    h.start < |m| && g.start < |m| && (h.start <= g.start <==> m[h.start] <= m[g.start])
  }

  /** Sorting the records by source offset is recording the hits sorted by start. */
  lemma {:induction false} InsertCommutes(source: Text, m: seq<nat>, x: Hit, hs: seq<Hit>)
    requires Recordable(source, m, x)
    requires forall i :: 0 <= i < |hs| ==> Recordable(source, m, hs[i])
    requires forall i :: 0 <= i < |hs| ==> SameOrder(m, hs[i], x)
    ensures forall i :: 0 <= i < |InsertBy(x, hs, StartOf)| ==> Recordable(source, m, InsertBy(x, hs, StartOf)[i])
    ensures InsertBy(Record(source, m, x), RecordAll(source, m, hs), OffsetKey)
         == RecordAll(source, m, InsertBy(x, hs, StartOf))
    decreases |hs|
  {
    hide Recordable, RecordAll, Record;
    var rs := RecordAll(source, m, hs);
    if hs == [] || hs[|hs| - 1].start <= x.start {
      RecordAllAppend(source, m, hs, x);
    } else {
      var front, last := hs[..|hs| - 1], hs[|hs| - 1];
      assert hs == front + [last];
      RecordAllAppend(source, m, front, last);
      assert rs[..|rs| - 1] == RecordAll(source, m, front);
      InsertCommutes(source, m, x, front);
      RecordAllAppend(source, m, InsertBy(x, front, StartOf), last);
    }
  }

  lemma {:induction false} SortCommutes(source: Text, m: seq<nat>, hs: seq<Hit>)
    requires forall i :: 0 <= i < |hs| ==> Recordable(source, m, hs[i])
    requires forall i, j :: 0 <= i < |hs| && 0 <= j < |hs| ==> SameOrder(m, hs[i], hs[j])
    requires forall i, j :: 0 <= i < j < |hs| ==> hs[i].start != hs[j].start
    ensures forall i :: 0 <= i < |SortBy(hs, StartOf)| ==> Recordable(source, m, SortBy(hs, StartOf)[i])
    ensures SortBy(RecordAll(source, m, hs), OffsetKey) == RecordAll(source, m, SortBy(hs, StartOf))
    decreases |hs|
  {
    hide Recordable, InsertBy, RecordAll, Record, SameOrder;
    if hs == [] { return; }
    var front, last := hs[..|hs| - 1], hs[|hs| - 1];
    assert hs == front + [last];
    SortCommutes(source, m, front);
    RecordAllAppend(source, m, front, last);
    var rs := RecordAll(source, m, hs);
    assert rs[..|rs| - 1] == RecordAll(source, m, front);
    var sorted := SortBy(front, StartOf);
    SortByAscends(front, StartOf);
    forall i | 0 <= i < |sorted| ensures SameOrder(m, sorted[i], last) {
      assert sorted[i] in sorted && sorted[i] in front;
      var j :| 0 <= j < |front| && front[j] == sorted[i];
      assert hs[j] == sorted[i];
    }
    InsertCommutes(source, m, last, sorted);
  }

  lemma HitsUnfold(k: Scanner, t: Text, at: nat)
    requires at < |t| && MatchLength(k, t[at..]) > 0
    ensures var n := MatchLength(k, t[at..]);
            Hits(k, t, at) == (match Verdict(k, t[at..]) case Some(rule) => [Hit(rule, at, n)] case None => [])
                + Hits(k, t, at + n)
  {
    hide MatchLength, Verdict;
  }

  /** `exec` from `from`: the start of the leftmost match, or the length. */
  method NextMatch(k: Scanner, text: Text, from: nat) returns (i: nat)
    requires from <= |text|
    ensures from <= i <= |text|
    ensures i < |text| ==> MatchLength(k, text[i..]) > 0
    ensures Hits(k, text, from) == Hits(k, text, i)
    ensures i == |text| ==> Hits(k, text, i) == []
  {
    hide MatchLength, Verdict;
    i := from;
    while i < |text| && MatchLength(k, text[i..]) == 0
      invariant from <= i <= |text|
      invariant Hits(k, text, from) == Hits(k, text, i)
    {
      i := i + 1;
    }
  }

  /** The inner `record`: push one violation. */
  method PushRecord(source: Text, map_: seq<nat>, h: Hit, violations: seq<Recorded>) returns (r: seq<Recorded>)
    requires Recordable(source, map_, h)
    ensures r == violations + [Record(source, map_, h)]
  {
    var start := map_[h.start];
    var end := map_[h.start + h.length - 1] + 1;
    var construct := source[start..if end > start + 1 then end else start + 1];
    var shown := if |construct| > CONSTRUCT_MAX then construct[..CONSTRUCT_MAX] + [ELLIPSIS] else construct;
    var position := PositionAt(source, start);
    r := violations + [Recorded(Violation(h.rule, shown, position), start)];
  }

  lemma Regroup(done: seq<Hit>, h: Hit, rest: seq<Hit>)
    ensures done + ([h] + rest) == done + [h] + rest && (done + ([h] + rest))[|done|] == h
  {}

  /** One of the two `exec` loops: push a violation for every match it refuses. */
  method PushAll(k: Scanner, source: Text, text: Text, map_: seq<nat>, violations: seq<Recorded>)
    returns (r: seq<Recorded>)
    requires forall i :: 0 <= i < |Hits(k, text, 0)| ==> Recordable(source, map_, Hits(k, text, 0)[i])
    ensures r == violations + RecordAll(source, map_, Hits(k, text, 0))
  {
    hide MatchLength, Verdict, Recordable, Record, RecordAll, Hits;
    r := violations;
    ghost var done: seq<Hit> := [];
    var m := NextMatch(k, text, 0);
    while m < |text|
      invariant m <= |text|
      invariant m < |text| ==> MatchLength(k, text[m..]) > 0
      invariant done + Hits(k, text, m) == Hits(k, text, 0)
      invariant m == |text| ==> Hits(k, text, m) == []
      invariant forall i :: 0 <= i < |done| ==> Recordable(source, map_, done[i])
      invariant r == violations + RecordAll(source, map_, done)
      decreases |text| - m
    {
      var length := MatchLength(k, text[m..]);
      HitsUnfold(k, text, m);
      match Verdict(k, text[m..]) {
        case Some(rule) =>
          var h := Hit(rule, m, length);
          ghost var rest := Hits(k, text, m + length);
          Regroup(done, h, rest);
          assert h == Hits(k, text, 0)[|done|];
          r := PushRecord(source, map_, h, r);
          RecordAllAppend(source, map_, done, h);
          done := done + [h];
        case None =>
      }
      m := NextMatch(k, text, m + length);
    }
  }

  /** The validator, as the program runs it. */
  method CssValidate(source: Text) returns (vs: seq<Violation>)
    ensures vs == Violations(source)
  {
    hide *;
    var text, map_ := DecodeToFixedPoint(source);
    FixedPointAligned(source);
    HitsRecordable(source, text, map_);
    RecordedTogether(source, text, map_);
    var violations := PushAll(AtRules, source, text, map_, []);
    violations := PushAll(Urls, source, text, map_, violations);
    RecordedStartsDistinct(text);
    OffsetsFollowStarts(text, map_, |source|, RecordedHits(text));
    SortCommutes(source, map_, RecordedHits(text));
    ViolationsAre(source, text, map_);
    vs := Stripped(SortBy(violations, OffsetKey));
  }

  /** What the two scans record, one after the other. */
  lemma RecordedTogether(source: Text, t: Text, m: seq<nat>)
    requires forall i :: 0 <= i < |RecordedHits(t)| ==> Recordable(source, m, RecordedHits(t)[i])
    ensures forall i :: 0 <= i < |Hits(AtRules, t, 0)| ==> Recordable(source, m, Hits(AtRules, t, 0)[i])
    ensures forall i :: 0 <= i < |Hits(Urls, t, 0)| ==> Recordable(source, m, Hits(Urls, t, 0)[i])
    ensures [] + RecordAll(source, m, Hits(AtRules, t, 0)) + RecordAll(source, m, Hits(Urls, t, 0))
         == RecordAll(source, m, RecordedHits(t))
  {
    hide Hits, Recordable, Record, RecordAll;
    assert RecordedHits(t) == Hits(AtRules, t, 0) + Hits(Urls, t, 0);
    RecordAllConcat(source, m, Hits(AtRules, t, 0), Hits(Urls, t, 0));
  }

  lemma RecordAllConcat(source: Text, m: seq<nat>, a: seq<Hit>, b: seq<Hit>)
    requires forall i :: 0 <= i < |a + b| ==> Recordable(source, m, (a + b)[i])
    ensures forall i :: 0 <= i < |a| ==> Recordable(source, m, a[i])
    ensures forall i :: 0 <= i < |b| ==> Recordable(source, m, b[i])
    ensures [] + RecordAll(source, m, a) + RecordAll(source, m, b) == RecordAll(source, m, a + b)
  {
    hide Recordable, Record;
    assert forall i :: 0 <= i < |a| ==> (a + b)[i] == a[i];
    assert forall i :: 0 <= i < |b| ==> (a + b)[|a| + i] == b[i];
  }

  lemma ViolationsAre(source: Text, t: Text, m: seq<nat>)
    requires Decoded(t, m) == FixedPoint(source)
    requires forall i :: 0 <= i < |AllHits(t)| ==> Recordable(source, m, AllHits(t)[i])
    ensures AllHits(t) == SortBy(RecordedHits(t), StartOf)
    ensures Violations(source) == Stripped(RecordAll(source, m, AllHits(t)))
  {
    hide FixedPoint, SortBy, RecordedHits, Recordable, RecordAll;
  }

  lemma OffsetsFollowStarts(t: Text, m: seq<nat>, n: nat, hs: seq<Hit>)
    requires Aligned(t, m, n)
    requires forall i :: 0 <= i < |hs| ==> TrueHit(t, hs[i])
    ensures forall i, j :: 0 <= i < |hs| && 0 <= j < |hs| ==> SameOrder(m, hs[i], hs[j])
  {
    hide TrueHit;
    forall i, j | 0 <= i < |hs| && 0 <= j < |hs| ensures SameOrder(m, hs[i], hs[j]) {
      TrueHitBounds(t, hs[i]);
      TrueHitBounds(t, hs[j]);
      if hs[i].start < hs[j].start { HitOffsetsAscend(t, m, n, hs[i], hs[j]); }
      if hs[j].start < hs[i].start { HitOffsetsAscend(t, m, n, hs[j], hs[i]); }
    }
  }
}
