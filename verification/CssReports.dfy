/**
 What the validator reports for a sheet without backslashes, told from the units
 of the sheet (`src/lib/cssValidate.ts`). What it reports for any spelling of
 such a sheet is the same (`CssEscaping.BackslashFreeHidesNothing`).
 */
module CssReports {
  import opened Texts
  import opened CssEscapes
  import opened CssSpellings
  import opened CssScan
  import opened CssForms
  import opened SourcePositions
  import opened CssValidate
  import CssEscaping

  /** `v` shows the `n` units at `i`, cut after eighty, under this rule and at
      their place. */
  ghost predicate Reports(source: Text, i: nat, n: nat, rule: Rule, v: Violation) {
    && 0 < n && i + n <= |source|
    && v.rule == rule
    && v.position == PositionOf(source, i)
    && (n <= 80 ==> v.construct == source[i..i + n])
    && (n > 80 ==> v.construct == source[i..i + 80] + [0x2026])
  }

  /** What stands at `i`, `n` units long, breaks the rule: one of the three at-rules,
      or a `url( )` with a refused target that lies in no earlier `url( )`. */
  ghost predicate Breaks(source: Text, i: nat, n: nat, rule: Rule) {
    && 0 < n && i < |source|
    && (BreaksAtRule(source[i..], n, rule)
        || (BreaksUrl(source[i..], n, rule) && Covering(Urls, source, 0, i) == i))
  }

  ghost predicate BreaksAtRule(t: Text, n: nat, rule: Rule) {
    rule == AtRule && exists word :: PullsSheet(word) && WritesAtRule(t, word) && n == |word| + 1
  }

  ghost predicate BreaksUrl(t: Text, n: nat, rule: Rule) {
    n > 0 && exists target :: UrlWritten(t, n - 1, target) && RefusedBy(Trim(target), rule)
  }

  // ---------------------------------------------------------------------
  // What breaks a rule is a hit
  // ---------------------------------------------------------------------

  lemma UrlVerdict(t: Text, n: nat, rule: Rule)
    requires n > 0
    ensures BreaksUrl(t, n, rule) <==> MatchLength(Urls, t) == n && Verdict(Urls, t) == Some(rule)
  {
    hide ReadUrl, UrlWritten, RefusedBy, ClassifyUrlTarget, Trim;
    if BreaksUrl(t, n, rule) {
      var target :| UrlWritten(t, n - 1, target) && RefusedBy(Trim(target), rule);
      ReadUrlExactly(t, n, target);
      RuleExactly(target, rule);
    }
    if MatchLength(Urls, t) == n && Verdict(Urls, t) == Some(rule) {
      ReadUrlExactly(t, n, ReadUrl(t).target);
      RuleExactly(ReadUrl(t).target, rule);
    }
  }

  /** The scans hit exactly what breaks a rule. */
  lemma HitBreaks(t: Text, h: Hit)
    ensures h in AllHits(t) <==> Breaks(t, h.start, h.length, h.rule)
  {
    hide *;
    AllHitsOrdered(t);
    RecordedIs(t, h);
    if h in Hits(AtRules, t, 0) { AtRuleHitBreaks(t, h); }
    if h in Hits(Urls, t, 0) { UrlHitBreaks(t, h); }
    BreaksMeans(t, h.start, h.length, h.rule);
    if Breaks(t, h.start, h.length, h.rule) { BreakIsHit(t, h); }
  }

  lemma RecordedIs(t: Text, h: Hit)
    ensures h in RecordedHits(t) <==> h in Hits(AtRules, t, 0) || h in Hits(Urls, t, 0)
  {
    hide Hits;
  }

  lemma BreaksMeans(t: Text, i: nat, n: nat, rule: Rule)
    ensures Breaks(t, i, n, rule) <==>
              && 0 < n && i < |t|
              && (BreaksAtRule(t[i..], n, rule) || (BreaksUrl(t[i..], n, rule) && Covering(Urls, t, 0, i) == i))
  {
    hide BreaksAtRule, BreaksUrl, Covering;
  }

  lemma AtRuleHitBreaks(t: Text, h: Hit)
    requires h in Hits(AtRules, t, 0)
    ensures 0 < h.length && h.start < |t| && BreaksAtRule(t[h.start..], h.length, h.rule)
  {
    hide PullsSheet, WritesAtRule, Hits, AtRuleLength;
    HitsAreMatches(AtRules, t, 0);
    AtRuleExactly(t[h.start..], h.length);
  }

  lemma UrlHitBreaks(t: Text, h: Hit)
    requires h in Hits(Urls, t, 0)
    ensures 0 < h.length && h.start < |t| && BreaksUrl(t[h.start..], h.length, h.rule)
    ensures Covering(Urls, t, 0, h.start) == h.start
  {
    hide BreaksUrl, Hits, Covering, MatchLength, Verdict;
    HitsAreMatches(Urls, t, 0);
    HitsCoverThemselves(Urls, t, 0, h);
    UrlVerdict(t[h.start..], h.length, h.rule);
  }

  lemma BreakIsHit(t: Text, h: Hit)
    requires Breaks(t, h.start, h.length, h.rule)
    ensures h in Hits(AtRules, t, 0) || h in Hits(Urls, t, 0)
  {
    hide PullsSheet, WritesAtRule, UrlWritten, RefusedBy, Hits, AtRuleLength, Covering, MatchLength, Verdict;
    var s := t[h.start..];
    if BreaksAtRule(s, h.length, h.rule) {
      AtRuleExactly(s, h.length);
      EveryAtRuleIsHit(t, 0, h.start);
    } else {
      UrlVerdict(s, h.length, h.rule);
      EveryUrlIsHitOrCovered(Urls, t, 0, h.start);
    }
  }

  // ---------------------------------------------------------------------
  // What is reported
  // ---------------------------------------------------------------------

  lemma ShownIs(source: Text, i: nat, n: nat, v: Violation)
    requires 0 < n && i + n <= |source|
    requires v.position == PositionOf(source, i) && v.construct == Shown(source[i..i + n])
    ensures Reports(source, i, n, v.rule, v)
  {
    if n > 80 { assert source[i..i + n][..80] == source[i..i + 80]; }
  }

  /** In a backslash-free sheet the violations report its hits, one by one. */
  lemma PlainViolation(source: Text, k: nat)
    requires BACKSLASH !in source && k < |AllHits(source)|
    ensures |Violations(source)| == |AllHits(source)|
    ensures var h := AllHits(source)[k]; Reports(source, h.start, h.length, h.rule, Violations(source)[k])
  {
    hide *;
    CssEscaping.PlainSheetIsItself(source);
    CssEscaping.ViolationsAreHits(source);
    ViolationAt(source, k);
    var h, v, m := AllHits(source)[k], Violations(source)[k], Range(0, |source|);
    assert h in AllHits(source);
    ConstructSpansMatch(source, h);
    assert m[h.start] == h.start && m[h.start + h.length - 1] == h.start + h.length - 1;
    ShownIs(source, h.start, h.length, v);
  }

  lemma ReportsNoMore(source: Text)
    requires BACKSLASH !in source
    ensures |Violations(source)| == |AllHits(source)|
  {
    hide *;
    CssEscaping.PlainSheetIsItself(source);
    CssEscaping.ViolationsAreHits(source);
  }

  ghost predicate IsReported(source: Text, v: Violation) {
    exists i: nat, n: nat :: Breaks(source, i, n, v.rule) && Reports(source, i, n, v.rule, v)
  }

  lemma SameReport(source: Text, i: nat, n: nat, rule: Rule, v: Violation, w: Violation)
    requires Reports(source, i, n, rule, v) && Reports(source, i, n, rule, w)
    ensures v == w
  {
    hide PositionOf;
  }

  lemma ViolationIsReported(source: Text, v: Violation)
    requires BACKSLASH !in source && v in Violations(source)
    ensures IsReported(source, v)
  {
    hide *;
    ReportsNoMore(source);
    var k :| 0 <= k < |Violations(source)| && Violations(source)[k] == v;
    var h := AllHits(source)[k];
    assert h in AllHits(source);
    PlainViolation(source, k);
    HitBreaks(source, h);
    RuleOf(source, h.start, h.length, h.rule, v);
    ReportedBy(source, h.start, h.length, v);
  }

  lemma ReportedBy(source: Text, i: nat, n: nat, v: Violation)
    requires Breaks(source, i, n, v.rule) && Reports(source, i, n, v.rule, v)
    ensures IsReported(source, v)
  {
    hide Breaks, Reports;
  }

  lemma RuleOf(source: Text, i: nat, n: nat, rule: Rule, v: Violation)
    requires Reports(source, i, n, rule, v)
    ensures v.rule == rule
  {}

  lemma BreakIsReported(source: Text, i: nat, n: nat, rule: Rule) returns (v: Violation)
    requires BACKSLASH !in source && Breaks(source, i, n, rule)
    ensures v in Violations(source) && Reports(source, i, n, rule, v)
  {
    hide *;
    ReportsNoMore(source);
    var h := Hit(rule, i, n);
    HitBreaks(source, h);
    var k :| 0 <= k < |AllHits(source)| && AllHits(source)[k] == h;
    PlainViolation(source, k);
    v := Violations(source)[k];
  }

  lemma ReportedIsViolation(source: Text, v: Violation)
    requires BACKSLASH !in source && IsReported(source, v)
    ensures v in Violations(source)
  {
    hide Violations, Breaks, Reports, PositionOf;
    var i: nat, n: nat :| Breaks(source, i, n, v.rule) && Reports(source, i, n, v.rule, v);
    var w := BreakIsReported(source, i, n, v.rule);
    SameReport(source, i, n, v.rule, v, w);
  }

  /** For a backslash-free sheet exactly what breaks a rule is reported: each of the
      three at-rules, and each `url( )` outside earlier ones whose target, without
      its quotes and trimmed, is a `data:` URI, names a host, or names a scheme. */
  lemma ReportsExactly(source: Text, v: Violation)
    requires BACKSLASH !in source
    ensures v in Violations(source) <==> IsReported(source, v)
  {
    hide *;
    if v in Violations(source) { ViolationIsReported(source, v); }
    if IsReported(source, v) { ReportedIsViolation(source, v); }
  }

  // ---------------------------------------------------------------------
  // A quoted address
  // ---------------------------------------------------------------------

  ghost predicate AllBlank(t: Text) { forall k :: 0 <= k < |t| ==> IsSpace(t[k]) }

  /** `url(` in any case, blanks, a quoted text without that quote, blanks, `)`. */
  ghost predicate IsQuotedUrl(t: Text, head: Text, blanks: Text, quote: Unit, q: Text, more: Text) {
    && |head| == 4 && StartsWithFold(head, Lit("url("))
    && AllBlank(blanks) && AllBlank(more)
    && (quote == 0x22 || quote == 0x27) && quote !in q
    && t == head + blanks + [quote] + q + [quote] + more + [0x29]
  }

  lemma HeadStays(head: Text, rest: Text, word: Text)
    requires StartsWithFold(head, word)
    ensures StartsWithFold(head + rest, word)
  {}

  lemma OpensWith(head: Text, blanks: Text, rest: Text)
    requires |head| == 4 && StartsWithFold(head, Lit("url(")) && AllBlank(blanks)
    requires rest != [] && !IsSpace(rest[0])
    ensures Opens(head + blanks + rest, 4 + |blanks|)
  {
    hide IsSpace, StartsWithFold, Lit;
    HeadStays(head, blanks + rest, Lit("url("));
    assert head + blanks + rest == head + (blanks + rest);
  }

  lemma ClosesAfter(front: Text, more: Text, after: Text)
    requires AllBlank(more)
    ensures Closes(front + more + [0x29] + after, |front|, |front| + |more|)
  {
    hide IsSpace;
  }

  lemma QuotedBehind(front: Text, quote: Unit, q: Text, back: Text)
    requires (quote == 0x22 || quote == 0x27) && quote !in q
    ensures var s, a, b := front + [quote] + q + [quote] + back, |front|, |front| + |q| + 2;
            s[a] == quote && QuotedBody(s, a, b) && s[a + 1..b - 1] == q
  {
    var s := front + [quote] + q + [quote] + back;
    assert forall k :: |front| < k < |front| + |q| + 1 ==> s[k] == q[k - |front| - 1];
  }

  lemma QuoteIsNoBlank(quote: Unit)
    requires quote == 0x22 || quote == 0x27
    ensures !IsSpace(quote)
  {}

  lemma ThreeWays(head: Text, blanks: Text, quote: Text, q: Text, more: Text, close: Text, after: Text)
    ensures var s := head + blanks + quote + q + quote + more + close + after;
            && s == head + blanks + (quote + q + quote + more + close + after)
            && s == (head + blanks) + quote + q + quote + (more + close + after)
            && s == (head + blanks + quote + q + quote) + more + close + after
  {}

  /** Whatever follows, the quoted text is the target. */
  lemma QuotedUrlIsWritten(t: Text, head: Text, blanks: Text, quote: Unit, q: Text, more: Text, after: Text)
    requires IsQuotedUrl(t, head, blanks, quote, q, more)
    ensures t != [] && UrlWritten(t + after, |t| - 1, q)
  {
    hide IsSpace, StartsWithFold, Lit, AllBlank, Opens, Closes, QuotedBody, UrlWritten;
    var a := 4 + |blanks|;
    var b := a + |q| + 2;
    ThreeWays(head, blanks, [quote], q, more, [0x29], after);
    QuoteIsNoBlank(quote);
    OpensWith(head, blanks, [quote] + q + [quote] + more + [0x29] + after);
    QuotedBehind(head + blanks, quote, q, more + [0x29] + after);
    ClosesAfter(head + blanks + [quote] + q + [quote], more, after);
    IsWritten(t + after, a, b, |t| - 1, q);
  }

  lemma QuotedUrlIsRead(
    before: Text, t: Text, head: Text, blanks: Text, quote: Unit, q: Text, more: Text, after: Text)
    requires IsQuotedUrl(t, head, blanks, quote, q, more)
    ensures var source := before + t + after;
            && t != [] && UrlWritten(source[|before|..], |t| - 1, q)
            && ReadUrl(source[|before|..]) == Url(|t|, q)
  {
    hide *;
    assert (before + t + after)[|before|..] == t + after;
    QuotedUrlIsWritten(t, head, blanks, quote, q, more, after);
    UrlWrittenIsRead(t + after, |t| - 1, q);
  }

  /** A quoted address outside earlier `url( )`s is reported, whole, under the rule
      that its text breaks: as `data:`, as another host, as a scheme. Under no other
      rule is anything reported at its place. */
  lemma QuotedUrlReported(
    before: Text, t: Text, head: Text, blanks: Text, quote: Unit, q: Text, more: Text, after: Text, rule: Rule)
    requires IsQuotedUrl(t, head, blanks, quote, q, more) && BACKSLASH !in before + t + after
    requires Covering(Urls, before + t + after, 0, |before|) == |before|
    ensures var source := before + t + after;
            && (RefusedBy(Trim(q), rule) ==>
                  exists v :: v in Violations(source) && Reports(source, |before|, |t|, rule, v))
            && (!RefusedBy(Trim(q), rule) ==>
                  forall v :: v in Violations(source) && v.rule == rule ==> v.position != PositionOf(source, |before|))
  {
    hide *;
    var source := before + t + after;
    QuotedUrlIsRead(before, t, head, blanks, quote, q, more, after);
    RuleExactly(q, rule);
    if RefusedBy(Trim(q), rule) {
      BreaksHere(source, |before|, |t|, q, rule);
      var v := BreakIsReported(source, |before|, |t|, rule);
    } else {
      forall v | v in Violations(source) && v.rule == rule ensures v.position != PositionOf(source, |before|) {
        if v.position == PositionOf(source, |before|) {
          ReportedHere(source, |before|, v);
        }
      }
    }
  }

  lemma BreaksHere(source: Text, i: nat, n: nat, target: Text, rule: Rule)
    requires n > 0 && i < |source| && Covering(Urls, source, 0, i) == i
    requires UrlWritten(source[i..], n - 1, target) && RefusedBy(Trim(target), rule)
    ensures Breaks(source, i, n, rule)
  {
    hide UrlWritten, RefusedBy, Trim, Covering;
  }

  /** What is reported at the place of a `url( )` is what is written there. */
  lemma ReportedHere(source: Text, i: nat, v: Violation)
    requires BACKSLASH !in source && i < |source| && ReadUrl(source[i..]).Url?
    requires v in Violations(source) && v.position == PositionOf(source, i)
    ensures ClassifyUrlTarget(ReadUrl(source[i..]).target) == Some(v.rule)
  {
    hide Violations, Breaks, Reports, PositionOf, ReadUrl, ClassifyUrlTarget;
    ViolationIsReported(source, v);
    var j: nat, n: nat :| Breaks(source, j, n, v.rule) && Reports(source, j, n, v.rule, v);
    SamePlace(source, i, j, n, v);
    BreaksAsUrl(source, i, n, v.rule);
  }

  lemma SamePlace(source: Text, i: nat, j: nat, n: nat, v: Violation)
    requires v.position == PositionOf(source, i) && Reports(source, j, n, v.rule, v)
    ensures i == j
  {
    PositionOrder(source, i, j);
    PositionOrder(source, j, i);
    hide PositionOf;
  }

  lemma BreaksAsUrl(source: Text, i: nat, n: nat, rule: Rule)
    requires Breaks(source, i, n, rule) && ReadUrl(source[i..]).Url?
    ensures ClassifyUrlTarget(ReadUrl(source[i..]).target) == Some(rule)
  {
    ReadUrlIsMatch(source[i..]);
    UrlVerdict(source[i..], n, rule);
    hide BreaksUrl, ReadUrl, ClassifyUrlTarget, Covering, PullsSheet;
  }

  /** What swallows a place in a scan is a match before it that reaches past it. */
  lemma {:induction false} CoveringMeans(k: Scanner, t: Text, at: nat, i: nat)
    requires at <= i < |t|
    ensures var c := Covering(k, t, at, i); c == i || i < c + MatchLength(k, t[c..])
    decreases |t| - at
  {
    hide MatchLength;
    var n := MatchLength(k, t[at..]);
    if n == 0 && at < i {
      CoveringMeans(k, t, at + 1, i);
    } else if 0 < n <= i - at {
      CoveringMeans(k, t, at + n, i);
    }
  }

  /** The first `url(` of a sheet lies in no other. */
  lemma FirstUrlIsUncovered(t: Text, i: nat)
    requires i < |t| && forall j :: 0 <= j < i ==> !StartsWithFold(t[j..], Lit("url("))
    ensures Covering(Urls, t, 0, i) == i
  {
    hide Covering, StartsWithFold, Lit;
    CoveringMeans(Urls, t, 0, i);
    var c := Covering(Urls, t, 0, i);
    if c < i { MatchIsUrl(t[c..]); }
  }

  lemma MatchIsUrl(t: Text)
    requires MatchLength(Urls, t) > 0
    ensures StartsWithFold(t, Lit("url("))
  {
    hide SkipBlanks, BareEnd, ReadQuoted, Closed;
  }
}
