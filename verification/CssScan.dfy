/**
 The two pattern scans over decoded CSS and the ordering of what they find
 (`src/lib/cssValidate.ts`).
 */
module CssScan {
  import opened Texts

  datatype Rule = AtRule | UrlScheme | UrlProtocolRelative | UrlData

  datatype Scanner = AtRules | Urls

  /** A reported match, in decoded coordinates. */
  datatype Hit = Hit(rule: Rule, start: nat, length: nat)

  const AT: Unit := 0x40
  const DOUBLE_QUOTE: Unit := 0x22
  const SINGLE_QUOTE: Unit := 0x27
  const CLOSE: Unit := 0x29

  // ---------------------------------------------------------------------
  // `@(import|charset|namespace)\b`
  // ---------------------------------------------------------------------

  predicate KeywordAhead(t: Text, word: Text) {
    StartsWithFold(t[if |t| > 0 then 1 else 0..], word)
        && (|t| == 1 + |word| || (|t| > 1 + |word| && !IsWord(t[1 + |word|])))
  }

  /** The length of the at-rule match at the front of `t`, 0 when there is none. */
  function AtRuleLength(t: Text): (n: nat)
    ensures n <= |t|
    ensures n > 0 ==> t[0] == AT
  {
    if t == [] || t[0] != AT then 0
    else if KeywordAhead(t, Lit("import")) then 7
    else if KeywordAhead(t, Lit("charset")) then 8
    else if KeywordAhead(t, Lit("namespace")) then 10
    else 0
  }

  /** Nothing inside an at-rule match can start another. */
  lemma AtRuleHasOneAt(t: Text, i: nat)
    requires 0 < i < AtRuleLength(t)
    ensures t[i] != AT
  {
    KeywordHasNoAt(Lit("import"));
    KeywordHasNoAt(Lit("charset"));
    KeywordHasNoAt(Lit("namespace"));
    assert |Lit("import")| == 6 && |Lit("charset")| == 7 && |Lit("namespace")| == 9;
    hide Lit;
    var w := if KeywordAhead(t, Lit("import")) then Lit("import")
             else if KeywordAhead(t, Lit("charset")) then Lit("charset") else Lit("namespace");
    KeywordUnit(t, w, i);
  }

  lemma KeywordHasNoAt(w: Text)
    requires w == Lit("import") || w == Lit("charset") || w == Lit("namespace")
    ensures forall k :: 0 <= k < |w| ==> w[k] >= 0x61
  {}

  lemma KeywordUnit(t: Text, w: Text, i: nat)
    requires t != [] && KeywordAhead(t, w) && 0 < i <= |w| && w[i - 1] >= 0x61
    ensures i < |t| && t[i] != AT
  {
    assert t[1..][i - 1] == t[i];
  }

  // ---------------------------------------------------------------------
  // `url\(\s*(?:"([^"]*)"|'([^']*)'|([^)\s]*))\s*\)`
  // ---------------------------------------------------------------------

  datatype UrlMatch = NoUrl | Url(length: nat, target: Text)

  function SkipBlanks(t: Text, from: nat): (i: nat)
    requires from <= |t|
    ensures from <= i <= |t|
    ensures forall k :: from <= k < i ==> IsSpace(t[k])
    ensures i < |t| ==> !IsSpace(t[i])
    decreases |t| - from
  {
    if from < |t| && IsSpace(t[from]) then SkipBlanks(t, from + 1) else from
  }

  /** Where an unquoted target that starts at `from` ends. */
  function BareEnd(t: Text, from: nat): (i: nat)
    requires from <= |t|
    ensures from <= i <= |t|
    ensures forall k :: from <= k < i ==> t[k] != CLOSE && !IsSpace(t[k])
    ensures i < |t| ==> t[i] == CLOSE || IsSpace(t[i])
    decreases |t| - from
  {
    if from < |t| && t[from] != CLOSE && !IsSpace(t[from]) then BareEnd(t, from + 1) else from
  }

  /** The match whose target is `target`, if only blanks and `)` follow `from`. */
  function Closed(t: Text, from: nat, target: Text): UrlMatch
    requires from <= |t|
  {
    var c := SkipBlanks(t, from);
    if c < |t| && t[c] == CLOSE then Url(c + 1, target) else NoUrl
  }

  function ReadQuoted(t: Text, p: nat): UrlMatch
    requires p < |t|
  {
    var e := p + 1 + IndexOf(t[p + 1..], t[p]);
    if e < |t| then Closed(t, e + 1, t[p + 1..e]) else NoUrl
  }

  /** The `url()` match at the front of `t`. */
  function ReadUrl(t: Text): UrlMatch {
    if !StartsWithFold(t, Lit("url(")) then NoUrl else
      var p := SkipBlanks(t, 4);
      var quoted := if p < |t| && (t[p] == DOUBLE_QUOTE || t[p] == SINGLE_QUOTE) then ReadQuoted(t, p) else NoUrl;
      if quoted.Url? then quoted
      else Closed(t, BareEnd(t, p), t[p..BareEnd(t, p)])
  }

  /** The pattern itself: blanks to `a`, a body to `b`, blanks to `c`, then `)`. */
  ghost predicate UrlShape(t: Text, a: nat, b: nat, c: nat, target: Text) {
    && StartsWithFold(t, Lit("url("))
    && 4 <= a <= b <= c < |t|
    && (forall k :: 4 <= k < a ==> IsSpace(t[k]))
    && (forall k :: b <= k < c ==> IsSpace(t[k]))
    && t[c] == CLOSE
    && (|| (t[a..b] == target && forall k :: a <= k < b ==> t[k] != CLOSE && !IsSpace(t[k]))
        || (a + 2 <= b && QuotedBody(t, a, b) && t[a + 1..b - 1] == target))
  }

  ghost predicate QuotedBody(t: Text, a: nat, b: nat)
    requires a + 2 <= b <= |t|
  {
    && (t[a] == DOUBLE_QUOTE || t[a] == SINGLE_QUOTE)
    && t[b - 1] == t[a]
    && forall k :: a < k < b - 1 ==> t[k] != t[a]
  }

  /** The pattern matches at the front of `t`, closing at `c`. */
  ghost predicate UrlMatches(t: Text, c: nat, target: Text) {
    exists a: nat, b: nat :: UrlShape(t, a, b, c, target)
  }

  lemma ReadQuotedIsMatch(t: Text, p: nat)
    requires StartsWithFold(t, Lit("url(")) && 4 <= |t| && p == SkipBlanks(t, 4) < |t|
    requires t[p] == DOUBLE_QUOTE || t[p] == SINGLE_QUOTE
    requires ReadQuoted(t, p).Url?
    ensures var r := ReadQuoted(t, p);
            4 < r.length <= |t| && UrlMatches(t, r.length - 1, r.target)
  {
    hide SkipBlanks, Lit, StartsWithFold, IndexOf, QuotedBody, IsSpace;
    var e := p + 1 + IndexOf(t[p + 1..], t[p]);
    QuotedBodyFound(t, p, t[p + 1..], e);
    var c := SkipBlanks(t, e + 1);
    assert ReadQuoted(t, p) == Url(c + 1, t[p + 1..e]);
    assert UrlShape(t, p, e + 1, c, t[p + 1..e]);
    hide ReadQuoted;
  }

  lemma QuotedBodyFound(t: Text, p: nat, q: Text, e: nat)
    requires p < |t| && q == t[p + 1..] && e == p + 1 + IndexOf(q, t[p]) < |t|
    requires t[p] == DOUBLE_QUOTE || t[p] == SINGLE_QUOTE
    ensures QuotedBody(t, p, e + 1)
  {
    hide IndexOf;
    var before := q[..e - p - 1];
    assert forall k :: p < k < e ==> t[k] == before[k - p - 1] && before[k - p - 1] in before;
  }

  /** The single forward reading finds only matches of the pattern ... */
  lemma ReadUrlIsMatch(t: Text)
    requires ReadUrl(t).Url?
    ensures 0 < ReadUrl(t).length && UrlMatches(t, ReadUrl(t).length - 1, ReadUrl(t).target)
    ensures 4 < ReadUrl(t).length <= |t|
    ensures t[0] == 0x75 || t[0] == 0x55
  {
    hide ReadQuoted, SkipBlanks, BareEnd;
    assert LowerUnit(t[0]) == Lit("url(")[0] == 0x75;
    var p := SkipBlanks(t, 4);
    var r := ReadUrl(t);
    if p < |t| && (t[p] == DOUBLE_QUOTE || t[p] == SINGLE_QUOTE) && ReadQuoted(t, p).Url? {
      ReadQuotedIsMatch(t, p);
    } else {
      assert UrlShape(t, p, BareEnd(t, p), r.length - 1, r.target);
    }
  }

  lemma QuotedIsRead(t: Text, a: nat, b: nat, c: nat)
    requires a + 2 <= b <= c < |t| && QuotedBody(t, a, b)
    requires (forall k :: b <= k < c ==> IsSpace(t[k])) && t[c] == CLOSE
    ensures ReadQuoted(t, a).Url?
  {
    hide SkipBlanks, IndexOf;
    var q := t[a + 1..];
    assert forall k :: 0 <= k < b - a - 2 ==> q[k] == t[a + 1 + k];
    IndexOfUnique(q, t[a], b - a - 2);
    assert SkipBlanks(t, b) == c;
  }

  /** ... and finds one whenever backtracking could. */
  lemma ReadUrlMissesNothing(t: Text, a: nat, b: nat, c: nat, target: Text)
    requires UrlShape(t, a, b, c, target)
    ensures ReadUrl(t).Url?
  {
    hide SkipBlanks, BareEnd, ReadQuoted, StartsWithFold, Lit;
    var p := SkipBlanks(t, 4);
    if p == a && a + 2 <= b && QuotedBody(t, a, b) {
      QuotedIsRead(t, a, b, c);
    } else {
      assert IsSpace(DOUBLE_QUOTE) == IsSpace(SINGLE_QUOTE) == false;
      assert p > a ==> IsSpace(t[a]) && b == a;
      assert p > a ==> p == c;
      assert SkipBlanks(t, BareEnd(t, p)) == c;
    }
  }

  // ---------------------------------------------------------------------
  // What a target is allowed to be
  // ---------------------------------------------------------------------

  predicate IsSchemeUnit(u: Unit) { IsLetter(u) || IsDigit(u) || u == 0x2B || u == 0x2E || u == 0x2D }

  /** `/^[a-z][a-z0-9+.-]*:/i` */
  ghost predicate HasScheme(t: Text) {
    exists i :: 0 < i < |t| && SchemeEndsAt(t, i)
  }

  predicate SchemeEndsAt(t: Text, i: int)
    requires 0 < i < |t|
  {
    t[i] == 0x3A && IsLetter(t[0]) && forall k :: 0 <= k < i ==> IsSchemeUnit(t[k])
  }

  /** The scheme test as a left-to-right reading. */
  predicate ReadsScheme(t: Text) {
    t != [] && IsLetter(t[0]) && SchemeRest(t[1..])
  }

  predicate SchemeRest(t: Text) {
    t != [] && (t[0] == 0x3A || (IsSchemeUnit(t[0]) && SchemeRest(t[1..])))
  }

  lemma {:induction false} SchemeRestMeans(t: Text)
    ensures SchemeRest(t) <==> exists i :: 0 <= i < |t| && t[i] == 0x3A && forall k :: 0 <= k < i ==> IsSchemeUnit(t[k])
  {
    if t == [] || t[0] == 0x3A { return; }
    var s := t[1..];
    SchemeRestMeans(s);
    if SchemeRest(s) && IsSchemeUnit(t[0]) {
      var i :| 0 <= i < |s| && s[i] == 0x3A && forall k :: 0 <= k < i ==> IsSchemeUnit(s[k]);
      assert t[i + 1] == 0x3A && forall k :: 0 < k < i + 1 ==> t[k] == s[k - 1];
    }
    if i :| 0 <= i < |t| && t[i] == 0x3A && forall k :: 0 <= k < i ==> IsSchemeUnit(t[k]) {
      assert s[i - 1] == 0x3A && forall k :: 0 <= k < i - 1 ==> IsSchemeUnit(s[k]);
    }
  }

  lemma ReadsSchemeMeans(t: Text)
    ensures ReadsScheme(t) <==> HasScheme(t)
  {
    hide SchemeRest;
    if t == [] { return; }
    var s := t[1..];
    SchemeRestMeans(s);
    if ReadsScheme(t) {
      var i :| 0 <= i < |s| && s[i] == 0x3A && forall k :: 0 <= k < i ==> IsSchemeUnit(s[k]);
      assert forall k :: 0 < k < i + 1 ==> t[k] == s[k - 1];
      assert SchemeEndsAt(t, i + 1);
    }
    if HasScheme(t) {
      var i :| 0 < i < |t| && SchemeEndsAt(t, i);
      assert s[i - 1] == 0x3A && forall k :: 0 <= k < i - 1 ==> s[k] == t[k + 1];
    }
  }

  /** Classify a `url()` target; None when it is permitted. */
  function ClassifyUrlTarget(target: Text): Option<Rule> {
    var t := Trim(target);
    if t == [] then None
    else if StartsWithFold(t, Lit("data:")) then Some(UrlData)
    else if |t| >= 2 && t[0] == 0x2F && t[1] == 0x2F then Some(UrlProtocolRelative)
    else if ReadsScheme(t) then Some(UrlScheme)
    else None
  }

  lemma {:induction false} TrimStartIgnoresLeading(u: Unit, t: Text)
    requires IsSpace(u)
    ensures TrimStart([u] + t) == TrimStart(t)
  {
    assert ([u] + t)[1..] == t;
  }

  /** A target is refused exactly when, once trimmed, it starts with `//` or names
      a scheme; blanks in front of it never change the verdict. */
  lemma TargetRefusedIff(target: Text)
    ensures ClassifyUrlTarget(target).Some? <==>
              var t := Trim(target);
              HasScheme(t) || (|t| >= 2 && t[0] == 0x2F && t[1] == 0x2F)
    ensures forall u :: IsSpace(u) ==> ClassifyUrlTarget([u] + target) == ClassifyUrlTarget(target)
  {
    hide TrimStart, TrimEnd, SchemeRest, SchemeEndsAt;
    var t := Trim(target);
    ReadsSchemeMeans(t);
    if StartsWithFold(t, Lit("data:")) {
      assert forall k :: 0 <= k < 5 ==> LowerUnit(t[k]) == Lit("data:")[k];
      DataIsScheme(t);
    }
    forall u | IsSpace(u) ensures ClassifyUrlTarget([u] + target) == ClassifyUrlTarget(target) {
      TrimStartIgnoresLeading(u, target);
    }
  }

  lemma DataIsScheme(t: Text)
    requires |t| >= 5 && LowerUnit(t[0]) == 0x64 && LowerUnit(t[1]) == 0x61 && LowerUnit(t[2]) == 0x74
    requires LowerUnit(t[3]) == 0x61 && LowerUnit(t[4]) == 0x3A
    ensures HasScheme(t)
  {
    assert SchemeEndsAt(t, 4);
  }

  // ---------------------------------------------------------------------
  // Non-overlapping scans
  // ---------------------------------------------------------------------

  /** The length of the scanner's match at the front of `t`, 0 when there is none. */
  function MatchLength(k: Scanner, t: Text): (n: nat)
    ensures n <= |t|
  {
    match k
    case AtRules => AtRuleLength(t)
    case Urls => if ReadUrl(t).Url? then ReadUrlIsMatch(t); ReadUrl(t).length else 0
  }

  /** What a match is reported as; None when it is permitted. */
  function Verdict(k: Scanner, t: Text): Option<Rule> {
    match k
    case AtRules => Some(AtRule)
    case Urls => if ReadUrl(t).Url? then ClassifyUrlTarget(ReadUrl(t).target) else None
  }

  /** Everything the scanner reports from `at` on, left to right without overlap. */
  function Hits(k: Scanner, t: Text, at: nat): seq<Hit>
    requires at <= |t|
    decreases |t| - at
  {
    if at == |t| then [] else
      var n := MatchLength(k, t[at..]);
      if n == 0 then Hits(k, t, at + 1)
      else
        var rest := Hits(k, t, at + n);
        match Verdict(k, t[at..])
        case Some(rule) => [Hit(rule, at, n)] + rest
        case None => rest
  }

  /** `h` is a true match of the scanner, reported as it should be. */
  predicate IsHit(k: Scanner, t: Text, h: Hit) {
    && h.start < |t|
    && h.length == MatchLength(k, t[h.start..]) > 0
    && Verdict(k, t[h.start..]) == Some(h.rule)
  }

  /** Every hit from `at` on is a true match. */
  ghost predicate AllMatch(k: Scanner, t: Text, at: nat, hs: seq<Hit>) {
    forall i :: 0 <= i < |hs| ==> IsHit(k, t, hs[i]) && at <= hs[i].start
  }

  /** Each hit ends before the next ones start. */
  ghost predicate Disjoint(hs: seq<Hit>) {
    forall i, j :: 0 <= i < j < |hs| ==> hs[i].start + hs[i].length <= hs[j].start
  }

  lemma PrependHit(k: Scanner, t: Text, h: Hit, hs: seq<Hit>)
    requires IsHit(k, t, h) && AllMatch(k, t, h.start + h.length, hs) && Disjoint(hs)
    ensures AllMatch(k, t, h.start, [h] + hs) && Disjoint([h] + hs)
  {
    hide IsHit;
  }

  lemma {:induction false} HitsMatch(k: Scanner, t: Text, at: nat)
    requires at <= |t|
    ensures AllMatch(k, t, at, Hits(k, t, at)) && Disjoint(Hits(k, t, at))
    decreases |t| - at
  {
    hide MatchLength, Verdict, AllMatch, Disjoint;
    if at == |t| {
      NothingMatches(k, t, at);
      return;
    }
    var n := MatchLength(k, t[at..]);
    var next := at + if n == 0 then 1 else n;
    HitsMatch(k, t, next);
    MatchesFurther(k, t, at, next, Hits(k, t, next));
    if n > 0 && Verdict(k, t[at..]).Some? {
      PrependHit(k, t, Hit(Verdict(k, t[at..]).value, at, n), Hits(k, t, next));
    }
  }

  lemma NothingMatches(k: Scanner, t: Text, at: nat)
    ensures AllMatch(k, t, at, []) && Disjoint([])
  {}

  lemma MatchesFurther(k: Scanner, t: Text, at: nat, next: nat, hs: seq<Hit>)
    requires at <= next && AllMatch(k, t, next, hs)
    ensures AllMatch(k, t, at, hs)
  {
    hide IsHit;
  }

  lemma HitsAreMatches(k: Scanner, t: Text, at: nat)
    requires at <= |t|
    ensures forall i :: 0 <= i < |Hits(k, t, at)| ==> IsHit(k, t, Hits(k, t, at)[i]) && at <= Hits(k, t, at)[i].start
    ensures forall i, j :: 0 <= i < j < |Hits(k, t, at)| ==>
              Hits(k, t, at)[i].start + Hits(k, t, at)[i].length <= Hits(k, t, at)[j].start
  {
    hide Hits, IsHit;
    HitsMatch(k, t, at);
  }

  lemma NoAtRuleInside(t: Text, at: nat, i: nat)
    requires at < i < |t| && AtRuleLength(t[i..]) > 0
    ensures at + AtRuleLength(t[at..]) <= i
  {
    hide AtRuleLength;
    var s := t[at..];
    assert t[i..][0] == s[i - at];
    if i - at < AtRuleLength(s) { AtRuleHasOneAt(s, i - at); }
  }

  lemma AtRuleStep(t: Text, at: nat)
    requires at < |t|
    ensures var n := AtRuleLength(t[at..]);
            Hits(AtRules, t, at)
            == if n == 0 then Hits(AtRules, t, at + 1) else [Hit(AtRule, at, n)] + Hits(AtRules, t, at + n)
  {
    hide AtRuleLength;
  }

  /** No at-rule escapes the scan, wherever it stands. */
  lemma {:induction false} EveryAtRuleIsHit(t: Text, at: nat, i: nat)
    requires at <= i < |t| && AtRuleLength(t[i..]) > 0
    ensures Hit(AtRule, i, AtRuleLength(t[i..])) in Hits(AtRules, t, at)
    decreases |t| - at
  {
    hide *;
    AtRuleStep(t, at);
    var n := AtRuleLength(t[at..]);
    if at < i && n == 0 {
      EveryAtRuleIsHit(t, at + 1, i);
    } else if at < i {
      NoAtRuleInside(t, at, i);
      EveryAtRuleIsHit(t, at + n, i);
    }
  }

  /** The position at which the left-to-right scan meets `i`: `i` itself, or the
      match that swallows it. */
  function Covering(k: Scanner, t: Text, at: nat, i: nat): (c: nat)
    requires at <= i < |t|
    ensures at <= c <= i
    decreases |t| - at
  {
    var n := MatchLength(k, t[at..]);
    if n == 0 then if at == i then i else Covering(k, t, at + 1, i)
    else if i < at + n then at
    else Covering(k, t, at + n, i)
  }

  /** A forbidden `url()` at `i` is reported unless it lies inside an earlier
      `url()` match. */
  lemma {:induction false} EveryUrlIsHitOrCovered(k: Scanner, t: Text, at: nat, i: nat)
    requires at <= i < |t|
    requires MatchLength(k, t[i..]) > 0 && Verdict(k, t[i..]).Some?
    ensures var c := Covering(k, t, at, i);
            if c == i then Hit(Verdict(k, t[i..]).value, i, MatchLength(k, t[i..])) in Hits(k, t, at)
            else c < i < c + MatchLength(k, t[c..])
    decreases |t| - at
  {
    hide MatchLength, Verdict;
    var n := MatchLength(k, t[at..]);
    if n == 0 {
      EveryUrlIsHitOrCovered(k, t, at + 1, i);
    } else if i >= at + n {
      EveryUrlIsHitOrCovered(k, t, at + n, i);
    }
  }

  // ---------------------------------------------------------------------
  // A stable sort by key
  // ---------------------------------------------------------------------

  function InsertBy<T>(x: T, s: seq<T>, key: T -> nat): seq<T> {
    if s == [] || key(s[|s| - 1]) <= key(x) then s + [x]
    else InsertBy(x, s[..|s| - 1], key) + [s[|s| - 1]]
  }

  /** `s.sort((a, b) => key(a) - key(b))`, which is stable. */
  function SortBy<T>(s: seq<T>, key: T -> nat): seq<T> {
    if s == [] then [] else InsertBy(s[|s| - 1], SortBy(s[..|s| - 1], key), key)
  }

  ghost predicate StrictlyAscending<T>(s: seq<T>, key: T -> nat) {
    forall i, j :: 0 <= i < j < |s| ==> key(s[i]) < key(s[j])
  }

  ghost predicate AllBelow<T(!new)>(s: seq<T>, key: T -> nat, bound: nat) {
    forall y :: y in s ==> key(y) < bound
  }

  lemma AscendingAppend<T(!new)>(front: seq<T>, last: T, key: T -> nat)
    requires StrictlyAscending(front, key) && AllBelow(front, key, key(last))
    ensures StrictlyAscending(front + [last], key)
  {
    var r := front + [last];
    forall i, j | 0 <= i < j < |r| ensures key(r[i]) < key(r[j]) {
      assert r[i] == front[i] && front[i] in front;
    }
  }

  lemma AscendingFront<T(!new)>(s: seq<T>, key: T -> nat)
    requires s != [] && StrictlyAscending(s, key)
    ensures StrictlyAscending(s[..|s| - 1], key) && AllBelow(s[..|s| - 1], key, key(s[|s| - 1]))
  {
    var front, last := s[..|s| - 1], s[|s| - 1];
    forall y | y in front ensures key(y) < key(last) {
      var i :| 0 <= i < |front| && front[i] == y;
      assert s[i] == y;
    }
  }

  /** The sort step keeps the order, and adds just the new element. */
  lemma {:induction false} InsertByAscends<T(!new)>(x: T, s: seq<T>, key: T -> nat)
    requires StrictlyAscending(s, key)
    requires forall y :: y in s ==> key(y) != key(x)
    ensures StrictlyAscending(InsertBy(x, s, key), key)
    ensures |InsertBy(x, s, key)| == |s| + 1
    ensures forall y :: y in InsertBy(x, s, key) <==> y in s || y == x
  {
    hide StrictlyAscending;
    if s == [] {
      AscendingAppend([], x, key) by { NothingAscends(key); }
      assert [] + [x] == [x];
      return;
    }
    var front, last := s[..|s| - 1], s[|s| - 1];
    AscendingFront(s, key);
    assert s == front + [last];
    if key(last) <= key(x) {
      assert last in s;
      AscendingAppend(s, x, key);
    } else {
      InsertByAscends(x, front, key);
      AscendingAppend(InsertBy(x, front, key), last, key);
    }
  }

  lemma NothingAscends<T>(key: T -> nat)
    ensures StrictlyAscending([], key)
  {}

  ghost predicate DistinctBy<T>(s: seq<T>, key: T -> nat) {
    forall i, j :: 0 <= i < j < |s| ==> key(s[i]) != key(s[j])
  }

  lemma DistinctFront<T(!new)>(s: seq<T>, key: T -> nat)
    requires s != [] && DistinctBy(s, key)
    ensures DistinctBy(s[..|s| - 1], key)
    ensures forall y :: y in s[..|s| - 1] ==> key(y) != key(s[|s| - 1])
  {
    var front, last := s[..|s| - 1], s[|s| - 1];
    forall y | y in front ensures key(y) != key(last) {
      var j :| 0 <= j < |front| && front[j] == y;
      assert s[j] == y;
    }
  }

  lemma SortByLast<T>(s: seq<T>, key: T -> nat)
    requires s != []
    ensures SortBy(s, key) == InsertBy(s[|s| - 1], SortBy(s[..|s| - 1], key), key)
  {}

  /** With distinct keys the sort puts the same elements in strictly ascending order. */
  lemma {:induction false} SortByAscends<T(!new)>(s: seq<T>, key: T -> nat)
    requires DistinctBy(s, key)
    ensures StrictlyAscending(SortBy(s, key), key)
    ensures |SortBy(s, key)| == |s|
    ensures forall y :: y in SortBy(s, key) <==> y in s
  {
    if s == [] { return; }
    hide *;
    var front, last := s[..|s| - 1], s[|s| - 1];
    SortByLast(s, key);
    DistinctFront(s, key);
    SortByAscends(front, key);
    InsertByAscends(last, SortBy(front, key), key);
    assert s == front + [last];
  }

  // ---------------------------------------------------------------------
  // Everything found in a decoded sheet
  // ---------------------------------------------------------------------

  /** In the order in which the program records them. */
  function RecordedHits(t: Text): seq<Hit> { Hits(AtRules, t, 0) + Hits(Urls, t, 0) }

  function StartOf(h: Hit): nat { h.start }

  /** In the order of the text. */
  function AllHits(t: Text): seq<Hit> { SortBy(RecordedHits(t), StartOf) }

  ghost predicate TrueHit(t: Text, h: Hit) { IsHit(AtRules, t, h) || IsHit(Urls, t, h) }

  lemma HitStartsUnlike(t: Text, h: Hit, g: Hit)
    requires IsHit(AtRules, t, h) && IsHit(Urls, t, g)
    ensures h.start != g.start
  {
    ReadUrlIsMatch(t[g.start..]);
    assert t[h.start..][0] == t[h.start] && t[g.start..][0] == t[g.start];
  }

  lemma TrueHitBounds(t: Text, h: Hit)
    requires TrueHit(t, h)
    ensures 0 < h.length && h.start + h.length <= |t|
    ensures t[h.start] == AT || t[h.start] == 0x75 || t[h.start] == 0x55
  {
    var s := t[h.start..];
    assert s[0] == t[h.start];
    if IsHit(Urls, t, h) { ReadUrlIsMatch(s); }
  }

  /** Two hits never share a start. */
  lemma RecordedStartsDistinct(t: Text)
    ensures var hs := RecordedHits(t);
            && (forall i :: 0 <= i < |hs| ==> TrueHit(t, hs[i]))
            && forall i, j :: 0 <= i < j < |hs| ==> hs[i].start != hs[j].start
  {
    hide Hits, IsHit;
    HitsAreMatches(AtRules, t, 0);
    HitsAreMatches(Urls, t, 0);
    var hs, n := RecordedHits(t), |Hits(AtRules, t, 0)|;
    forall i, j | 0 <= i < j < |hs| ensures hs[i].start != hs[j].start {
      if i < n <= j {
        HitStartsUnlike(t, hs[i], hs[j]);
      } else {
        PositiveLength(t, hs[i]);
      }
    }
  }

  lemma PositiveLength(t: Text, h: Hit)
    requires TrueHit(t, h)
    ensures h.length > 0
  {}

  /** All true matches, each once, in strictly increasing order of start. */
  lemma AllHitsOrdered(t: Text)
    ensures forall i :: 0 <= i < |AllHits(t)| ==> TrueHit(t, AllHits(t)[i])
    ensures forall i, j :: 0 <= i < j < |AllHits(t)| ==> AllHits(t)[i].start < AllHits(t)[j].start
    ensures |AllHits(t)| == |RecordedHits(t)|
    ensures forall h :: h in AllHits(t) <==> h in RecordedHits(t)
  {
    hide RecordedHits, TrueHit, SortBy;
    var hs, r := RecordedHits(t), AllHits(t);
    RecordedStartsDistinct(t);
    SortByAscends(hs, StartOf);
    forall i | 0 <= i < |r| ensures TrueHit(t, r[i]) { assert r[i] in r; }
    forall i, j | 0 <= i < j < |r| ensures r[i].start < r[j].start {
      assert StartOf(r[i]) < StartOf(r[j]);
    }
  }
}
