/**
 Which of its forms a pattern is read in, told from the units alone, and which
 rule refuses a target (`src/lib/cssValidate.ts`).
 */
module CssForms {
  import opened Texts
  import opened CssScan

  // ---------------------------------------------------------------------
  // At-rules
  // ---------------------------------------------------------------------

  /** One of the three words that pull in another sheet. */
  ghost predicate PullsSheet(word: Text) {
    word == Lit("import") || word == Lit("charset") || word == Lit("namespace")
  }

  /** `@` and the word in any case, and no further word unit. */
  ghost predicate WritesAtRule(t: Text, word: Text) {
    && |word| < |t|
    && t[0] == AT
    && Lower(t[1..|word| + 1]) == word
    && (|t| == |word| + 1 || !IsWord(t[|word| + 1]))
  }

  lemma KeywordIsWritten(t: Text, word: Text)
    requires t != [] && t[0] == AT
    ensures KeywordAhead(t, word) <==> WritesAtRule(t, word)
  {
    if |word| < |t| {
      assert forall i :: 0 <= i < |word| ==> t[1..][i] == t[1..|word| + 1][i];
      assert StartsWithFold(t[1..], word) <==> Lower(t[1..|word| + 1]) == word;
    }
  }

  /** Two of the words never stand at one place. */
  lemma OneWord(t: Text, v: Text, w: Text)
    requires PullsSheet(v) && PullsSheet(w) && WritesAtRule(t, v) && WritesAtRule(t, w)
    ensures v == w
  {
    WordsStartUnlike(v, w);
    hide PullsSheet;
    assert v[0] == LowerUnit(t[1]) == w[0];
  }

  lemma WordsStartUnlike(v: Text, w: Text)
    requires PullsSheet(v) && PullsSheet(w)
    ensures v != [] && w != [] && (v[0] == w[0] ==> v == w)
  {
    assert Lit("import")[0] == 0x69 && Lit("charset")[0] == 0x63 && Lit("namespace")[0] == 0x6E;
  }

  /** The at-rule match is `@` and the word that is written, if one of the three is. */
  lemma AtRuleExactly(t: Text, n: nat)
    requires n > 0
    ensures AtRuleLength(t) == n <==> exists word :: PullsSheet(word) && WritesAtRule(t, word) && n == |word| + 1
  {
    if t == [] || t[0] != AT { return; }
    KeywordIsWritten(t, Lit("import"));
    KeywordIsWritten(t, Lit("charset"));
    KeywordIsWritten(t, Lit("namespace"));
    assert |Lit("import")| == 6 && |Lit("charset")| == 7 && |Lit("namespace")| == 9;
    assert PullsSheet(Lit("import")) && PullsSheet(Lit("charset")) && PullsSheet(Lit("namespace"));
    hide WritesAtRule, KeywordAhead, Lit;
    if word :| PullsSheet(word) && WritesAtRule(t, word) && n == |word| + 1 {
      WordIsRead(t, word);
    }
  }

  lemma WordIsRead(t: Text, word: Text)
    requires PullsSheet(word) && WritesAtRule(t, word)
    ensures AtRuleLength(t) == |word| + 1
  {
    assert t != [] && t[0] == AT;
    KeywordIsWritten(t, Lit("import"));
    KeywordIsWritten(t, Lit("charset"));
    KeywordIsWritten(t, Lit("namespace"));
    assert |Lit("import")| == 6 && |Lit("charset")| == 7 && |Lit("namespace")| == 9;
    if WritesAtRule(t, Lit("import")) { OneWord(t, word, Lit("import")); }
    if WritesAtRule(t, Lit("charset")) { OneWord(t, word, Lit("charset")); }
    if WritesAtRule(t, Lit("namespace")) { OneWord(t, word, Lit("namespace")); }
    hide WritesAtRule, KeywordAhead, Lit;
  }

  // ---------------------------------------------------------------------
  // The forms of `url( )`
  // ---------------------------------------------------------------------

  /** `url(` in any case, and blanks up to `a` and no further. */
  ghost predicate Opens(t: Text, a: nat) {
    && StartsWithFold(t, Lit("url("))
    && 4 <= a <= |t|
    && (forall k :: 4 <= k < a ==> IsSpace(t[k]))
    && (a < |t| ==> !IsSpace(t[a]))
  }

  /** Blanks from `b` on, and `)` at `c`. */
  ghost predicate Closes(t: Text, b: nat, c: nat) {
    b <= c < |t| && t[c] == CLOSE && forall k :: b <= k < c ==> IsSpace(t[k])
  }

  ghost predicate QuotedForm(t: Text, a: nat, b: nat, c: nat) {
    a + 2 <= b <= |t| && QuotedBody(t, a, b) && Closes(t, b, c)
  }

  ghost predicate BareForm(t: Text, a: nat, b: nat, c: nat) {
    && a <= b <= |t|
    && (forall k :: a <= k < b ==> t[k] != CLOSE && !IsSpace(t[k]))
    && Closes(t, b, c)
  }

  ghost predicate HasQuotedForm(t: Text, a: nat) { exists b: nat, c: nat :: QuotedForm(t, a, b, c) }

  /** What is written at the front of `t`: the quoted form where there is one,
      its target without the quotes, and the bare form otherwise. */
  ghost predicate WritesUrl(t: Text, a: nat, b: nat, c: nat, target: Text) {
    && Opens(t, a)
    && (|| (QuotedForm(t, a, b, c) && target == t[a + 1..b - 1])
        || (BareForm(t, a, b, c) && !HasQuotedForm(t, a) && target == t[a..b]))
  }

  /** A `url( )` with this target is written at the front of `t`, closing at `c`. */
  ghost predicate UrlWritten(t: Text, c: nat, target: Text) {
    exists a: nat, b: nat :: WritesUrl(t, a, b, c, target)
  }

  lemma OpensAtBlanksEnd(t: Text, a: nat)
    requires Opens(t, a)
    ensures SkipBlanks(t, 4) == a
  {
    hide StartsWithFold, IsSpace;
    var p := SkipBlanks(t, 4);
  }

  lemma ClosedIs(t: Text, b: nat, c: nat, target: Text)
    requires Closes(t, b, c)
    ensures Closed(t, b, target) == Url(c + 1, target)
  {
    hide IsSpace;
    var p := SkipBlanks(t, b);
    assert !IsSpace(CLOSE) by { CloseIsNoBlank(); }
  }

  lemma CloseIsNoBlank()
    ensures !IsSpace(CLOSE) && !IsSpace(DOUBLE_QUOTE) && !IsSpace(SINGLE_QUOTE)
  {}

  lemma ClosedMeans(t: Text, b: nat, target: Text)
    requires b <= |t| && Closed(t, b, target).Url?
    ensures var r := Closed(t, b, target);
            r.length > 0 && Closes(t, b, r.length - 1) && r.target == target
  {
    hide IsSpace;
  }

  lemma QuoteFound(t: Text, a: nat, b: nat)
    requires a + 2 <= b <= |t| && QuotedBody(t, a, b)
    ensures a + 1 + IndexOf(t[a + 1..], t[a]) == b - 1
  {
    hide IndexOf;
    var q := t[a + 1..];
    assert forall k :: 0 <= k < b - a - 2 ==> q[k] == t[a + 1 + k];
    IndexOfUnique(q, t[a], b - a - 2);
  }

  lemma QuotedFormIsRead(t: Text, a: nat, b: nat, c: nat)
    requires QuotedForm(t, a, b, c)
    ensures a < |t| && (t[a] == DOUBLE_QUOTE || t[a] == SINGLE_QUOTE)
    ensures ReadQuoted(t, a) == Url(c + 1, t[a + 1..b - 1])
  {
    QuoteFound(t, a, b);
    ClosedIs(t, b, c, t[a + 1..b - 1]);
    hide Closed, IndexOf, IsSpace;
  }

  lemma ReadQuotedMeans(t: Text, a: nat)
    requires a < |t| && (t[a] == DOUBLE_QUOTE || t[a] == SINGLE_QUOTE) && ReadQuoted(t, a).Url?
    ensures HasQuotedForm(t, a)
  {
    hide Closed, IndexOf, IsSpace;
    var e := a + 1 + IndexOf(t[a + 1..], t[a]);
    QuotedBodyFound(t, a, t[a + 1..], e);
    ClosedMeans(t, e + 1, t[a + 1..e]);
    assert QuotedForm(t, a, e + 1, ReadQuoted(t, a).length - 1);
  }

  /** Where a bare target ends. */
  lemma BareEndIs(t: Text, a: nat, b: nat, c: nat)
    requires BareForm(t, a, b, c)
    ensures BareEnd(t, a) == b
  {
    hide IsSpace;
    assert t[b] == CLOSE || IsSpace(t[b]);
    var e := BareEnd(t, a);
  }

  lemma ReadUrlIs(t: Text, a: nat)
    requires Opens(t, a)
    ensures ReadUrl(t)
         == if a < |t| && (t[a] == DOUBLE_QUOTE || t[a] == SINGLE_QUOTE) && ReadQuoted(t, a).Url? then ReadQuoted(t, a)
            else Closed(t, BareEnd(t, a), t[a..BareEnd(t, a)])
  {
    OpensAtBlanksEnd(t, a);
    hide SkipBlanks, BareEnd, ReadQuoted, Closed, Lit, IsSpace;
  }

  lemma ReadUrlOpens(t: Text)
    requires ReadUrl(t).Url?
    ensures |t| >= 4 && Opens(t, SkipBlanks(t, 4))
  {
    hide BareEnd, ReadQuoted, Closed, IsSpace;
  }

  lemma WrittenUrlIsRead(t: Text, a: nat, b: nat, c: nat, target: Text)
    requires WritesUrl(t, a, b, c, target)
    ensures ReadUrl(t) == Url(c + 1, target)
  {
    hide *;
    WritesUrlMeans(t, a, b, c, target);
    ReadUrlIs(t, a);
    if QuotedForm(t, a, b, c) && target == t[a + 1..b - 1] {
      QuotedFormIsRead(t, a, b, c);
    } else {
      BareFormBounds(t, a, b, c);
      BareEndIs(t, a, b, c);
      ClosedIs(t, b, c, target);
      if a < |t| && (t[a] == DOUBLE_QUOTE || t[a] == SINGLE_QUOTE) && ReadQuoted(t, a).Url? {
        ReadQuotedMeans(t, a);
      }
    }
  }

  lemma UrlWrittenIsRead(t: Text, c: nat, target: Text)
    requires UrlWritten(t, c, target)
    ensures ReadUrl(t) == Url(c + 1, target)
  {
    hide ReadUrl, WritesUrl;
    var a: nat, b: nat :| WritesUrl(t, a, b, c, target);
    WrittenUrlIsRead(t, a, b, c, target);
  }

  lemma WritesUrlMeans(t: Text, a: nat, b: nat, c: nat, target: Text)
    requires WritesUrl(t, a, b, c, target)
    ensures Opens(t, a) && a <= b <= |t| && (QuotedForm(t, a, b, c) ==> a + 2 <= b)
    ensures || (QuotedForm(t, a, b, c) && target == t[a + 1..b - 1])
            || (BareForm(t, a, b, c) && !HasQuotedForm(t, a) && target == t[a..b])
  {}

  lemma BareFormBounds(t: Text, a: nat, b: nat, c: nat)
    requires BareForm(t, a, b, c)
    ensures a <= b <= |t| && Closes(t, b, c)
  {}

  /** Whatever is read is written. */
  lemma ReadUrlIsWritten(t: Text)
    requires ReadUrl(t).Url?
    ensures ReadUrl(t).length > 0
    ensures UrlWritten(t, ReadUrl(t).length - 1, ReadUrl(t).target)
  {
    hide *;
    ReadUrlOpens(t);
    var a := SkipBlanks(t, 4);
    ReadUrlIs(t, a);
    if a < |t| && (t[a] == DOUBLE_QUOTE || t[a] == SINGLE_QUOTE) && ReadQuoted(t, a).Url? {
      ReadQuotedMeans(t, a);
      QuotedIsWritten(t, a);
    } else {
      var b := BareEnd(t, a);
      ClosedMeans(t, b, t[a..b]);
      BareIsWritten(t, a, b, ReadUrl(t).length - 1);
      IsWritten(t, a, b, ReadUrl(t).length - 1, t[a..b]);
    }
  }

  lemma IsWritten(t: Text, a: nat, b: nat, c: nat, target: Text)
    requires WritesUrl(t, a, b, c, target)
    ensures UrlWritten(t, c, target)
  {}

  lemma QuotedIsWritten(t: Text, a: nat)
    requires Opens(t, a) && HasQuotedForm(t, a) && a < |t|
    ensures var r := ReadQuoted(t, a);
            r.Url? && r.length > 0 && UrlWritten(t, r.length - 1, r.target)
  {
    hide Opens, QuotedForm, ReadQuoted;
    var b: nat, c: nat :| QuotedForm(t, a, b, c);
    QuotedFormIsRead(t, a, b, c);
    assert WritesUrl(t, a, b, c, t[a + 1..b - 1]) by { QuotedFormBounds(t, a, b, c); }
    hide WritesUrl;
  }

  lemma QuotedFormBounds(t: Text, a: nat, b: nat, c: nat)
    requires QuotedForm(t, a, b, c)
    ensures a + 2 <= b <= |t|
  {}

  lemma BareIsWritten(t: Text, a: nat, b: nat, c: nat)
    requires Opens(t, a) && a <= |t| && b == BareEnd(t, a) && Closes(t, b, c)
    requires a < |t| && (t[a] == DOUBLE_QUOTE || t[a] == SINGLE_QUOTE) ==> !ReadQuoted(t, a).Url?
    ensures WritesUrl(t, a, b, c, t[a..b])
  {
    hide Opens, ReadQuoted, IsSpace;
    assert BareForm(t, a, b, c);
    if HasQuotedForm(t, a) {
      var b': nat, c': nat :| QuotedForm(t, a, b', c');
      QuotedFormIsRead(t, a, b', c');
    }
  }

  /** A `url( )` is read in the quoted form where there is one, in the bare form
      otherwise, and not at all where there is neither. */
  lemma ReadUrlExactly(t: Text, n: nat, target: Text)
    requires n > 0
    ensures ReadUrl(t) == Url(n, target) <==> UrlWritten(t, n - 1, target)
  {
    if UrlWritten(t, n - 1, target) { UrlWrittenIsRead(t, n - 1, target); }
    hide *;
    if ReadUrl(t) == Url(n, target) { ReadUrlIsWritten(t); }
  }

  // ---------------------------------------------------------------------
  // Which rule refuses a target
  // ---------------------------------------------------------------------

  /** The scheme is `data`, in any case. */
  ghost predicate IsDataUri(t: Text) { |t| > 4 && t[4] == 0x3A && Lower(t[..4]) == Lit("data") }

  /** A letter, letters, digits, `+`, `.` or `-`, and a colon. */
  ghost predicate NamesScheme(t: Text) {
    exists i: nat ::
      && 0 < i < |t| && t[i] == 0x3A && IsLetter(t[0])
      && forall k :: 0 < k < i ==> IsLetter(t[k]) || IsDigit(t[k]) || t[k] == 0x2B || t[k] == 0x2E || t[k] == 0x2D
  }

  ghost predicate NamesHost(t: Text) { |t| > 1 && t[0] == 0x2F && t[1] == 0x2F }

  /** The rule by which a trimmed target is refused. */
  ghost predicate RefusedBy(t: Text, rule: Rule) {
    match rule
    case UrlData => IsDataUri(t)
    case UrlProtocolRelative => NamesHost(t)
    case UrlScheme => NamesScheme(t) && !IsDataUri(t)
    case AtRule => false
  }

  lemma DataUnits(t: Text)
    ensures IsDataUri(t) <==> StartsWithFold(t, Lit("data:"))
    ensures IsDataUri(t) ==> HasScheme(t) && t[0] != 0x2F
  {
    assert Lit("data:")[..4] == Lit("data") && Lit("data:")[4] == 0x3A && |Lit("data:")| == 5;
    if |t| > 4 {
      assert forall i :: 0 <= i < 4 ==> t[..4][i] == t[i] && Lit("data:")[i] == Lit("data")[i];
    }
    if StartsWithFold(t, Lit("data:")) {
      assert forall k :: 0 <= k < 5 ==> LowerUnit(t[k]) == Lit("data:")[k];
      DataIsScheme(t);
    }
  }

  lemma SchemeIsNamed(t: Text)
    ensures HasScheme(t) <==> NamesScheme(t)
  {
    if HasScheme(t) {
      var i :| 0 < i < |t| && SchemeEndsAt(t, i);
    }
    if NamesScheme(t) {
      var i: nat :| 0 < i < |t| && t[i] == 0x3A && IsLetter(t[0])
        && forall k :: 0 < k < i ==> IsLetter(t[k]) || IsDigit(t[k]) || t[k] == 0x2B || t[k] == 0x2E || t[k] == 0x2D;
      assert SchemeEndsAt(t, i);
    }
  }

  lemma HostHasNoScheme(t: Text)
    requires NamesHost(t)
    ensures !HasScheme(t)
  {}

  /** A target is refused by a rule exactly when, trimmed, it is what the rule names:
      a `data:` URI, another host, any other scheme. */
  lemma RuleExactly(target: Text, rule: Rule)
    ensures ClassifyUrlTarget(target) == Some(rule) <==> RefusedBy(Trim(target), rule)
  {
    hide Trim, StartsWithFold, ReadsScheme, HasScheme, NamesScheme;
    var t := Trim(target);
    DataUnits(t);
    ReadsSchemeMeans(t);
    SchemeIsNamed(t);
    if NamesHost(t) { HostHasNoScheme(t); }
    NothingIsRefused();
    hide IsDataUri;
  }

  lemma NothingIsRefused()
    ensures !HasScheme([]) && !IsDataUri([]) && !NamesHost([])
  {}
}
