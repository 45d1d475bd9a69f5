/**
 What normalising does to the parts of a text (`src/lib/changelogGate.ts`).
 */
module ChangelogNormal {
  import opened Texts
  import opened Casing
  import opened Changelog

  // ---------------------------------------------------------------------
  // Collapsing and trimming
  // ---------------------------------------------------------------------

  /** Is the last unit read a blank? */
  function EndsBlank(t: Text, after: bool): bool {
    if t == [] then after else IsSpace(t[|t| - 1])
  }

  lemma {:induction false} CollapseConcat(a: Text, b: Text, after: bool)
    ensures Collapse(a + b, after) == Collapse(a, after) + Collapse(b, EndsBlank(a, after))
  {
    hide *;
    if a == [] {
      NothingCollapses(b, after);
    } else {
      var u, rest := a[0], a[1..];
      CollapseConcat(rest, b, IsSpace(u));
      CollapseStep(u, rest, after);
      CollapseStep(u, rest + b, after);
      assert a == [u] + rest && a + b == [u] + (rest + b);
      TextsRegroup(Collapsed(u, after), Collapse(rest, IsSpace(u)), Collapse(b, EndsBlank(a, after)));
    }
  }

  /** What one unit adds to a collapsed text. */
  function Collapsed(u: Unit, after: bool): Text {
    if !IsSpace(u) then [u] else if after then [] else [SPACE]
  }

  lemma CollapseStep(u: Unit, t: Text, after: bool)
    ensures Collapse([u] + t, after) == Collapsed(u, after) + Collapse(t, IsSpace(u))
    ensures EndsBlank([u] + t, after) == EndsBlank(t, IsSpace(u))
  {
    hide IsSpace;
    assert ([u] + t)[1..] == t;
  }

  lemma NothingCollapses(t: Text, after: bool)
    ensures [] + t == t && Collapse([], after) == [] && EndsBlank([], after) == after
    ensures [] + Collapse(t, after) == Collapse(t, after)
  {
    hide IsSpace;
  }

  /** What came before decides only whether one leading space is kept. */
  lemma CollapseStart(t: Text)
    ensures Collapse(t, false) == Collapse(t, true) || Collapse(t, false) == [SPACE] + Collapse(t, true)
  {}

  lemma TrimIsInside(t: Text)
    ensures Includes(t, Trim(t))
  {
    hide TrimStart, TrimEnd;
    var a := TrimStart(t);
    var r := TrimEnd(a);
    var i := |t| - |a|;
    assert t[i..i + |r|] == a[..|r|];
    assert OccursAt(t, r, i);
  }

  lemma TrimIsPlain(t: Text)
    ensures var r := Trim(t); r != [] ==> !IsSpace(r[0]) && !IsSpace(r[|r| - 1])
  {
    hide TrimStart, TrimEnd;
  }

  lemma TrimSkipsSpace(t: Text)
    ensures Trim([SPACE] + t) == Trim(t)
  {
    hide TrimEnd;
    assert ([SPACE] + t)[1..] == t;
  }

  lemma TrimStartStep(u: Unit, rest: Text)
    ensures TrimStart([u] + rest) == if IsSpace(u) then TrimStart(rest) else [u] + rest
  {
    hide IsSpace;
    assert ([u] + rest)[1..] == rest;
  }

  lemma TrimEndStep(front: Text, u: Unit)
    ensures TrimEnd(front + [u]) == if IsSpace(u) then TrimEnd(front) else front + [u]
  {
    hide IsSpace;
    assert (front + [u])[..|front|] == front;
  }

  lemma HeadApart(x: Text, w: Text)
    requires x != []
    ensures [x[0]] + (x[1..] + w) == x + w
  {}

  lemma EndApart(w: Text, y: Text)
    requires y != []
    ensures (w + y[..|y| - 1]) + [y[|y| - 1]] == w + y
  {}

  lemma PlainStart(w: Text)
    requires w != [] && !IsSpace(w[0])
    ensures TrimStart([] + w) == [] + w
  {
    hide IsSpace;
    assert [] + w == w;
  }

  lemma PlainEnd(w: Text)
    requires w != [] && !IsSpace(w[|w| - 1])
    ensures TrimEnd(w + []) == w + []
  {
    hide IsSpace;
    assert w + [] == w;
  }

  lemma {:induction false} TrimStartKeeps(x: Text, w: Text) returns (p: Text)
    requires w != [] && !IsSpace(w[0])
    ensures TrimStart(x + w) == p + w
  {
    hide *;
    p := x;
    if x == [] {
      PlainStart(w);
    } else {
      TrimStartStep(x[0], x[1..] + w);
      HeadApart(x, w);
      if IsSpace(x[0]) { p := TrimStartKeeps(x[1..], w); }
    }
  }

  lemma {:induction false} TrimEndKeeps(w: Text, y: Text) returns (q: Text)
    requires w != [] && !IsSpace(w[|w| - 1])
    ensures TrimEnd(w + y) == w + q
  {
    hide *;
    q := y;
    if y == [] {
      PlainEnd(w);
    } else {
      var front, u := y[..|y| - 1], y[|y| - 1];
      TrimEndStep(w + front, u);
      EndApart(w, y);
      if IsSpace(u) { q := TrimEndKeeps(w, front); }
    }
  }

  /** A text that starts and ends plain stays inside when its surroundings are trimmed. */
  lemma TrimKeeps(s: Text, t: Text)
    requires Includes(s, t) && (t != [] ==> !IsSpace(t[0]) && !IsSpace(t[|t| - 1]))
    ensures Includes(Trim(s), t)
  {
    hide *;
    if t == [] {
      NothingInside(Trim(s));
      return;
    }
    var i := Occurrence(s, t);
    var x, y := s[..i], s[i + |t|..];
    Apart(s, i, t);
    PlainEdges([], t, y);
    var p := TrimStartKeeps(x, t + y);
    TextsRegroup(p, t, y);
    PlainEdges(p, t, y);
    var q := TrimEndKeeps(p + t, y);
    TrimIs(s);
    OccursBetween(p, t, q);
  }

  lemma NothingInside(s: Text)
    ensures Includes(s, [])
  {
    assert OccursAt(s, [], 0);
  }

  lemma Apart(s: Text, i: nat, t: Text)
    requires i + |t| <= |s| && s[i..i + |t|] == t
    ensures s == s[..i] + (t + s[i + |t|..])
  {}

  lemma PlainEdges(p: Text, t: Text, y: Text)
    requires t != []
    ensures (t + y)[0] == t[0] && (p + t)[|p + t| - 1] == t[|t| - 1]
  {}

  lemma TrimIs(t: Text)
    ensures Trim(t) == TrimEnd(TrimStart(t))
  {}

  /** The collapsed form of a part, trimmed, is inside the collapsed whole. */
  lemma CollapsedPartInside(a: Text, t: Text, c: Text)
    ensures Includes(Collapse(a + (t + c), false), Trim(Collapse(t, false)))
  {
    hide Collapse, Trim, Includes;
    CollapseConcat(a, t + c, false);
    CollapseConcat(t, c, EndsBlank(a, false));
    var before := EndsBlank(a, false);
    var ca, ct, cc := Collapse(a, false), Collapse(t, before), Collapse(c, EndsBlank(t, before));
    assert Collapse(a + (t + c), false) == ca + ct + cc;
    OccursBetween(ca, ct, cc);
    CollapseStart(t);
    TrimSkipsSpace(Collapse(t, true));
    TrimIsInside(ct);
    IncludesTransitive(ca + ct + cc, ct, Trim(ct));
  }

  function Squashed(t: Text): Text { Trim(Collapse(t, false)) }

  /** Collapsing and trimming keep substrings. */
  lemma SquashKeeps(s: Text, t: Text)
    requires Includes(s, t)
    ensures Includes(Squashed(s), Squashed(t))
  {
    hide Collapse, Trim, Includes;
    var i := Occurrence(s, t);
    var a, c := s[..i], s[i + |t|..];
    assert s == a + (t + c);
    CollapsedPartInside(a, t, c);
    var core := Trim(Collapse(t, false));
    TrimIsPlain(Collapse(t, false));
    TrimKeeps(Collapse(s, false), core);
  }

  lemma Occurrence(s: Text, t: Text) returns (i: nat)
    requires Includes(s, t)
    ensures i + |t| <= |s| && s[i..i + |t|] == t
  {
    i :| 0 <= i <= |s| && OccursAt(s, t, i);
  }

  // ---------------------------------------------------------------------
  // Lowering first or last
  // ---------------------------------------------------------------------

  lemma {:induction false} CollapseAhead(abc: Alphabet, t: Text, after: bool)
    ensures Ahead(abc, Collapse(t, false), after) == Ahead(abc, t, after)
  {
    if t == [] { return; }
    BlankIsNoLetter(abc, t[0]);
    hide IsSpace;
    if IsSpace(t[0]) {
      CollapsedBlank(abc, t);
    } else {
      CollapseAhead(abc, t[1..], after);
      assert Collapse(t, false)[1..] == Collapse(t[1..], false);
    }
  }

  lemma CollapsedBlank(abc: Alphabet, t: Text)
    requires t != [] && IsSpace(t[0])
    ensures Collapse(t, false) != [] && Collapse(t, false)[0] == SPACE
    ensures !abc.cased(SPACE) && !abc.mark(SPACE)
  {
    BlankIsNoLetter(abc, SPACE);
  }

  /** Collapsing blanks and lowering commute, since blanks end words. */
  lemma {:induction false} CollapseLower(abc: Alphabet, t: Text, before: bool, after: bool, blank: bool)
    requires blank ==> !before
    ensures Collapse(LowerIn(abc, t, before, after), blank) == LowerIn(abc, Collapse(t, blank), before, after)
  {
    hide *;
    if t == [] {
      NothingLower(abc, before, after);
      NothingCollapses([], blank);
      return;
    }
    var u, rest := t[0], t[1..];
    var v := LowerCased(abc, u, before, Ahead(abc, rest, after));
    var behind := After(abc, u, before);
    assert t == [u] + rest;
    BlankIsNoLetter(abc, u);
    AfterBlank(abc, u, before);
    LowerStep(abc, u, rest, before, after);
    CollapseStep(u, rest, blank);
    CollapseLower(abc, rest, behind, after, IsSpace(u));
    CollapsedIs(u, blank);
    if IsSpace(u) {
      CollapseStep(u, LowerIn(abc, rest, behind, after), blank);
      SpaceIsBlank();
      if blank {
        assert [] + Collapse(rest, true) == Collapse(rest, true);
        NothingAhead(LowerIn(abc, Collapse(rest, true), false, after));
      } else {
        AfterBlank(abc, SPACE, before);
        LowerStep(abc, SPACE, Collapse(rest, true), before, after);
        BlankIsNoLetter(abc, SPACE);
      }
    } else {
      PlainPart(v, LowerIn(abc, rest, behind, after), blank);
      CollapseAhead(abc, rest, after);
      LowerStep(abc, u, Collapse(rest, false), before, after);
    }
  }

  lemma NothingAhead(t: Text)
    ensures [] + t == t
  {}

  lemma {:induction false} CollapsePlain(v: Text, blank: bool)
    requires v != [] && IsPlain(v)
    ensures Collapse(v, blank) == v && !EndsBlank(v, blank)
  {
    var u, rest := v[0], v[1..];
    assert u in v && v == [u] + rest && forall w :: w in rest ==> w in v;
    CollapseStep(u, rest, blank);
    hide Collapse, IsSpace, EndsBlank;
    if rest == [] {
      NothingCollapses([], false);
      assert [u] + [] == [u];
    } else {
      CollapsePlain(rest, false);
    }
  }

  /** A part without blanks is left alone. */
  lemma PlainPart(v: Text, rest: Text, blank: bool)
    requires v != [] && IsPlain(v)
    ensures Collapse(v + rest, blank) == v + Collapse(rest, false)
  {
    hide *;
    CollapsePlain(v, blank);
    CollapseConcat(v, rest, blank);
  }

  lemma SpaceIsBlank()
    ensures IsSpace(SPACE)
  {}

  lemma CollapsedIs(u: Unit, blank: bool)
    ensures Collapsed(u, blank) == if !IsSpace(u) then [u] else if blank then [] else [SPACE]
  {}

  lemma AfterBlank(abc: Alphabet, u: Unit, before: bool)
    ensures IsSpace(u) ==> !After(abc, u, before)
  {}

  lemma NothingTrims(abc: Alphabet, before: bool, after: bool)
    ensures TrimStart(LowerIn(abc, [], before, after)) == LowerIn(abc, TrimStart([]), before, after)
    ensures TrimEnd(LowerIn(abc, [], before, after)) == LowerIn(abc, TrimEnd([]), before, after)
  {}

  lemma PlainFront(v: Text, rest: Text)
    requires v != [] && IsPlain(v)
    ensures TrimStart(v + rest) == v + rest
  {
    assert v[0] in v;
    hide *;
    TrimStartStep(v[0], v[1..] + rest);
    HeadApart(v, rest);
  }

  lemma PlainBack(front: Text, v: Text)
    requires v != [] && IsPlain(v)
    ensures TrimEnd(front + v) == front + v
  {
    assert v[|v| - 1] in v;
    hide *;
    TrimEndStep(front + v[..|v| - 1], v[|v| - 1]);
    EndApart(front, v);
  }

  lemma {:induction false} TrimStartLower(abc: Alphabet, t: Text, after: bool)
    ensures TrimStart(LowerIn(abc, t, false, after)) == LowerIn(abc, TrimStart(t), false, after)
  {
    hide *;
    if t == [] {
      NothingTrims(abc, false, after);
      return;
    }
    var u, rest := t[0], t[1..];
    assert t == [u] + rest;
    var v := LowerCased(abc, u, false, Ahead(abc, rest, after));
    BlankIsNoLetter(abc, u);
    AfterBlank(abc, u, false);
    LowerStep(abc, u, rest, false, after);
    TrimStartStep(u, rest);
    if IsSpace(u) {
      TrimStartStep(u, LowerIn(abc, rest, After(abc, u, false), after));
      TrimStartLower(abc, rest, after);
    } else {
      PlainFront(v, LowerIn(abc, rest, After(abc, u, false), after));
    }
  }

  lemma {:induction false} TrimEndLower(abc: Alphabet, t: Text, before: bool)
    ensures TrimEnd(LowerIn(abc, t, before, false)) == LowerIn(abc, TrimEnd(t), before, false)
  {
    hide *;
    if t == [] {
      NothingTrims(abc, before, false);
      return;
    }
    var front, u := t[..|t| - 1], t[|t| - 1];
    assert t == front + [u];
    var v := LowerCased(abc, u, Behind(abc, front, before), false);
    BlankIsNoLetter(abc, u);
    LowerAtEnd(abc, front, u, before, false);
    LowerOne(abc, u, before, false);
    TrimEndStep(front, u);
    if IsSpace(u) {
      TrimEndStep(LowerIn(abc, front, before, Ahead(abc, [u], false)), u);
      TrimEndLower(abc, front, before);
    } else {
      PlainBack(LowerIn(abc, front, before, Ahead(abc, [u], false)), v);
    }
  }

  /** Lowering first or last makes no difference. */
  lemma NormaliseIs(abc: Alphabet, t: Text)
    ensures Normalise(abc, t) == Squashed(LowerCase(abc, t))
  {
    hide Collapse, TrimStart, TrimEnd, LowerIn;
    CollapseLower(abc, t, false, false, false);
    TrimStartLower(abc, Collapse(t, false), false);
    TrimEndLower(abc, TrimStart(Collapse(t, false)), false);
  }

  // ---------------------------------------------------------------------
  // Normalising keeps substrings, sigmas aside
  // ---------------------------------------------------------------------

  /** A part that is lowered as if it stood alone is kept. */
  lemma PartKept(abc: Alphabet, x: Text, t: Text, y: Text)
    requires LowerIn(abc, t, Behind(abc, x, false), Ahead(abc, y, false)) == LowerCase(abc, t)
    ensures Includes(Normalise(abc, x + t + y), Normalise(abc, t))
  {
    LowerThree(abc, x, t, y);
    hide Includes, Normalise, Squashed, LowerIn, Behind, Ahead;
    var before := LowerIn(abc, x, false, Ahead(abc, t + y, false));
    var after := LowerIn(abc, y, Behind(abc, x + t, false), false);
    NormaliseIs(abc, x + t + y);
    NormaliseIs(abc, t);
    OccursBetween(before, LowerCase(abc, t), after);
    SquashKeeps(LowerCase(abc, x + t + y), LowerCase(abc, t));
  }

  lemma LowerThree(abc: Alphabet, x: Text, t: Text, y: Text)
    ensures LowerCase(abc, x + t + y)
         == LowerIn(abc, x, false, Ahead(abc, t + y, false))
            + LowerIn(abc, t, Behind(abc, x, false), Ahead(abc, y, false))
            + LowerIn(abc, y, Behind(abc, x + t, false), false)
  {
    hide LowerIn, Behind, Ahead;
    LowerConcat(abc, x + t, y, false, false);
    LowerConcat(abc, x, t, false, Ahead(abc, y, false));
    LowerConcat(abc, t, y, false, false);
  }

  ghost predicate KeptIn(abc: Alphabet, x: Text, t: Text, y: Text) {
    Includes(Normalise(abc, x + t + y), Normalise(abc, t))
  }

  /** What stands in a text is found in it after both are normalised, whatever
      the text, exactly when no capital sigma at its edges can look outside. */
  lemma NormaliseKeepsSubstrings(abc: Alphabet, t: Text)
    ensures (forall x, y :: KeptIn(abc, x, t, y)) <==> EdgeSafe(abc, t)
  {
    hide Includes, Normalise, LowerIn, Behind, Ahead, EndsOpen, StartsOpen;
    if EdgeSafe(abc, t) {
      forall x, y ensures KeptIn(abc, x, t, y) {
        EdgeSafeLower(abc, t, Behind(abc, x, false), Ahead(abc, y, false));
        PartKept(abc, x, t, y);
      }
    } else if EndsOpen(abc, t, false) {
      LetterAfterBreaks(abc, t);
      assert !KeptIn(abc, [], t, [SMALL_SIGMA]);
    } else {
      LetterBeforeBreaks(abc, t);
      assert !KeptIn(abc, [FINAL_SIGMA], t, []);
    }
  }

  lemma {:induction false} CollapseCounts(t: Text, blank: bool, u: Unit)
    requires !IsSpace(u)
    ensures multiset(Collapse(t, blank))[u] == multiset(t)[u]
  {
    hide *;
    if t == [] {
      NothingCollapses([], blank);
    } else {
      assert t == [t[0]] + t[1..];
      CollapseCounts(t[1..], IsSpace(t[0]), u);
      CollapseStep(t[0], t[1..], blank);
      CollapsedIs(t[0], blank);
      SpaceIsBlank();
      var rest := Collapse(t[1..], IsSpace(t[0]));
      CountParts([t[0]], t[1..], u);
      CountParts(Collapsed(t[0], blank), rest, u);
      CountOne(t[0], u);
      CountOne(SPACE, u);
    }
  }

  lemma TrimCounts(t: Text, u: Unit)
    requires !IsSpace(u)
    ensures multiset(Trim(t))[u] == multiset(t)[u]
  {
    TrimStartCounts(t, u);
    TrimEndCounts(TrimStart(t), u);
    hide TrimStart, TrimEnd;
  }

  lemma TrimStartCounts(t: Text, u: Unit)
    requires !IsSpace(u)
    ensures multiset(TrimStart(t))[u] == multiset(t)[u]
  {
    var a := TrimStart(t);
    hide TrimStart, IsSpace;
    var blanks := t[..|t| - |a|];
    BlanksDoNotCount(blanks, u);
    assert t == blanks + a;
  }

  lemma TrimEndCounts(t: Text, u: Unit)
    requires !IsSpace(u)
    ensures multiset(TrimEnd(t))[u] == multiset(t)[u]
  {
    var r := TrimEnd(t);
    hide TrimEnd, IsSpace;
    var blanks := t[|r|..];
    BlanksDoNotCount(blanks, u);
    assert t == r + blanks;
  }

  lemma BlanksDoNotCount(t: Text, u: Unit)
    requires !IsSpace(u) && forall i :: 0 <= i < |t| ==> IsSpace(t[i])
    ensures multiset(t)[u] == 0
  {
    hide IsSpace;
    assert u !in t;
  }

  lemma NormaliseCounts(abc: Alphabet, t: Text, u: Unit)
    requires !IsSpace(u)
    ensures multiset(Normalise(abc, t))[u] == multiset(LowerCase(abc, t))[u]
  {
    hide *;
    NormaliseIs(abc, t);
    SquashedIs(LowerCase(abc, t));
    CollapseCounts(LowerCase(abc, t), false, u);
    TrimCounts(Collapse(LowerCase(abc, t), false), u);
  }

  lemma SquashedIs(t: Text)
    ensures Squashed(t) == Trim(Collapse(t, false))
  {}

  /** A text that holds more of a unit is not inside. */
  lemma TooMany(s: Text, t: Text, u: Unit)
    requires multiset(t)[u] > multiset(s)[u]
    ensures !Includes(s, t)
  {
    if Includes(s, t) { InsideCounts(s, t, u); }
  }

  lemma InsideCounts(s: Text, t: Text, u: Unit)
    requires Includes(s, t)
    ensures multiset(t)[u] <= multiset(s)[u]
  {
    var i := Occurrence(s, t);
    assert s == s[..i] + t + s[i + |t|..];
  }

  lemma LetterAfterBreaks(abc: Alphabet, t: Text)
    requires EndsOpen(abc, t, false)
    ensures !KeptIn(abc, [], t, [SMALL_SIGMA])
  {
    hide *;
    var u := SMALL_SIGMA;
    SigmasAlone(abc);
    assert [] + t + [u] == t + [u];
    LowerAtEnd(abc, t, u, false, false);
    EndCounts(abc, t, false);
    LowerCaseIs(abc, t);
    LowerCaseIs(abc, t + [u]);
    CountParts(LowerIn(abc, t, false, true), [u], FINAL_SIGMA);
    CountOne(u, FINAL_SIGMA);
    NormaliseCounts(abc, t, FINAL_SIGMA);
    NormaliseCounts(abc, t + [u], FINAL_SIGMA);
    TooMany(Normalise(abc, t + [u]), Normalise(abc, t), FINAL_SIGMA);
    KeptMeans(abc, [], t, [u]);
  }

  lemma LetterBeforeBreaks(abc: Alphabet, t: Text)
    requires StartsOpen(abc, t, false)
    ensures !KeptIn(abc, [FINAL_SIGMA], t, [])
  {
    hide *;
    var u := FINAL_SIGMA;
    SigmasAlone(abc);
    assert [u] + t + [] == [u] + t;
    LowerStep(abc, u, t, false, false);
    StartCounts(abc, t, false);
    LowerCaseIs(abc, t);
    LowerCaseIs(abc, [u] + t);
    CountParts([u], LowerIn(abc, t, true, false), SMALL_SIGMA);
    CountOne(u, SMALL_SIGMA);
    NormaliseCounts(abc, t, SMALL_SIGMA);
    NormaliseCounts(abc, [u] + t, SMALL_SIGMA);
    TooMany(Normalise(abc, [u] + t), Normalise(abc, t), SMALL_SIGMA);
    KeptMeans(abc, [u], t, []);
  }

  /** The small sigmas are letters, and stay as they are. */
  lemma SigmasAlone(abc: Alphabet)
    ensures FINAL_SIGMA != SMALL_SIGMA && !IsSpace(FINAL_SIGMA) && !IsSpace(SMALL_SIGMA)
    ensures forall g :: Ahead(abc, [SMALL_SIGMA], g)
    ensures forall b :: After(abc, FINAL_SIGMA, b)
    ensures forall b, a :: LowerCased(abc, SMALL_SIGMA, b, a) == [SMALL_SIGMA]
    ensures forall b, a :: LowerCased(abc, FINAL_SIGMA, b, a) == [FINAL_SIGMA]
  {}

  lemma LowerCaseIs(abc: Alphabet, t: Text)
    ensures LowerCase(abc, t) == LowerIn(abc, t, false, false)
  {}

  lemma KeptMeans(abc: Alphabet, x: Text, t: Text, y: Text)
    ensures KeptIn(abc, x, t, y) <==> Includes(Normalise(abc, x + t + y), Normalise(abc, t))
  {}
}
