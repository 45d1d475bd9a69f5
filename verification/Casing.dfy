/**
 Lower case as `toLowerCase` has it: a capital sigma becomes a final one at the
 end of a word, so what a text becomes depends on what stands around it.
 */
module Casing {
  import opened Texts

  const SIGMA: Unit := 0x3A3
  const SMALL_SIGMA: Unit := 0x3C3
  const FINAL_SIGMA: Unit := 0x3C2

  /** What the character tables say: how a unit is lowered on its own, which units
      are letters of a word, and which marks may stand between them. */
  datatype Letters = Letters(lower: Unit -> Text, cased: Unit -> bool, mark: Unit -> bool)

  predicate IsPrivate(u: Unit) { 0xE000 <= u < 0xF900 }

  /** The two small sigmas and private units: nothing else is lowered to them, but
      for the capital sigma. */
  predicate IsOwnLower(u: Unit) { u == SMALL_SIGMA || u == FINAL_SIGMA || IsPrivate(u) }

  /** Blanks, the bullet marks and private units, which end words. */
  predicate EndsWords(u: Unit) { IsSpace(u) || u == 0x2D || u == 0x2A || IsPrivate(u) }

  /** What is needed of the tables. Blanks are no marks: they are collapsed to
      spaces before anything is lowered. */
  ghost predicate IsAlphabet(a: Letters) {
    && a.cased(SIGMA) && a.cased(SMALL_SIGMA) && a.cased(FINAL_SIGMA)
    && (forall u: Unit :: a.mark(u) ==> !a.cased(u))
    && (forall u: Unit :: EndsWords(u) ==> !a.mark(u) && !a.cased(u))
    && (forall u: Unit :: IsSpace(u) || IsOwnLower(u) ==> a.lower(u) == [u])
    && (forall u: Unit :: !IsSpace(u) ==> a.lower(u) != [] && IsPlain(a.lower(u)))
    && (forall u: Unit, v: Unit :: u != SIGMA && v in a.lower(u) && IsOwnLower(v) ==> u == v)
  }

  /** No blank in it. */
  ghost predicate IsPlain(t: Text) { forall u :: u in t ==> !IsSpace(u) }

  /** ASCII letters and the Greek ones from U+0391 to U+03C9. */
  const ASCII_AND_GREEK: Letters := Letters(
    (u: Unit) => [if 0x41 <= u <= 0x5A || (0x391 <= u <= 0x3A9 && u != 0x3A2) then u + 32 else u],
    (u: Unit) => IsLetter(u) || (0x391 <= u <= 0x3C9 && u != 0x3A2),
    (u: Unit) => u == 0x27 || u == 0x2E || u == 0x3A || u == 0x5E || u == 0x60)

  lemma GreekCases()
    ensures var a := ASCII_AND_GREEK;
            && a.cased(SIGMA) && a.cased(SMALL_SIGMA) && a.cased(FINAL_SIGMA)
            && (forall u: Unit :: a.mark(u) ==> !a.cased(u))
  {}

  lemma GreekWords()
    ensures var a := ASCII_AND_GREEK;
            forall u: Unit :: EndsWords(u) ==> !a.mark(u) && !a.cased(u)
  {}

  lemma GreekLowers()
    ensures var a := ASCII_AND_GREEK;
            && (forall u: Unit :: IsSpace(u) || IsOwnLower(u) ==> a.lower(u) == [u])
            && (forall u: Unit :: !IsSpace(u) ==> a.lower(u) != [] && IsPlain(a.lower(u)))
  {}

  lemma GreekOwn()
    ensures var a := ASCII_AND_GREEK;
            forall u: Unit, v: Unit :: u != SIGMA && v in a.lower(u) && IsOwnLower(v) ==> u == v
  {}

  /** An example of such tables. */
  function AsciiAndGreek(): (a: Letters)
    ensures IsAlphabet(a)
  {
    GreekCases();
    GreekWords();
    GreekLowers();
    GreekOwn();
    hide IsSpace, IsOwnLower, EndsWords, ASCII_AND_GREEK, IsPlain;
    ASCII_AND_GREEK
  }

  /** Any tables at all that meet this. */
  type Alphabet = a: Letters | IsAlphabet(a) witness AsciiAndGreek()

  /** Does a letter stand before what follows `u`, given what stood before `u`? */
  predicate After(abc: Alphabet, u: Unit, before: bool) { abc.cased(u) || (abc.mark(u) && before) }

  /** Does a letter stand before what follows `t`? */
  predicate Behind(abc: Alphabet, t: Text, before: bool) {
    if t == [] then before else Behind(abc, t[1..], After(abc, t[0], before))
  }

  /** Does a letter come next, marks aside? */
  predicate Ahead(abc: Alphabet, t: Text, after: bool) {
    if t == [] then after else abc.cased(t[0]) || (abc.mark(t[0]) && Ahead(abc, t[1..], after))
  }

  /** What one unit becomes, given whether letters stand before and after it. */
  function LowerCased(abc: Alphabet, u: Unit, before: bool, after: bool): Text {
    if u == SIGMA then [if before && !after then FINAL_SIGMA else SMALL_SIGMA] else abc.lower(u)
  }

  /** `t` in lower case, where it stands after and before other text. */
  function LowerIn(abc: Alphabet, t: Text, before: bool, after: bool): Text {
    if t == [] then []
    else
      LowerCased(abc, t[0], before, Ahead(abc, t[1..], after))
      + LowerIn(abc, t[1..], After(abc, t[0], before), after)
  }

  /** `t.toLowerCase()` */
  function LowerCase(abc: Alphabet, t: Text): Text { LowerIn(abc, t, false, false) }

  // ---------------------------------------------------------------------
  // Parts
  // ---------------------------------------------------------------------

  lemma LowerStep(abc: Alphabet, u: Unit, t: Text, before: bool, after: bool)
    ensures LowerIn(abc, [u] + t, before, after)
         == LowerCased(abc, u, before, Ahead(abc, t, after)) + LowerIn(abc, t, After(abc, u, before), after)
    ensures Behind(abc, [u] + t, before) == Behind(abc, t, After(abc, u, before))
    ensures Ahead(abc, [u] + t, after) == (abc.cased(u) || (abc.mark(u) && Ahead(abc, t, after)))
  {
    hide LowerCased, After;
    assert ([u] + t)[1..] == t;
  }

  lemma NothingLower(abc: Alphabet, before: bool, after: bool)
    ensures LowerIn(abc, [], before, after) == [] && Behind(abc, [], before) == before && Ahead(abc, [], after) == after
  {}

  /** Each part of a text is lowered where it stands. */
  lemma {:induction false} LowerConcat(abc: Alphabet, a: Text, b: Text, before: bool, after: bool)
    ensures LowerIn(abc, a + b, before, after)
         == LowerIn(abc, a, before, Ahead(abc, b, after)) + LowerIn(abc, b, Behind(abc, a, before), after)
    ensures Behind(abc, a + b, before) == Behind(abc, b, Behind(abc, a, before))
    ensures Ahead(abc, a + b, after) == Ahead(abc, a, Ahead(abc, b, after))
  {
    hide *;
    if a == [] {
      assert a + b == b;
      NothingLower(abc, before, Ahead(abc, b, after));
    } else {
      var u, rest := a[0], a[1..];
      assert a == [u] + rest && a + b == [u] + (rest + b);
      LowerConcat(abc, rest, b, After(abc, u, before), after);
      LowerStep(abc, u, rest, before, Ahead(abc, b, after));
      LowerStep(abc, u, rest + b, before, after);
      TextsRegroup(LowerCased(abc, u, before, Ahead(abc, rest, Ahead(abc, b, after))),
                   LowerIn(abc, rest, After(abc, u, before), Ahead(abc, b, after)),
                   LowerIn(abc, b, Behind(abc, a, before), after));
    }
  }

  lemma TextsRegroup(a: Text, b: Text, c: Text)
    ensures a + (b + c) == a + b + c
  {}

  lemma LowerOne(abc: Alphabet, u: Unit, before: bool, after: bool)
    ensures LowerIn(abc, [u], before, after) == LowerCased(abc, u, before, after)
    ensures Behind(abc, [u], before) == After(abc, u, before)
    ensures Ahead(abc, [u], after) == (abc.cased(u) || (abc.mark(u) && after))
  {
    NothingLower(abc, After(abc, u, before), after);
    LowerStep(abc, u, [], before, after);
    hide LowerIn, Behind, Ahead, LowerCased;
    assert [u] + [] == [u] && LowerCased(abc, u, before, after) + [] == LowerCased(abc, u, before, after);
  }

  /** A text, told at its last unit. */
  lemma LowerAtEnd(abc: Alphabet, t: Text, u: Unit, before: bool, after: bool)
    ensures LowerIn(abc, t + [u], before, after)
         == LowerIn(abc, t, before, Ahead(abc, [u], after)) + LowerCased(abc, u, Behind(abc, t, before), after)
    ensures Behind(abc, t + [u], before) == After(abc, u, Behind(abc, t, before))
  {
    hide *;
    LowerConcat(abc, t, [u], before, after);
    LowerOne(abc, u, Behind(abc, t, before), after);
  }

  /** Blanks end words and stay as they are; nothing else becomes blank. */
  lemma BlankIsNoLetter(abc: Alphabet, u: Unit)
    ensures IsSpace(u) ==> !abc.cased(u) && !abc.mark(u)
    ensures IsSpace(u) ==> forall b, c :: LowerCased(abc, u, b, c) == [u]
    ensures !IsSpace(u) ==> forall b, c :: LowerCased(abc, u, b, c) != [] && IsPlain(LowerCased(abc, u, b, c))
  {
    assert IsSpace(u) ==> EndsWords(u);
    assert !IsSpace(SMALL_SIGMA) && !IsSpace(FINAL_SIGMA) && !IsSpace(SIGMA);
    hide IsSpace;
  }

  // ---------------------------------------------------------------------
  // Where the context counts
  // ---------------------------------------------------------------------

  /** Does `t` end in a capital sigma, marks aside, that stands after a letter? */
  predicate EndsOpen(abc: Alphabet, t: Text, before: bool) {
    t != [] &&
    var front, u := t[..|t| - 1], t[|t| - 1];
    (u == SIGMA && Behind(abc, front, before)) || (abc.mark(u) && EndsOpen(abc, front, before))
  }

  /** Does `t` start with a capital sigma, marks aside, that no letter comes after? */
  predicate StartsOpen(abc: Alphabet, t: Text, after: bool) {
    t != [] &&
    ((t[0] == SIGMA && !Ahead(abc, t[1..], after)) || (abc.mark(t[0]) && StartsOpen(abc, t[1..], after)))
  }

  /** What follows a text changes it exactly when it ends open: one final sigma
      is lost. */
  lemma {:induction false} EndCounts(abc: Alphabet, t: Text, before: bool)
    ensures !EndsOpen(abc, t, before) ==> LowerIn(abc, t, before, true) == LowerIn(abc, t, before, false)
    ensures EndsOpen(abc, t, before) ==>
              multiset(LowerIn(abc, t, before, true))[FINAL_SIGMA] + 1
              == multiset(LowerIn(abc, t, before, false))[FINAL_SIGMA]
  {
    hide *;
    if t == [] {
      NothingLower(abc, before, true);
      NothingLower(abc, before, false);
      NothingOpen(abc, before);
    } else {
      var front, u := t[..|t| - 1], t[|t| - 1];
      assert t == front + [u];
      Kinds(abc, u);
      EndsStep(abc, front, u, before);
      LowerAtEnd(abc, front, u, before, true);
      LowerAtEnd(abc, front, u, before, false);
      LowerOne(abc, u, before, true);
      LowerOne(abc, u, before, false);
      EndCounts(abc, front, before);
      CountOne(FINAL_SIGMA, FINAL_SIGMA);
      CountOne(SMALL_SIGMA, FINAL_SIGMA);
      var behind := Behind(abc, front, before);
      CountParts(LowerIn(abc, front, before, Ahead(abc, [u], true)), LowerCased(abc, u, behind, true), FINAL_SIGMA);
      CountParts(LowerIn(abc, front, before, Ahead(abc, [u], false)), LowerCased(abc, u, behind, false), FINAL_SIGMA);
    }
  }

  lemma NothingOpen(abc: Alphabet, flag: bool)
    ensures !EndsOpen(abc, [], flag) && !StartsOpen(abc, [], flag)
  {}

  /** A unit is a letter, a mark or neither, and only a capital sigma looks around. */
  lemma Kinds(abc: Alphabet, u: Unit)
    ensures u == SIGMA ==> abc.cased(u)
    ensures abc.mark(u) ==> !abc.cased(u)
    ensures u == SIGMA ==> forall b, a :: LowerCased(abc, u, b, a) == [if b && !a then FINAL_SIGMA else SMALL_SIGMA]
    ensures u != SIGMA ==> forall b, a :: LowerCased(abc, u, b, a) == abc.lower(u)
    ensures FINAL_SIGMA != SMALL_SIGMA
  {}

  lemma EndsStep(abc: Alphabet, front: Text, u: Unit, before: bool)
    ensures EndsOpen(abc, front + [u], before)
        <==> (u == SIGMA && Behind(abc, front, before)) || (abc.mark(u) && EndsOpen(abc, front, before))
  {
    assert (front + [u])[..|front|] == front;
  }

  lemma StartsStep(abc: Alphabet, u: Unit, rest: Text, after: bool)
    ensures StartsOpen(abc, [u] + rest, after)
        <==> (u == SIGMA && !Ahead(abc, rest, after)) || (abc.mark(u) && StartsOpen(abc, rest, after))
  {
    assert ([u] + rest)[1..] == rest;
  }

  lemma AfterIs(abc: Alphabet, u: Unit)
    ensures forall b :: After(abc, u, b) == (abc.cased(u) || (abc.mark(u) && b))
  {}

  lemma CountParts(a: Text, b: Text, u: Unit)
    ensures multiset(a + b)[u] == multiset(a)[u] + multiset(b)[u]
  {}

  lemma CountOne(u: Unit, v: Unit)
    ensures multiset([u])[v] == if u == v then 1 else 0
  {}

  /** What precedes a text changes it exactly when it starts open: one small sigma
      is lost. */
  lemma {:induction false} StartCounts(abc: Alphabet, t: Text, after: bool)
    ensures !StartsOpen(abc, t, after) ==> LowerIn(abc, t, true, after) == LowerIn(abc, t, false, after)
    ensures StartsOpen(abc, t, after) ==>
              multiset(LowerIn(abc, t, true, after))[SMALL_SIGMA] + 1
              == multiset(LowerIn(abc, t, false, after))[SMALL_SIGMA]
  {
    hide *;
    if t == [] {
      NothingLower(abc, true, after);
      NothingLower(abc, false, after);
      NothingOpen(abc, after);
    } else {
      var u, rest := t[0], t[1..];
      assert t == [u] + rest;
      Kinds(abc, u);
      AfterIs(abc, u);
      StartsStep(abc, u, rest, after);
      LowerStep(abc, u, rest, true, after);
      LowerStep(abc, u, rest, false, after);
      StartCounts(abc, rest, after);
      CountOne(FINAL_SIGMA, SMALL_SIGMA);
      CountOne(SMALL_SIGMA, SMALL_SIGMA);
      var ahead := Ahead(abc, rest, after);
      CountParts(LowerCased(abc, u, true, ahead), LowerIn(abc, rest, After(abc, u, true), after), SMALL_SIGMA);
      CountParts(LowerCased(abc, u, false, ahead), LowerIn(abc, rest, After(abc, u, false), after), SMALL_SIGMA);
    }
  }

  /** Does `t` come out the same wherever it stands? */
  predicate EdgeSafe(abc: Alphabet, t: Text) { !EndsOpen(abc, t, false) && !StartsOpen(abc, t, false) }

  /** Only marks stand before an open end that no letter of the text precedes. */
  lemma {:induction false} OpenEndOrStart(abc: Alphabet, t: Text)
    ensures EndsOpen(abc, t, true) ==> EndsOpen(abc, t, false) || StartsOpen(abc, t, false)
  {
    if t != [] && EndsOpen(abc, t, true) && !EndsOpen(abc, t, false) {
      var front, u := t[..|t| - 1], t[|t| - 1];
      assert t == front + [u];
      if u == SIGMA {
        MarksOnly(abc, front);
        StartsAtSigma(abc, front, u);
      } else {
        OpenEndOrStart(abc, front);
        StartsLonger(abc, front, u);
      }
    }
  }

  /** Only marks pass on what stood before. */
  lemma {:induction false} MarksOnly(abc: Alphabet, t: Text)
    requires Behind(abc, t, true) && !Behind(abc, t, false)
    ensures forall i :: 0 <= i < |t| ==> abc.mark(t[i])
  {
    if t != [] { MarksOnly(abc, t[1..]); }
  }

  lemma {:induction false} StartsAtSigma(abc: Alphabet, marks: Text, u: Unit)
    requires u == SIGMA && forall i :: 0 <= i < |marks| ==> abc.mark(marks[i])
    ensures StartsOpen(abc, marks + [u], false)
  {
    if marks != [] {
      assert (marks + [u])[1..] == marks[1..] + [u];
      StartsAtSigma(abc, marks[1..], u);
    }
  }

  lemma {:induction false} StartsLonger(abc: Alphabet, t: Text, u: Unit)
    requires StartsOpen(abc, t, false) && abc.mark(u)
    ensures StartsOpen(abc, t + [u], false)
  {
    assert (t + [u])[1..] == t[1..] + [u];
    LowerConcat(abc, t[1..], [u], false, false);
    LowerOne(abc, u, false, false);
    if t[0] != SIGMA { StartsLonger(abc, t[1..], u); }
  }

  lemma EdgeSafeLower(abc: Alphabet, t: Text, before: bool, after: bool)
    requires EdgeSafe(abc, t)
    ensures LowerIn(abc, t, before, after) == LowerCase(abc, t)
  {
    hide LowerIn, EndsOpen, StartsOpen;
    OpenEndOrStart(abc, t);
    EndCounts(abc, t, before);
    StartCounts(abc, t, false);
  }

  // ---------------------------------------------------------------------
  // What lowering does not make
  // ---------------------------------------------------------------------

  lemma OwnLower(abc: Alphabet, u: Unit, v: Unit)
    requires IsOwnLower(v) && u != v && (u == SIGMA ==> IsPrivate(v))
    ensures forall b, a :: multiset(LowerCased(abc, u, b, a))[v] == 0
  {
    assert u != SIGMA ==> v !in abc.lower(u);
  }

  /** Lowering brings in no private unit, and no small or final sigma but from a
      capital one. */
  lemma {:induction false} NoneMade(abc: Alphabet, t: Text, before: bool, after: bool, v: Unit)
    requires IsOwnLower(v) && v !in t && (SIGMA in t ==> IsPrivate(v))
    ensures multiset(LowerIn(abc, t, before, after))[v] == 0
  {
    hide *;
    if t == [] {
      NothingLower(abc, before, after);
    } else {
      var u, rest := t[0], t[1..];
      assert t == [u] + rest;
      LowerStep(abc, u, rest, before, after);
      OwnLower(abc, u, v);
      NoneMade(abc, rest, After(abc, u, before), after, v);
      var behind, ahead := After(abc, u, before), Ahead(abc, rest, after);
      CountParts(LowerCased(abc, u, before, ahead), LowerIn(abc, rest, behind, after), v);
    }
  }
}
