/**
 Exactly which entries a changelog may lose against itself, and a family that it
 does lose: identities cut off right after a capital sigma inside a word
 (`src/lib/changelogGate.ts`).
 */
module ChangelogSigma {
  import opened Texts
  import opened Casing
  import opened Changelog
  import opened ChangelogNormal
  import opened ChangelogReading
  import opened ChangelogLosses

  const HEADING: Text := Lit("## [Unreleased]")

  lemma HeadingUnits()
    ensures OpensUnreleased(HEADING) && NEWLINE !in HEADING && SIGMA !in HEADING && FINAL_SIGMA !in HEADING
  {}

  // ---------------------------------------------------------------------
  // A unit that keeps two parts of a text apart
  // ---------------------------------------------------------------------

  /** A private unit that does not occur in `t`. */
  lemma {:induction false} FreshUnit(t: Text, from: nat) returns (z: Unit)
    requires 0xE000 <= from && from + |t| < 0xF900
    ensures from <= z <= from + |t| && z !in t
    decreases |t|
  {
    if from !in t {
      z := from;
    } else {
      var i :| 0 <= i < |t| && t[i] == from;
      var rest := t[..i] + t[i + 1..];
      z := FreshUnit(rest, from + 1);
      assert t == t[..i] + [t[i]] + t[i + 1..];
    }
  }

  /** What does not hold a unit lies on one side of it. */
  lemma OneSide(a: Text, z: Unit, b: Text, key: Text)
    requires Includes(a + [z] + b, key) && z !in key
    ensures Includes(a, key) || Includes(b, key)
  {
    var s := a + [z] + b;
    var i := Occurrence(s, key);
    assert s[|a|] == z;
    if i + |key| <= |a| {
      assert a[i..i + |key|] == key;
      assert OccursAt(a, key, i);
    } else if i > |a| {
      var j := i - |a| - 1;
      assert b[j..j + |key|] == key;
      assert OccursAt(b, key, j);
    } else {
      Spanned(s, key, i, |a|);
    }
  }

  lemma Spanned(s: Text, key: Text, i: nat, j: nat)
    requires i <= j < i + |key| <= |s| && s[i..i + |key|] == key
    ensures s[j] in key
  {
    assert key[j - i] == s[j];
  }

  /** The heading, a line of one unit, and the bullet. */
  function Separated(z: Unit, line: Text): Text { Join([HEADING, [z], line], [NEWLINE]) }

  lemma SeparatedText(z: Unit, line: Text)
    ensures Separated(z, line) == HEADING + [NEWLINE] + [z] + ([NEWLINE] + line)
  {
    JoinPrepend(HEADING, [[z], line], [NEWLINE]);
    JoinPrepend([z], [line], [NEWLINE]);
    assert [HEADING] + [[z], line] == [HEADING, [z], line] && [[z]] + [line] == [[z], line];
    assert Join([line], [NEWLINE]) == line;
    hide Join, HEADING;
    assert HEADING + [NEWLINE] + ([z] + [NEWLINE] + line) == HEADING + [NEWLINE] + [z] + ([NEWLINE] + line);
  }

  lemma BulletLine(line: Text)
    requires IsBullet(line)
    ensures !OpensSection(line) && line != []
  {
    assert Lit("## ")[0] == 0x23;
  }

  lemma PrivateLine(z: Unit)
    requires IsPrivate(z)
    ensures !OpensSection([z]) && !IsSpace(z) && z != NEWLINE
  {
    assert |Lit("## ")| == 3;
  }

  /** The bullet is read from it. */
  lemma SeparatedLists(z: Unit, line: Text)
    requires IsPrivate(z) && IsBullet(line) && NEWLINE !in line
    ensures line in UnreleasedBullets(Separated(z, line))
  {
    HeadingUnits();
    BulletLine(line);
    PrivateLine(z);
    hide HEADING, IsBullet, OpensSection, OpensUnreleased, Split, Join, UnreleasedBullets;
    SplitOfJoin([HEADING, [z], line], NEWLINE);
    var lines := Lines(Separated(z, line));
    assert lines == [HEADING, [z], line] && FindUnreleased(lines) == 0;
    assert IsEntryLine(lines, 2, line);
    BulletsExactly(Separated(z, line), line);
  }

  /** What the parts of the separated text become. */
  lemma SeparatedLower(abc: Alphabet, z: Unit, line: Text) returns (a: Text)
    requires IsPrivate(z)
    ensures LowerCase(abc, Separated(z, line)) == a + [z] + ([NEWLINE] + LowerCase(abc, line))
    ensures multiset(a)[FINAL_SIGMA] == 0
  {
    HeadingUnits();
    PrivateStays(abc, z);
    BreakStays(abc);
    hide *;
    SeparatedText(z, line);
    var x, y := HEADING + [NEWLINE], [NEWLINE] + line;
    LowerThree(abc, x, [z], y);
    a := LowerIn(abc, x, false, Ahead(abc, [z] + y, false));
    NoSigmaAhead();
    NoneMade(abc, x, false, Ahead(abc, [z] + y, false), FINAL_SIGMA);
    LowerOne(abc, z, Behind(abc, x, false), Ahead(abc, y, false));
    LowerStep(abc, NEWLINE, line, Behind(abc, x + [z], false), false);
    LowerCaseIs(abc, line);
  }

  lemma NoSigmaAhead()
    ensures IsOwnLower(FINAL_SIGMA) && FINAL_SIGMA != NEWLINE && SIGMA != NEWLINE
  {}

  lemma PrivateStays(abc: Alphabet, z: Unit)
    requires IsPrivate(z)
    ensures forall b, a :: LowerCased(abc, z, b, a) == [z]
  {
    assert IsOwnLower(z);
  }

  lemma BreakStays(abc: Alphabet)
    ensures forall b :: !After(abc, NEWLINE, b)
    ensures forall b, a :: LowerCased(abc, NEWLINE, b, a) == [NEWLINE]
  {
    assert IsSpace(NEWLINE);
    BlankIsNoLetter(abc, NEWLINE);
    AfterIs(abc, NEWLINE);
    hide IsSpace;
  }

  // ---------------------------------------------------------------------
  // Exactly the entries that may be lost
  // ---------------------------------------------------------------------

  lemma OpenIdentity(abc: Alphabet, line: Text)
    requires IsBullet(line) && !CutSafe(abc, line, false)
    ensures |Identity(line)| <= IDENTITY_MAX && EndsOpen(abc, Identity(line), false)
    ensures EntryOf(abc, line).key == Normalise(abc, Identity(line))
  {
    CutSafeIff(abc, line);
    hide EndsOpen, Ahead, Normalise;
  }

  /** The key of an open identity holds a final sigma, and no private unit that the
      identity does not. */
  lemma OpenKey(abc: Alphabet, id: Text, z: Unit)
    requires EndsOpen(abc, id, false) && IsPrivate(z) && z !in id
    ensures multiset(Normalise(abc, id))[FINAL_SIGMA] > 0 && z !in Normalise(abc, id)
  {
    PrivateLine(z);
    SigmasAlone(abc);
    assert IsOwnLower(z);
    hide *;
    LowerCaseIs(abc, id);
    EndCounts(abc, id, false);
    NormaliseCounts(abc, id, FINAL_SIGMA);
    NoneMade(abc, id, false, false, z);
    NormaliseCounts(abc, id, z);
  }

  /** A bullet that does not keep its key is lost by some changelog that has it. */
  lemma LostSomewhere(abc: Alphabet, line: Text) returns (c: Text)
    requires IsBullet(line) && NEWLINE !in line && !KeepsKey(abc, line)
    ensures line in UnreleasedBullets(c) && !Includes(Normalise(abc, c), EntryOf(abc, line).key)
  {
    PrivateRoom();
    hide *;
    SafeKeepsKey(abc, line);
    OpenIdentity(abc, line);
    var id := Identity(line);
    var z := FreshUnit(id, 0xE000);
    PrivateBetween(z, |id|);
    OpenKey(abc, id, z);
    c := Separated(z, line);
    SeparatedLists(z, line);
    if Includes(Normalise(abc, c), Normalise(abc, id)) { KeyOnOneSide(abc, z, line); }
  }

  lemma PrivateRoom()
    ensures 0xE000 + IDENTITY_MAX < 0xF900
  {}

  lemma PrivateBetween(z: Unit, n: nat)
    requires 0xE000 <= z <= 0xE000 + n && n <= IDENTITY_MAX
    ensures IsPrivate(z)
  {}

  lemma KeyIs(abc: Alphabet, line: Text)
    requires IsBullet(line)
    ensures EntryOf(abc, line).key == Normalise(abc, Identity(line))
  {}

  /** If the separated text holds the key, the line does. */
  lemma KeyOnOneSide(abc: Alphabet, z: Unit, line: Text)
    requires IsPrivate(z) && IsBullet(line)
    requires var key := EntryOf(abc, line).key;
             && Includes(Normalise(abc, Separated(z, line)), key)
             && z !in key && multiset(key)[FINAL_SIGMA] > 0
    ensures KeepsKey(abc, line)
  {
    hide *;
    PrivateLine(z);
    SigmasAlone(abc);
    KeyIs(abc, line);
    var key, id := EntryOf(abc, line).key, Identity(line);
    var a := SeparatedLower(abc, z, line);
    var b := [NEWLINE] + LowerCase(abc, line);
    NormaliseIs(abc, Separated(z, line));
    SquashedIs(a + [z] + b);
    TrimIsInside(Collapse(a + [z] + b, false));
    IncludesTransitive(Collapse(a + [z] + b, false), Normalise(abc, Separated(z, line)), key);
    CollapseAround(a, z, b);
    OneSide(Collapse(a, false), z, Collapse(b, false), key);
    CollapseCounts(a, false, FINAL_SIGMA);
    if Includes(Collapse(a, false), key) { InsideCounts(Collapse(a, false), key, FINAL_SIGMA); }
    KeyIsPlain(abc, id);
    TrimKeeps(Collapse(b, false), key);
    SquashedIs(b);
    BreakSquashed(LowerCase(abc, line));
    NormaliseIs(abc, line);
    KeepsMeans(abc, line);
  }

  lemma CollapseAround(a: Text, z: Unit, b: Text)
    requires !IsSpace(z)
    ensures Collapse(a + [z] + b, false) == Collapse(a, false) + [z] + Collapse(b, false)
  {
    PlainOne(z);
    hide *;
    CollapseConcat(a + [z], b, false);
    CollapseConcat(a, [z], false);
    CollapsePlain([z], EndsBlank(a, false));
    EndsPlain(a, z);
  }

  lemma PlainOne(z: Unit)
    requires !IsSpace(z)
    ensures IsPlain([z])
  {}

  lemma EndsPlain(a: Text, z: Unit)
    requires !IsSpace(z)
    ensures !EndsBlank(a + [z], false)
  {}

  lemma BreakSquashed(t: Text)
    ensures Squashed([NEWLINE] + t) == Squashed(t)
  {
    BreakIsBlank();
    hide *;
    SquashedIs([NEWLINE] + t);
    SquashedIs(t);
    CollapseStep(NEWLINE, t, false);
    CollapsedIs(NEWLINE, false);
    CollapseStart(t);
    TrimSkipsSpace(Collapse(t, true));
  }

  lemma BreakIsBlank()
    ensures IsSpace(NEWLINE)
  {}

  /** No changelog that has the bullet loses its entry against itself. */
  ghost predicate NeverLost(abc: Alphabet, line: Text)
    requires IsBullet(line)
  {
    forall c :: line in UnreleasedBullets(c) ==> EntryOf(abc, line) !in Lost(abc, c, c)
  }

  /** An entry is never lost against its own changelog, whatever the changelog,
      exactly when its key occurs in its own line, both normalised. A bullet that
      is not cut at an open sigma meets this. */
  lemma NeverLostIff(abc: Alphabet, line: Text)
    requires IsBullet(line) && NEWLINE !in line
    ensures NeverLost(abc, line) <==> KeepsKey(abc, line)
    ensures CutSafe(abc, line, false) ==> NeverLost(abc, line)
  {
    hide UnreleasedBullets, Lost, EntryOf, IsBullet, CutSafe, KeepsKey, Includes, Normalise;
    SafeKeepsKey(abc, line);
    if KeepsKey(abc, line) {
      forall c | line in UnreleasedBullets(c) ensures EntryOf(abc, line) !in Lost(abc, c, c) {
        BulletKept(abc, c, line);
        LostExactly(abc, c, c, EntryOf(abc, line));
      }
    } else {
      var c := LostSomewhere(abc, line);
      LostExactly(abc, c, c, EntryOf(abc, line));
      ListedEntry(abc, UnreleasedBullets(c), line);
    }
  }

  lemma BulletKept(abc: Alphabet, c: Text, line: Text)
    requires line in UnreleasedBullets(c) && IsBullet(line) && KeepsKey(abc, line)
    ensures Includes(Normalise(abc, c), EntryOf(abc, line).key)
  {
    hide UnreleasedBullets, FindUnreleased, Includes, KeepsKey, IsBullet, EntryOf, Normalise;
    var lines := Lines(c);
    BulletsAreLines(c, line);
    JoinOfSplit(c, NEWLINE);
    var k :| FindUnreleased(lines) < k < |lines| && lines[k] == line;
    LineKeepsKey(abc, lines, k);
  }

  lemma ListedEntry(abc: Alphabet, bullets: seq<Text>, line: Text)
    requires forall i :: 0 <= i < |bullets| ==> IsBullet(bullets[i])
    requires line in bullets && IsBullet(line)
    ensures EntryOf(abc, line) in EntriesOf(abc, bullets)
  {
    hide EntryOf, IsBullet;
    var i :| 0 <= i < |bullets| && bullets[i] == line;
    assert EntriesOf(abc, bullets)[i] == EntryOf(abc, line);
  }

  /** No release cut of a changelog that has the bullet loses its entry. */
  ghost predicate NeverCutAway(abc: Alphabet, line: Text)
    requires IsBullet(line)
  {
    forall c, opening :: line in UnreleasedBullets(c) ==> EntryOf(abc, line) !in Lost(abc, c, ReleaseCut(c, opening))
  }

  /** Release cuts are safe for an entry under exactly the same condition. */
  lemma NeverCutAwayIff(abc: Alphabet, line: Text)
    requires IsBullet(line) && NEWLINE !in line
    ensures NeverCutAway(abc, line) <==> KeepsKey(abc, line)
  {
    hide UnreleasedBullets, Lost, EntryOf, IsBullet, KeepsKey, Includes, Normalise, ReleaseCut, Join;
    if KeepsKey(abc, line) {
      forall c, opening | line in UnreleasedBullets(c)
        ensures EntryOf(abc, line) !in Lost(abc, c, ReleaseCut(c, opening))
      {
        var parts, k := BulletInCut(c, opening, line);
        LineKeepsKey(abc, parts, k);
        LostExactly(abc, c, ReleaseCut(c, opening), EntryOf(abc, line));
      }
    } else {
      var c := LostSomewhere(abc, line);
      var opening := SameCut(c);
      LostExactly(abc, c, c, EntryOf(abc, line));
      ListedEntry(abc, UnreleasedBullets(c), line);
    }
  }

  /** Putting the heading itself in its place changes nothing. */
  lemma SameCut(c: Text) returns (opening: seq<Text>)
    ensures ReleaseCut(c, opening) == c
  {
    hide FindUnreleased, Join, Split;
    var lines := Lines(c);
    var start := FindUnreleased(lines);
    opening := [];
    if start < |lines| {
      opening := [lines[start]];
      assert lines == lines[..start] + opening + lines[start + 1..];
      JoinOfSplit(c, NEWLINE);
    }
  }

  // ---------------------------------------------------------------------
  // A family that is lost, and one that stays
  // ---------------------------------------------------------------------

  /** A word of 79 letters and one more letter, of any alphabet. */
  ghost predicate IsWordOf79(abc: Alphabet, word: Text, last: Unit) {
    && |word| == IDENTITY_MAX - 1
    && (forall u :: u in word + [last] ==> abc.cased(u) && u != SIGMA && u != FINAL_SIGMA)
  }

  /** `- `, the word, a capital sigma and what follows. */
  function CutLine(word: Text, rest: Text): Text { [DASH, SPACE] + (word + [SIGMA]) + rest }

  lemma WordUnits(abc: Alphabet, word: Text, last: Unit)
    requires IsWordOf79(abc, word, last)
    ensures word != [] && word[0] != STAR && abc.cased(last) && abc.cased(word[|word| - 1])
    ensures SIGMA !in word && FINAL_SIGMA !in word && last != SIGMA && last != FINAL_SIGMA
    ensures NEWLINE !in word && NEWLINE != last && NEWLINE != SIGMA
  {
    assert EndsWords(STAR) && EndsWords(NEWLINE);
    assert word[0] in word + [last] && word[|word| - 1] in word + [last] && last in word + [last];
    forall u | u in word ensures u != SIGMA && u != FINAL_SIGMA && u != NEWLINE { assert u in word + [last]; }
    hide EndsWords;
  }

  lemma CutIdentity(word: Text, rest: Text)
    requires |word| == IDENTITY_MAX - 1 && word[0] != STAR
    ensures IsBullet(CutLine(word, rest)) && Identity(CutLine(word, rest)) == word + [SIGMA]
    ensures Beyond(CutLine(word, rest)) == rest
  {
    var line := CutLine(word, rest);
    assert line[2] == word[0];
    assert line[2..2 + IDENTITY_MAX] == word + [SIGMA];
    if |rest| == 0 { assert line[2..] == word + [SIGMA]; }
    assert line[2 + IDENTITY_MAX..] == rest;
  }

  lemma {:induction false} LetterBehind(abc: Alphabet, t: Text, before: bool)
    requires t != [] && abc.cased(t[|t| - 1])
    ensures Behind(abc, t, before)
  {
    if |t| > 1 { LetterBehind(abc, t[1..], After(abc, t[0], before)); }
  }

  /** The identity is cut at an open sigma when a letter follows. */
  lemma CutIsOpen(abc: Alphabet, word: Text, last: Unit, rest: Text)
    requires IsWordOf79(abc, word, last)
    ensures var line := CutLine(word, [last] + rest);
            IsBullet(line) && Identity(line) == word + [SIGMA] && !CutSafe(abc, line, false)
  {
    WordUnits(abc, word, last);
    CutIdentity(word, [last] + rest);
    LetterBehind(abc, word, false);
    EndsStep(abc, word, SIGMA, false);
    hide EndsOpen, Identity, Beyond, IsBullet, CutLine;
  }

  /** The line of the word, lowered, holds no final sigma. */
  lemma CutLineCounts(abc: Alphabet, word: Text, last: Unit)
    requires IsWordOf79(abc, word, last)
    ensures multiset(Normalise(abc, CutLine(word, [last])))[FINAL_SIGMA] == 0
  {
    WordUnits(abc, word, last);
    LastAhead(abc, last);
    NoSigmaAhead();
    DashUnits();
    SigmasAlone(abc);
    Kinds(abc, SIGMA);
    hide *;
    var front := [DASH, SPACE] + word;
    CutLineParts(word, last);
    LowerThree(abc, front, [SIGMA], [last]);
    LowerOne(abc, SIGMA, Behind(abc, front, false), true);
    var a := LowerIn(abc, front, false, Ahead(abc, [SIGMA] + [last], false));
    var l := LowerIn(abc, [last], Behind(abc, front + [SIGMA], false), false);
    NoneMade(abc, front, false, Ahead(abc, [SIGMA] + [last], false), FINAL_SIGMA);
    NoneMade(abc, [last], Behind(abc, front + [SIGMA], false), false, FINAL_SIGMA);
    CountParts(a, [SMALL_SIGMA], FINAL_SIGMA);
    CountOne(SMALL_SIGMA, FINAL_SIGMA);
    CountParts(a + [SMALL_SIGMA], l, FINAL_SIGMA);
    NormaliseCounts(abc, front + [SIGMA] + [last], FINAL_SIGMA);
  }

  lemma CutLineParts(word: Text, last: Unit)
    ensures CutLine(word, [last]) == [DASH, SPACE] + word + [SIGMA] + [last]
  {}

  lemma DashUnits()
    ensures DASH != FINAL_SIGMA && SPACE != FINAL_SIGMA && DASH != SIGMA && SPACE != SIGMA
  {}

  lemma LastAhead(abc: Alphabet, last: Unit)
    requires abc.cased(last)
    ensures Ahead(abc, [last], false)
  {}

  /** In any alphabet, a bullet of 79 letters, a capital sigma and one more letter
      is lost by a changelog that has it, against itself. */
  lemma SigmaCutIsLost(abc: Alphabet, word: Text, last: Unit)
    requires IsWordOf79(abc, word, last)
    ensures var line := CutLine(word, [last]);
            IsBullet(line) && !CutSafe(abc, line, false) && !KeepsKey(abc, line)
    ensures var c := Join([HEADING, CutLine(word, [last])], [NEWLINE]);
            EntryOf(abc, CutLine(word, [last])) in Lost(abc, c, c)
  {
    hide *;
    var line, id := CutLine(word, [last]), word + [SIGMA];
    assert [last] + [] == [last];
    CutIsOpen(abc, word, last, []);
    OpenIdentity(abc, line);
    OpenCounts(abc, id);
    CutLineCounts(abc, word, last);
    TooMany(Normalise(abc, line), Normalise(abc, id), FINAL_SIGMA);
    KeepsMeans(abc, line);
    LoneBullet(abc, word, last);
    LostExactly(abc, LonePage(line), LonePage(line), EntryOf(abc, line));
    LonePageIs(line);
    TooMany(Normalise(abc, LonePage(line)), Normalise(abc, id), FINAL_SIGMA);
    ListedEntry(abc, UnreleasedBullets(LonePage(line)), line);
  }

  lemma OpenCounts(abc: Alphabet, id: Text)
    requires EndsOpen(abc, id, false)
    ensures multiset(Normalise(abc, id))[FINAL_SIGMA] > 0
  {
    SigmasAlone(abc);
    hide *;
    LowerCaseIs(abc, id);
    EndCounts(abc, id, false);
    NormaliseCounts(abc, id, FINAL_SIGMA);
  }

  /** The changelog with this one bullet. */
  function LonePage(line: Text): Text { Join([HEADING, line], [NEWLINE]) }

  lemma LonePageIs(line: Text)
    ensures LonePage(line) == Join([HEADING, line], [NEWLINE])
    ensures LonePage(line) == HEADING + [NEWLINE] + line
  {
    hide HEADING;
    JoinPrepend(HEADING, [line], [NEWLINE]);
    assert Join([line], [NEWLINE]) == line && [HEADING] + [line] == [HEADING, line];
  }

  /** It lists the bullet, and holds no final sigma once normalised. */
  lemma LoneBullet(abc: Alphabet, word: Text, last: Unit)
    requires IsWordOf79(abc, word, last)
    ensures var c := LonePage(CutLine(word, [last]));
            && CutLine(word, [last]) in UnreleasedBullets(c)
            && multiset(Normalise(abc, c))[FINAL_SIGMA] == 0
  {
    hide *;
    LoneListed(abc, word, last);
    LoneCounts(abc, word, last);
  }

  lemma LoneListed(abc: Alphabet, word: Text, last: Unit)
    requires IsWordOf79(abc, word, last)
    ensures CutLine(word, [last]) in UnreleasedBullets(LonePage(CutLine(word, [last])))
  {
    WordUnits(abc, word, last);
    CutIdentity(word, [last]);
    HeadingUnits();
    var line := CutLine(word, [last]);
    BulletLine(line);
    assert NEWLINE !in line;
    hide CutLine, HEADING, IsBullet, OpensSection, OpensUnreleased, Split, Join, UnreleasedBullets, Identity, Beyond;
    SplitOfJoin([HEADING, line], NEWLINE);
    var lines := Lines(LonePage(line));
    assert lines == [HEADING, line] && FindUnreleased(lines) == 0;
    assert IsEntryLine(lines, 1, line);
    BulletsExactly(LonePage(line), line);
  }

  lemma LoneCounts(abc: Alphabet, word: Text, last: Unit)
    requires IsWordOf79(abc, word, last)
    ensures multiset(Normalise(abc, LonePage(CutLine(word, [last]))))[FINAL_SIGMA] == 0
  {
    SigmasAlone(abc);
    HeadingUnits();
    NoSigmaAhead();
    BreakStays(abc);
    hide *;
    var line, x := CutLine(word, [last]), HEADING + [NEWLINE];
    LonePageIs(line);
    CutLineCounts(abc, word, last);
    NormaliseCounts(abc, line, FINAL_SIGMA);
    LowerConcat(abc, x, line, false, false);
    LowerAtEnd(abc, HEADING, NEWLINE, false, false);
    LowerCaseIs(abc, line);
    LowerCaseIs(abc, x + line);
    NoneMade(abc, x, false, Ahead(abc, line, false), FINAL_SIGMA);
    CountParts(LowerIn(abc, x, false, Ahead(abc, line, false)), LowerCase(abc, line), FINAL_SIGMA);
    NormaliseCounts(abc, x + line, FINAL_SIGMA);
  }

  /** The same bullet with the word and a sigma once more at its end is cut at the
      same place, and never lost. */
  lemma CutButKept(abc: Alphabet, word: Text, last: Unit)
    requires IsWordOf79(abc, word, last)
    ensures var line := CutLine(word, [last] + ([SPACE] + (word + [SIGMA])));
            IsBullet(line) && !CutSafe(abc, line, false) && KeepsKey(abc, line)
  {
    SpaceEndsWord(abc);
    hide *;
    var id := word + [SIGMA];
    var line := CutLine(word, [last] + ([SPACE] + id));
    CutIsOpen(abc, word, last, [SPACE] + id);
    OpenIdentity(abc, line);
    var front := [DASH, SPACE] + id + [last];
    LowerAtEnd(abc, front, SPACE, false, false);
    NothingLower(abc, false, false);
    LowerCaseIs(abc, id);
    PartKept(abc, front + [SPACE], id, []);
    TwiceParts(word, last);
    KeepsMeans(abc, line);
  }

  lemma SpaceEndsWord(abc: Alphabet)
    ensures forall b :: !After(abc, SPACE, b)
  {
    assert EndsWords(SPACE);
  }

  lemma TwiceParts(word: Text, last: Unit)
    ensures var id := word + [SIGMA];
            CutLine(word, [last] + ([SPACE] + id)) == [DASH, SPACE] + id + [last] + [SPACE] + id + []
  {}
}
