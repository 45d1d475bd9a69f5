/**
 What counts as a loss, and what never does: which entries a changelog keeps
 (`src/lib/changelogGate.ts`).
 */
module ChangelogLosses {
  import opened Texts
  import opened Casing
  import opened Changelog
  import opened ChangelogNormal

  // ---------------------------------------------------------------------
  // Where an identity is cut
  // ---------------------------------------------------------------------

  /** Where the identity of a bullet starts. */
  function IdentityStart(line: Text): nat { if BoldLead(line).Some? then 4 else 2 }

  /** What follows the identity of a bullet on its line. */
  function Beyond(line: Text): Text
    requires IsBullet(line)
  {
    var end := IdentityStart(line) + |Identity(line)|;
    if end <= |line| then line[end..] else []
  }

  /** The identity does not stop inside a word, right after a capital sigma that
      ends what is left of the word. `after` says that a letter may follow the line. */
  ghost predicate CutSafe(abc: Alphabet, line: Text, after: bool)
    requires IsBullet(line)
  {
    !EndsOpen(abc, Identity(line), false) || !Ahead(abc, Beyond(line), after)
  }

  /** A bold lead is always safe, and so is an identity that is not cut off, or
      is cut off without such a sigma. */
  lemma CutSafeIff(abc: Alphabet, line: Text)
    requires IsBullet(line)
    ensures CutSafe(abc, line, false) <==>
              (BoldLead(line).Some? || |line| <= 2 + IDENTITY_MAX
               || !EndsOpen(abc, line[2..2 + IDENTITY_MAX], false) || !Ahead(abc, line[2 + IDENTITY_MAX..], false))
  {
    hide EndsOpen;
    if BoldLead(line).Some? {
      StarsFollow(line);
      MarksEndWords(abc, STAR);
    } else if |line| > 2 + IDENTITY_MAX {
      assert Identity(line) == line[2..2 + IDENTITY_MAX];
      assert Beyond(line) == line[2 + IDENTITY_MAX..];
    } else {
      assert Beyond(line) == [];
    }
  }

  lemma StarsFollow(line: Text)
    requires IsBullet(line) && BoldLead(line).Some?
    ensures Beyond(line) != [] && Beyond(line)[0] == STAR
  {
    ClosingStars(line, 5);
    hide BoldEnd;
  }

  lemma {:induction false} ClosingStars(line: Text, e: nat)
    ensures var r := BoldEnd(line, e); r.Some? ==> line[r.value] == STAR
    decreases |line| - e
  {
    hide IsLineTerminator;
    if e + 2 <= |line| && !(line[e] == STAR && line[e + 1] == STAR) && !IsLineTerminator(line[e]) {
      ClosingStars(line, e + 1);
    }
  }

  lemma {:induction false} OpenNeedsSigma(abc: Alphabet, t: Text)
    ensures EndsOpen(abc, t, false) ==> SIGMA in t
  {
    hide Behind;
    if t != [] { OpenNeedsSigma(abc, t[..|t| - 1]); }
  }

  /** Without a capital sigma every bullet is safe. */
  lemma NoSigmaIsSafe(abc: Alphabet, line: Text, after: bool)
    requires IsBullet(line) && SIGMA !in line
    ensures CutSafe(abc, line, after)
  {
    IdentityParts(line);
    hide EndsOpen, Identity, Ahead, Beyond;
    OpenNeedsSigma(abc, Identity(line));
  }

  /** A bullet line: a mark that ends words, the identity, and the rest. */
  lemma IdentityParts(line: Text)
    requires IsBullet(line)
    ensures var i := IdentityStart(line);
            && 0 < i <= |line| && (line[i - 1] == SPACE || line[i - 1] == STAR)
            && line == line[..i - 1] + [line[i - 1]] + (Identity(line) + Beyond(line))
  {
    hide BoldLead, IsBullet;
    StartMark(line);
    var i, id := IdentityStart(line), Identity(line);
    assert i + |id| <= |line| && line[i..i + |id|] == id;
  }

  lemma StartMark(line: Text)
    requires IsBullet(line)
    ensures 2 <= |line| && line[1] == SPACE
    ensures BoldLead(line).Some? ==> 5 <= BoldLead(line).value <= |line| && line[3] == STAR
  {
    hide BoldEnd;
  }

  /** The key of a bullet line is inside whatever holds the line, if the identity
      is not cut at an open sigma. */
  lemma KeyInside(abc: Alphabet, x: Text, line: Text, y: Text)
    requires IsBullet(line) && CutSafe(abc, line, Ahead(abc, y, false))
    ensures Includes(Normalise(abc, x + line + y), EntryOf(abc, line).key)
  {
    IdentityParts(line);
    var i, id, rest := IdentityStart(line), Identity(line), Beyond(line);
    var mark := line[i - 1];
    var before := x + line[..i - 1];
    MarksEndWords(abc, mark);
    LowerAtEnd(abc, before, mark, false, false);
    LowerConcat(abc, rest, y, false, false);
    EndCounts(abc, id, false);
    assert EntryOf(abc, line).key == Normalise(abc, id);
    var ahead := Ahead(abc, rest + y, false);
    assert LowerIn(abc, id, false, ahead) == LowerIn(abc, id, false, false);
    LowerCaseIs(abc, id);
    hide *;
    PartKept(abc, before + [mark], id, rest + y);
    RegroupLine(x, line[..i - 1], mark, id, rest, y);
  }

  lemma MarksEndWords(abc: Alphabet, u: Unit)
    requires u == SPACE || u == STAR
    ensures forall b :: !After(abc, u, b)
    ensures !abc.cased(u) && !abc.mark(u)
  {}

  lemma RegroupLine(x: Text, a: Text, u: Unit, id: Text, rest: Text, y: Text)
    ensures x + a + [u] + id + (rest + y) == x + (a + [u] + (id + rest)) + y
  {}

  // ---------------------------------------------------------------------
  // Losses
  // ---------------------------------------------------------------------

  lemma {:induction false} RemovedAre(entries: seq<Entry>, head: Text)
    ensures forall e :: e in Removed(entries, head) <==> e in entries && !Includes(head, e.key)
  {
    hide Includes;
    if entries != [] { RemovedAre(entries[1..], head); }
  }

  /** An entry is lost exactly when its key no longer occurs in the normalised head. */
  lemma LostExactly(abc: Alphabet, baseText: Text, headText: Text, e: Entry)
    ensures e in Lost(abc, baseText, headText) <==>
              e in EntriesOf(abc, UnreleasedBullets(baseText)) && !Includes(Normalise(abc, headText), e.key)
  {
    hide Normalise, UnreleasedBullets, Includes;
    RemovedAre(EntriesOf(abc, UnreleasedBullets(baseText)), Normalise(abc, headText));
  }

  /** The key of a bullet occurs in the bullet itself. */
  ghost predicate KeepsKey(abc: Alphabet, line: Text)
    requires IsBullet(line)
  {
    Includes(Normalise(abc, line), EntryOf(abc, line).key)
  }

  /** It occurs there even when a letter follows the line. */
  ghost predicate KeepsKeyBefore(abc: Alphabet, line: Text)
    requires IsBullet(line)
  {
    Includes(Normalise(abc, line + [SMALL_SIGMA]), EntryOf(abc, line).key)
  }

  /** A bullet that is not cut at an open sigma keeps its key. */
  lemma SafeKeepsKey(abc: Alphabet, line: Text)
    requires IsBullet(line)
    ensures CutSafe(abc, line, false) ==> KeepsKey(abc, line)
    ensures CutSafe(abc, line, true) ==> KeepsKey(abc, line) && KeepsKeyBefore(abc, line)
  {
    SigmasAlone(abc);
    NothingLower(abc, false, false);
    hide *;
    NothingAround(line, SMALL_SIGMA);
    if CutSafe(abc, line, true) {
      SafeAnywhere(abc, line, false);
      KeyInside(abc, [], line, [SMALL_SIGMA]);
      KeepsMeans(abc, line);
    }
    if CutSafe(abc, line, false) {
      KeyInside(abc, [], line, []);
      KeepsMeans(abc, line);
    }
  }

  lemma NothingAround(line: Text, u: Unit)
    ensures [] + line + [] == line && [] + line + [u] == line + [u]
  {}

  lemma KeepsMeans(abc: Alphabet, line: Text)
    requires IsBullet(line)
    ensures KeepsKey(abc, line) <==> Includes(Normalise(abc, line), EntryOf(abc, line).key)
    ensures KeepsKeyBefore(abc, line) <==> Includes(Normalise(abc, line + [SMALL_SIGMA]), EntryOf(abc, line).key)
  {
    hide Includes, Normalise, EntryOf, IsBullet;
  }

  lemma SafeAnywhere(abc: Alphabet, line: Text, after: bool)
    requires IsBullet(line) && CutSafe(abc, line, true)
    ensures CutSafe(abc, line, after)
  {
    hide EndsOpen, Identity, Beyond;
    AheadGrows(abc, Beyond(line), after);
  }

  lemma {:induction false} AheadGrows(abc: Alphabet, t: Text, after: bool)
    ensures Ahead(abc, t, after) ==> Ahead(abc, t, true)
  {
    if t != [] { AheadGrows(abc, t[1..], after); }
  }

  lemma KeysKept(abc: Alphabet, baseText: Text, headText: Text)
    requires forall line :: line in UnreleasedBullets(baseText) ==>
               Includes(Normalise(abc, headText), EntryOf(abc, line).key)
    ensures Lost(abc, baseText, headText) == []
  {
    hide Normalise, UnreleasedBullets, Includes, EntryOf, IsBullet, Removed;
    var bullets := UnreleasedBullets(baseText);
    assert forall i :: 0 <= i < |bullets| ==> bullets[i] in bullets;
    NoneRemoved(EntriesOf(abc, bullets), Normalise(abc, headText));
  }

  lemma {:induction false} NoneRemoved(entries: seq<Entry>, head: Text)
    requires forall i :: 0 <= i < |entries| ==> Includes(head, entries[i].key)
    ensures Removed(entries, head) == []
  {
    hide Includes;
    if entries != [] {
      assert Includes(head, entries[0].key);
      NoneRemoved(entries[1..], head);
    }
  }

  /** A line stands in the joined text, before its end or a line break. */
  lemma {:induction false} LineInJoin(parts: seq<Text>, k: nat) returns (x: Text, y: Text)
    requires k < |parts|
    ensures Join(parts, [NEWLINE]) == x + parts[k] + y
    ensures y == [] || y[0] == NEWLINE
    ensures x == [] || x[|x| - 1] == NEWLINE
  {
    var rest := Join(parts[1..], [NEWLINE]);
    if |parts| == 1 {
      x, y := [], [];
    } else if k == 0 {
      x, y := [], [NEWLINE] + rest;
      assert parts[0] + [NEWLINE] + rest == [] + parts[0] + ([NEWLINE] + rest);
    } else {
      var x' : Text;
      x', y := LineInJoin(parts[1..], k - 1);
      x := parts[0] + [NEWLINE] + x';
      JoinFirst(parts);
      hide Join;
      assert parts[0] + [NEWLINE] + (x' + parts[k] + y) == x + parts[k] + y;
    }
  }

  lemma JoinFirst(parts: seq<Text>)
    requires |parts| > 1
    ensures Join(parts, [NEWLINE]) == parts[0] + [NEWLINE] + Join(parts[1..], [NEWLINE])
  {}

  lemma BreakEndsWord(abc: Alphabet, y: Text)
    requires y == [] || y[0] == NEWLINE
    ensures !Ahead(abc, y, false)
  {}

  lemma BreakBefore(abc: Alphabet, x: Text)
    requires x == [] || x[|x| - 1] == NEWLINE
    ensures !Behind(abc, x, false)
  {
    if x != [] {
      assert x == x[..|x| - 1] + [NEWLINE];
      LowerAtEnd(abc, x[..|x| - 1], NEWLINE, false, false);
      AfterBlank(abc, NEWLINE, Behind(abc, x[..|x| - 1], false));
    }
  }

  /** A text that has the bullet as a line has what the line becomes alone. */
  lemma LineKept(abc: Alphabet, parts: seq<Text>, k: nat)
    requires k < |parts|
    ensures Includes(Normalise(abc, Join(parts, [NEWLINE])), Normalise(abc, parts[k]))
  {
    hide *;
    var x, y := LineInJoin(parts, k);
    BreakEndsWord(abc, y);
    BreakBefore(abc, x);
    LowerCaseIs(abc, parts[k]);
    PartKept(abc, x, parts[k], y);
  }

  /** The key of a bullet that keeps it is inside every text that has the bullet
      as a line. */
  lemma LineKeepsKey(abc: Alphabet, parts: seq<Text>, k: nat)
    requires k < |parts| && IsBullet(parts[k]) && KeepsKey(abc, parts[k])
    ensures Includes(Normalise(abc, Join(parts, [NEWLINE])), EntryOf(abc, parts[k]).key)
  {
    hide *;
    LineKept(abc, parts, k);
    KeepsMeans(abc, parts[k]);
    IncludesTransitive(Normalise(abc, Join(parts, [NEWLINE])), Normalise(abc, parts[k]), EntryOf(abc, parts[k]).key);
  }

  lemma BulletsAreLines(changelog: Text, line: Text)
    requires line in UnreleasedBullets(changelog)
    ensures var lines := Lines(changelog);
            exists k :: FindUnreleased(lines) < k < |lines| && lines[k] == line
  {
    hide Bullets, Lines, FindUnreleased;
    var lines := Lines(changelog);
    var start := FindUnreleased(lines);
    BulletsListed(UnreleasedLines(changelog), line);
    if start == |lines| {
      NoBullets();
    } else {
      var i :| 0 <= i < |lines| - start - 1 && UnreleasedLines(changelog)[i] == line;
      assert lines[start + 1 + i] == line;
    }
  }

  lemma BulletsListed(lines: seq<Text>, line: Text)
    requires line in Bullets(lines)
    ensures line in lines
  {
    hide Bullets;
    var i :| 0 <= i < |Bullets(lines)| && Bullets(lines)[i] == line;
  }

  lemma NoBullets()
    ensures Bullets([]) == []
  {}

  /** No changelog loses an entry against itself whose bullets keep their keys. */
  lemma NothingLostAgainstItself(abc: Alphabet, changelog: Text)
    requires forall line :: line in UnreleasedBullets(changelog) ==> KeepsKey(abc, line)
    ensures Lost(abc, changelog, changelog) == []
  {
    hide UnreleasedBullets, FindUnreleased, Includes, Lost, KeepsKey, IsBullet, EntryOf, Normalise;
    var lines := Lines(changelog);
    JoinOfSplit(changelog, NEWLINE);
    assert Join(lines, [NEWLINE]) == changelog;
    forall line | line in UnreleasedBullets(changelog)
      ensures Includes(Normalise(abc, changelog), EntryOf(abc, line).key)
    {
      BulletsAreLines(changelog, line);
      var k :| FindUnreleased(lines) < k < |lines| && lines[k] == line;
      LineKeepsKey(abc, lines, k);
    }
    KeysKept(abc, changelog, changelog);
  }

  /** A release cut: any lines, such as a fresh heading and that of the new version,
      in place of the `[Unreleased]` heading. */
  function ReleaseCut(changelog: Text, opening: seq<Text>): Text {
    var lines := Lines(changelog);
    var start := FindUnreleased(lines);
    if start == |lines| then changelog else Join(lines[..start] + opening + lines[start + 1..], [NEWLINE])
  }

  /** The bullets are among the lines of the cut. */
  lemma BulletInCut(changelog: Text, opening: seq<Text>, line: Text) returns (parts: seq<Text>, k: nat)
    requires line in UnreleasedBullets(changelog)
    ensures k < |parts| && parts[k] == line && ReleaseCut(changelog, opening) == Join(parts, [NEWLINE])
  {
    hide UnreleasedBullets, Lines, FindUnreleased, Join, IsBullet;
    BulletsAreLines(changelog, line);
    var lines := Lines(changelog);
    var start := FindUnreleased(lines);
    var i :| start < i < |lines| && lines[i] == line;
    parts := lines[..start] + opening + lines[start + 1..];
    k := i - 1 + |opening|;
    assert parts[k] == line;
  }

  /** A release cut passes if the bullets keep their keys. */
  lemma ReleaseCutPasses(abc: Alphabet, changelog: Text, opening: seq<Text>)
    requires forall line :: line in UnreleasedBullets(changelog) ==> KeepsKey(abc, line)
    ensures Lost(abc, changelog, ReleaseCut(changelog, opening)) == []
  {
    hide UnreleasedBullets, ReleaseCut, Includes, Lost, Join, KeepsKey, IsBullet, EntryOf, Normalise;
    var cut := ReleaseCut(changelog, opening);
    forall line | line in UnreleasedBullets(changelog)
      ensures Includes(Normalise(abc, cut), EntryOf(abc, line).key)
    {
      var parts, k := BulletInCut(changelog, opening, line);
      LineKeepsKey(abc, parts, k);
    }
    KeysKept(abc, changelog, cut);
  }

  // ---------------------------------------------------------------------
  // A line anywhere in a head
  // ---------------------------------------------------------------------

  /** Nothing on the left changes how a bullet line is lowered. */
  lemma BulletStarts(abc: Alphabet, line: Text, before: bool, after: bool)
    requires IsBullet(line)
    ensures LowerIn(abc, line, before, after) == LowerIn(abc, line, false, after)
  {
    BulletMark(abc, line);
    hide *;
    StartCounts(abc, line, after);
  }

  lemma BulletMark(abc: Alphabet, line: Text)
    requires IsBullet(line)
    ensures forall after :: !StartsOpen(abc, line, after)
  {
    assert EndsWords(line[0]);
  }

  /** The identity that ends open has a key that ends in no small sigma. */
  lemma OpenKeyEnd(abc: Alphabet, id: Text)
    requires EndsOpen(abc, id, false)
    ensures var key := Normalise(abc, id); key != [] && key[|key| - 1] != SMALL_SIGMA
  {
    hide *;
    OpenIsSomething(abc, id);
    var front, u := id[..|id| - 1], id[|id| - 1];
    var v := LowerCased(abc, u, Behind(abc, front, false), false);
    OpenUnit(abc, id);
    LowerAtEnd(abc, front, u, false, false);
    assert id == front + [u];
    LowerCaseIs(abc, id);
    NormaliseIs(abc, id);
    SquashedEnd(LowerIn(abc, front, false, Ahead(abc, [u], false)), v);
  }

  lemma OpenIsSomething(abc: Alphabet, id: Text)
    requires EndsOpen(abc, id, false)
    ensures id != []
  {}

  lemma OpenUnit(abc: Alphabet, id: Text)
    requires EndsOpen(abc, id, false)
    ensures var u := id[|id| - 1];
            var v := LowerCased(abc, u, Behind(abc, id[..|id| - 1], false), false);
            v != [] && IsPlain(v) && v[|v| - 1] != SMALL_SIGMA
  {
    var u := id[|id| - 1];
    assert u != SIGMA ==> abc.mark(u);
    assert IsOwnLower(SMALL_SIGMA) && !IsSpace(FINAL_SIGMA);
    assert EndsWords(u) ==> !abc.mark(u);
    hide Behind, EndsOpen;
    var v := LowerCased(abc, u, Behind(abc, id[..|id| - 1], false), false);
    assert u != SIGMA ==> !IsSpace(u) && abc.lower(u) != [] && v == abc.lower(u) && v[|v| - 1] in v;
  }

  /** A text that ends plain ends the same when squashed. */
  lemma SquashedEnd(t: Text, v: Text)
    requires v != [] && IsPlain(v)
    ensures var r := Squashed(t + v); r != [] && r[|r| - 1] == v[|v| - 1]
  {
    assert v[0] in v && v[|v| - 1] in v;
    hide *;
    CollapsePlain(v, EndsBlank(t, false));
    CollapseConcat(t, v, false);
    var c := Collapse(t, false);
    SquashedIs(t + v);
    TrimIs(c + v);
    var p := TrimStartKeeps(c, v);
    PlainBack(p, v);
  }

  /** A key that ends otherwise is not moved by a unit put behind. */
  lemma NotAtEnd(s: Text, u: Unit, key: Text)
    requires Includes(s + [u], key) && key != [] && key[|key| - 1] != u
    ensures Includes(s, key)
  {
    var i := Occurrence(s + [u], key);
    assert (s + [u])[i + |key| - 1] == key[|key| - 1];
    assert s[i..i + |key|] == key;
    assert OccursAt(s, key, i);
  }

  lemma KeyIsPlain(abc: Alphabet, id: Text)
    ensures var key := Normalise(abc, id); key != [] ==> !IsSpace(key[0]) && !IsSpace(key[|key| - 1])
  {
    hide *;
    NormaliseIs(abc, id);
    SquashedIs(LowerCase(abc, id));
    TrimIsPlain(Collapse(LowerCase(abc, id), false));
  }

  /** With a letter behind it, the line itself still holds the key. */
  lemma KeyBeforeLetter(abc: Alphabet, line: Text)
    requires IsBullet(line) && KeepsKeyBefore(abc, line) && EndsOpen(abc, Identity(line), false)
    ensures Includes(Squashed(LowerIn(abc, line, false, true)), EntryOf(abc, line).key)
  {
    var u, id := SMALL_SIGMA, Identity(line);
    assert EntryOf(abc, line).key == Normalise(abc, id);
    SigmasAlone(abc);
    hide *;
    var low, key := LowerIn(abc, line, false, true), Normalise(abc, id);
    KeepsMeans(abc, line);
    LowerAtEnd(abc, line, u, false, false);
    LowerCaseIs(abc, line + [u]);
    NormaliseIs(abc, line + [u]);
    SquashedIs(low + [u]);
    TrimIsInside(Collapse(low + [u], false));
    IncludesTransitive(Collapse(low + [u], false), Normalise(abc, line + [u]), key);
    CollapseConcat(low, [u], false);
    OneCollapses(u, EndsBlank(low, false));
    OpenKeyEnd(abc, id);
    NotAtEnd(Collapse(low, false), u, key);
    KeyIsPlain(abc, id);
    TrimKeeps(Collapse(low, false), key);
    SquashedIs(low);
  }

  lemma OneCollapses(u: Unit, blank: bool)
    requires !IsSpace(u)
    ensures Collapse([u], blank) == [u]
  {}

  /** A text that holds the line, anywhere, holds its key, if the line does with
      and without a letter behind it. */
  lemma KeptAnywhere(abc: Alphabet, x: Text, line: Text, y: Text)
    requires IsBullet(line) && KeepsKey(abc, line) && KeepsKeyBefore(abc, line)
    ensures Includes(Normalise(abc, x + line + y), EntryOf(abc, line).key)
  {
    CutOrOpen(abc, line, Ahead(abc, y, false));
    hide *;
    if CutSafe(abc, line, Ahead(abc, y, false)) {
      KeyInside(abc, x, line, y);
    } else {
      var key := EntryOf(abc, line).key;
      var low := LowerIn(abc, line, false, Ahead(abc, y, false));
      KeepsMeans(abc, line);
      if Ahead(abc, y, false) {
        KeyBeforeLetter(abc, line);
      } else {
        NormaliseIs(abc, line);
        LowerCaseIs(abc, line);
      }
      BulletStarts(abc, line, Behind(abc, x, false), Ahead(abc, y, false));
      LoweredInside(abc, x, line, y);
      SquashKeeps(LowerCase(abc, x + line + y), low);
      NormaliseIs(abc, x + line + y);
      IncludesTransitive(Normalise(abc, x + line + y), Squashed(low), key);
    }
  }

  lemma CutOrOpen(abc: Alphabet, line: Text, after: bool)
    requires IsBullet(line)
    ensures CutSafe(abc, line, after) || EndsOpen(abc, Identity(line), false)
  {
    hide EndsOpen, Identity, Beyond, Ahead;
  }

  lemma LoweredInside(abc: Alphabet, x: Text, t: Text, y: Text)
    ensures Includes(LowerCase(abc, x + t + y), LowerIn(abc, t, Behind(abc, x, false), Ahead(abc, y, false)))
  {
    hide *;
    LowerThree(abc, x, t, y);
    OccursBetween(LowerIn(abc, x, false, Ahead(abc, t + y, false)),
                  LowerIn(abc, t, Behind(abc, x, false), Ahead(abc, y, false)),
                  LowerIn(abc, y, Behind(abc, x + t, false), false));
  }

  /** The key of the bullet is in every text that holds its line. */
  ghost predicate NeverLostAnywhere(abc: Alphabet, line: Text)
    requires IsBullet(line)
  {
    forall head :: Includes(head, line) ==> Includes(Normalise(abc, head), EntryOf(abc, line).key)
  }

  /** Whatever a head holds besides the line, it keeps the entry, exactly when the
      line does with and without a letter behind it; a line that is not cut at an
      open sigma always does. */
  lemma KeptAnywhereIff(abc: Alphabet, line: Text)
    requires IsBullet(line)
    ensures NeverLostAnywhere(abc, line) <==> KeepsKey(abc, line) && KeepsKeyBefore(abc, line)
    ensures CutSafe(abc, line, true) ==> NeverLostAnywhere(abc, line)
  {
    hide Includes, Normalise, EntryOf, IsBullet, CutSafe, KeepsKey, KeepsKeyBefore;
    SafeKeepsKey(abc, line);
    KeepsMeans(abc, line);
    if KeepsKey(abc, line) && KeepsKeyBefore(abc, line) {
      forall head | Includes(head, line) ensures Includes(Normalise(abc, head), EntryOf(abc, line).key) {
        var i := Occurrence(head, line);
        Apart(head, i, line);
        KeptAnywhere(abc, head[..i], line, head[i + |line|..]);
        TextsRegroup(head[..i], line, head[i + |line|..]);
      }
    } else {
      OccursBetween([], line, []);
      OccursBetween([], line, [SMALL_SIGMA]);
      NothingAround(line, SMALL_SIGMA);
    }
  }

  /** A head that still contains every bullet line of the base, anywhere, has lost nothing. */
  lemma KeptLinesLoseNothing(abc: Alphabet, baseText: Text, headText: Text)
    requires forall line :: line in UnreleasedBullets(baseText) ==>
               Includes(headText, line) && KeepsKey(abc, line) && KeepsKeyBefore(abc, line)
    ensures Lost(abc, baseText, headText) == []
  {
    hide Normalise, UnreleasedBullets, Includes, IsBullet, EntryOf, KeepsKey, KeepsKeyBefore;
    forall line | line in UnreleasedBullets(baseText)
      ensures Includes(Normalise(abc, headText), EntryOf(abc, line).key)
    {
      KeptAnywhereIff(abc, line);
      assert NeverLostAnywhere(abc, line);
    }
    KeysKept(abc, baseText, headText);
  }

  // ---------------------------------------------------------------------
  // Adding text around a head
  // ---------------------------------------------------------------------

  /** The key is in the head, whether or not letters stand right before and after it. */
  ghost predicate KeptBesideLetters(abc: Alphabet, head: Text, key: Text) {
    forall before, after :: Includes(Squashed(LowerIn(abc, head, before, after)), key)
  }

  lemma BesideAt(abc: Alphabet, head: Text, key: Text, before: bool, after: bool)
    requires KeptBesideLetters(abc, head, key)
    ensures Includes(Squashed(LowerIn(abc, head, before, after)), key)
  {}

  /** A key that starts otherwise is not moved by a unit put in front. */
  lemma NotAtStart(u: Unit, s: Text, key: Text)
    requires Includes([u] + s, key) && key != [] && key[0] != u
    ensures Includes(s, key)
  {
    var i := Occurrence([u] + s, key);
    assert ([u] + s)[i] == key[0];
    assert s[i - 1..i - 1 + |key|] == key;
    assert OccursAt(s, key, i - 1);
  }

  /** A small sigma that is not `u`. */
  function OtherSigma(u: Unit): Unit { if u == SMALL_SIGMA then FINAL_SIGMA else SMALL_SIGMA }

  lemma OtherSigmaIs(abc: Alphabet, u: Unit)
    ensures var v := OtherSigma(u);
            && v != u && !IsSpace(v) && (forall g :: Ahead(abc, [v], g)) && (forall b :: Behind(abc, [v], b))
            && forall b, a :: LowerIn(abc, [v], b, a) == [v]
  {
    var v := OtherSigma(u);
    SigmasAlone(abc);
    forall b, a ensures Ahead(abc, [v], a) && Behind(abc, [v], b) && LowerIn(abc, [v], b, a) == [v] {
      LowerOne(abc, v, b, a);
      AfterIs(abc, v);
      AfterIs(abc, SMALL_SIGMA);
    }
  }

  /** Text around a head that puts it beside letters, or not, as asked, and does
      not touch the key. */
  lemma BesideText(abc: Alphabet, head: Text, key: Text, before: bool, after: bool) returns (x: Text, y: Text)
    requires key != [] && !IsSpace(key[0]) && !IsSpace(key[|key| - 1])
    ensures Includes(Normalise(abc, x + head + y), key) ==> Includes(Squashed(LowerIn(abc, head, before, after)), key)
  {
    hide *;
    var u, v := OtherSigma(key[0]), OtherSigma(key[|key| - 1]);
    OtherSigmaIs(abc, key[0]);
    OtherSigmaIs(abc, key[|key| - 1]);
    NothingLower(abc, false, false);
    NoText(abc);
    x, y := if before then [u] else [], if after then [v] else [];
    var low := LowerIn(abc, head, before, after);
    LowerThree(abc, x, head, y);
    assert LowerCase(abc, x + head + y) == x + low + y;
    if Includes(Normalise(abc, x + head + y), key) {
      NormaliseIs(abc, x + head + y);
      SquashedIs(x + low + y);
      TrimIsInside(Collapse(x + low + y, false));
      IncludesTransitive(Collapse(x + low + y, false), Normalise(abc, x + head + y), key);
      CollapseBeside(x, low, y);
      StripBeside(x, Collapse(low, false), y, key);
      TrimKeeps(Collapse(low, false), key);
      SquashedIs(low);
    }
  }

  lemma NoText(abc: Alphabet)
    ensures forall b, a :: LowerIn(abc, [], b, a) == [] && Behind(abc, [], b) == b && Ahead(abc, [], a) == a
  {
    forall b, a ensures LowerIn(abc, [], b, a) == [] && Behind(abc, [], b) == b && Ahead(abc, [], a) == a {
      NothingLower(abc, b, a);
    }
  }

  lemma CollapseBeside(x: Text, t: Text, y: Text)
    requires (x == [] || (|x| == 1 && !IsSpace(x[0]))) && (y == [] || (|y| == 1 && !IsSpace(y[0])))
    ensures Collapse(x + t + y, false) == x + Collapse(t, false) + y
  {
    OneOrNone(x, false);
    OneOrNone(y, EndsBlank(t, EndsBlank(x, false)));
    hide *;
    CollapseConcat(x, t + y, false);
    CollapseConcat(t, y, false);
    TextsRegroup(x, t, y);
    TextsRegroup(x, Collapse(t, false), y);
  }

  lemma OneOrNone(t: Text, blank: bool)
    requires t == [] || (|t| == 1 && !IsSpace(t[0]))
    ensures Collapse(t, blank) == t && !EndsBlank(t, false)
  {}

  lemma StripBeside(x: Text, t: Text, y: Text, key: Text)
    requires Includes(x + t + y, key) && key != [] && |x| <= 1 && |y| <= 1
    requires (x != [] ==> key[0] != x[0]) && (y != [] ==> key[|key| - 1] != y[0])
    ensures Includes(t, key)
  {
    hide Includes;
    var s := x + t;
    if y == [] {
      assert s + y == s;
    } else {
      assert y == [y[0]];
      NotAtEnd(s, y[0], key);
    }
    if x == [] {
      assert x + t == t;
    } else {
      assert x == [x[0]];
      NotAtStart(x[0], t, key);
    }
  }

  /** Adding text around the head, whatever text, loses no entry that it had kept. */
  ghost predicate AddingNeverLoses(abc: Alphabet, baseText: Text, headText: Text) {
    forall x, y, e :: e in Lost(abc, baseText, x + headText + y) ==> e in Lost(abc, baseText, headText)
  }

  ghost predicate KeysStandAlone(abc: Alphabet, baseText: Text, headText: Text) {
    forall e :: e in EntriesOf(abc, UnreleasedBullets(baseText)) && Includes(Normalise(abc, headText), e.key) ==>
      KeptBesideLetters(abc, headText, e.key)
  }

  lemma EntryKeyPlain(abc: Alphabet, baseText: Text, e: Entry)
    requires e in EntriesOf(abc, UnreleasedBullets(baseText))
    ensures e.key != [] ==> !IsSpace(e.key[0]) && !IsSpace(e.key[|e.key| - 1])
  {
    hide UnreleasedBullets, Normalise, Identity, IsSpace, IsBullet;
    var bullets := UnreleasedBullets(baseText);
    var i :| 0 <= i < |EntriesOf(abc, bullets)| && EntriesOf(abc, bullets)[i] == e;
    KeyIsPlain(abc, Identity(bullets[i]));
  }

  /** Adding text around a head never creates a loss, exactly when each key of the
      base that is in the head is there beside letters too. */
  lemma AddingNeverLosesIff(abc: Alphabet, baseText: Text, headText: Text)
    ensures AddingNeverLoses(abc, baseText, headText) <==> KeysStandAlone(abc, baseText, headText)
  {
    hide Lost, EntriesOf, UnreleasedBullets, Includes, Normalise, KeptBesideLetters;
    if KeysStandAlone(abc, baseText, headText) {
      forall x, y, e | e in Lost(abc, baseText, x + headText + y) ensures e in Lost(abc, baseText, headText) {
        LostExactly(abc, baseText, x + headText + y, e);
        LostExactly(abc, baseText, headText, e);
        if Includes(Normalise(abc, headText), e.key) { BesideKept(abc, x, headText, y, e.key); }
      }
    }
    if AddingNeverLoses(abc, baseText, headText) {
      forall e | e in EntriesOf(abc, UnreleasedBullets(baseText)) && Includes(Normalise(abc, headText), e.key)
        ensures KeptBesideLetters(abc, headText, e.key)
      {
        LostExactly(abc, baseText, headText, e);
        forall x, y ensures Includes(Normalise(abc, x + headText + y), e.key) {
          LostExactly(abc, baseText, x + headText + y, e);
        }
        EntryKeyPlain(abc, baseText, e);
        AlwaysBeside(abc, headText, e.key);
      }
    }
  }

  lemma BesideKept(abc: Alphabet, x: Text, head: Text, y: Text, key: Text)
    requires KeptBesideLetters(abc, head, key)
    ensures Includes(Normalise(abc, x + head + y), key)
  {
    hide *;
    var low := LowerIn(abc, head, Behind(abc, x, false), Ahead(abc, y, false));
    BesideAt(abc, head, key, Behind(abc, x, false), Ahead(abc, y, false));
    LoweredInside(abc, x, head, y);
    SquashKeeps(LowerCase(abc, x + head + y), low);
    NormaliseIs(abc, x + head + y);
    IncludesTransitive(Normalise(abc, x + head + y), Squashed(low), key);
  }

  lemma AlwaysBeside(abc: Alphabet, head: Text, key: Text)
    requires key != [] ==> !IsSpace(key[0]) && !IsSpace(key[|key| - 1])
    requires forall x, y :: Includes(Normalise(abc, x + head + y), key)
    ensures KeptBesideLetters(abc, head, key)
  {
    hide Includes, Normalise, Squashed, LowerIn, IsSpace;
    forall before, after ensures Includes(Squashed(LowerIn(abc, head, before, after)), key) {
      if key == [] {
        NothingInside(Squashed(LowerIn(abc, head, before, after)));
      } else {
        var x, y := BesideText(abc, head, key, before, after);
        assert Includes(Normalise(abc, x + head + y), key);
      }
    }
  }

  /** A head that neither starts nor ends at an open sigma meets this. */
  lemma EdgeSafeStandsAlone(abc: Alphabet, baseText: Text, headText: Text)
    requires EdgeSafe(abc, headText)
    ensures KeysStandAlone(abc, baseText, headText)
  {
    hide Includes, EntriesOf, UnreleasedBullets, EdgeSafe, LowerIn, Squashed, Normalise;
    NormaliseIs(abc, headText);
    forall e: Entry | Includes(Normalise(abc, headText), e.key) ensures KeptBesideLetters(abc, headText, e.key) {
      forall before, after ensures Includes(Squashed(LowerIn(abc, headText, before, after)), e.key) {
        EdgeSafeLower(abc, headText, before, after);
      }
    }
  }
}
