/**
 What the changelog readers recognise: the extent of `[Unreleased]`, its bullets
 and headings, and their names (`src/lib/changelogGate.ts`).
 */
module ChangelogReading {
  import opened Texts
  import opened Casing
  import opened Changelog

  // ---------------------------------------------------------------------
  // The section
  // ---------------------------------------------------------------------

  /** No `## ` heading stands from line `from` up to line `k`. */
  ghost predicate IsReached(lines: seq<Text>, from: nat, k: nat) {
    from <= k < |lines| && forall j :: from <= j <= k ==> !OpensSection(lines[j])
  }

  /** Is line `k` after the first `[Unreleased]` heading, with no `## ` heading
      from there up to it? */
  ghost predicate InUnreleased(lines: seq<Text>, k: nat) {
    FindUnreleased(lines) < |lines| && IsReached(lines, FindUnreleased(lines) + 1, k)
  }

  ghost predicate IsEntryLine(lines: seq<Text>, k: nat, line: Text) {
    InUnreleased(lines, k) && IsBulletAt(lines, k, line)
  }

  ghost predicate IsBulletAt(lines: seq<Text>, k: nat, line: Text) {
    k < |lines| && lines[k] == line && IsBullet(line)
  }

  lemma {:induction false} BulletsFrom(lines: seq<Text>, from: nat, line: Text)
    requires from <= |lines|
    ensures line in Bullets(lines[from..]) <==> exists k: nat :: IsReached(lines, from, k) && IsBulletAt(lines, k, line)
    decreases |lines| - from
  {
    hide IsBullet, OpensSection, Bullets;
    BulletsStep(lines, from);
    if from < |lines| && !OpensSection(lines[from]) {
      BulletsFrom(lines, from + 1, line);
      assert IsReached(lines, from, from);
      assert forall k: nat :: IsReached(lines, from + 1, k) ==> IsReached(lines, from, k);
      assert forall k: nat :: IsReached(lines, from, k) && k > from ==> IsReached(lines, from + 1, k);
    } else {
      assert forall k: nat :: !IsReached(lines, from, k);
    }
  }

  lemma UnreleasedIs(changelog: Text)
    ensures var lines := Lines(changelog);
            var start := FindUnreleased(lines);
            UnreleasedBullets(changelog) == if start < |lines| then Bullets(lines[start + 1..]) else []
  {
    hide Lines, FindUnreleased, Bullets;
    NoBullets();
  }

  lemma NoBullets()
    ensures Bullets([]) == []
  {}

  /** The bullets are exactly the bullet lines of the `[Unreleased]` section. */
  lemma BulletsExactly(changelog: Text, line: Text)
    ensures line in UnreleasedBullets(changelog) <==> exists k: nat :: IsEntryLine(Lines(changelog), k, line)
  {
    hide *;
    UnreleasedIs(changelog);
    var lines := Lines(changelog);
    var start := FindUnreleased(lines);
    forall k: nat { ReachedIs(lines, k, line); }
    if start < |lines| { BulletsFrom(lines, start + 1, line); }
  }

  lemma ReachedIs(lines: seq<Text>, k: nat, line: Text)
    ensures var start := FindUnreleased(lines);
            IsEntryLine(lines, k, line)
            <==> start < |lines| && IsReached(lines, start + 1, k) && IsBulletAt(lines, k, line)
  {
    hide FindUnreleased, IsReached, IsBulletAt;
  }

  ghost predicate IsHeadingLine(lines: seq<Text>, k: nat, h: Heading) {
    InUnreleased(lines, k) && IsHeadingAt(lines, k, h)
  }

  ghost predicate IsHeadingAt(lines: seq<Text>, k: nat, h: Heading) {
    k < |lines| && HeadingName(lines[k]) == Some(h.name) && h.line == k + 1
  }

  lemma {:induction false} HeadingsReached(lines: seq<Text>, from: nat, h: Heading)
    requires from <= |lines|
    ensures h in HeadingsFrom(lines, from) <==>
              exists k: nat :: IsReached(lines, from, k) && IsHeadingAt(lines, k, h)
    decreases |lines| - from
  {
    hide HeadingName, OpensSection, HeadingsFrom;
    HeadingsStep(lines, from);
    if from < |lines| && !OpensSection(lines[from]) {
      HeadingsReached(lines, from + 1, h);
      assert IsReached(lines, from, from);
      assert forall k: nat :: IsReached(lines, from + 1, k) ==> IsReached(lines, from, k);
      assert forall k: nat :: IsReached(lines, from, k) && k > from ==> IsReached(lines, from + 1, k);
    } else {
      assert forall k: nat :: !IsReached(lines, from, k);
    }
  }

  /** The headings are exactly those of the section's lines, with their numbers. */
  lemma HeadingsExactly(changelog: Text, h: Heading)
    ensures h in Headings(changelog) <==> exists k: nat :: IsHeadingLine(Lines(changelog), k, h)
  {
    hide IsReached, IsHeadingAt, HeadingsFrom, Lines, FindUnreleased;
    var lines := Lines(changelog);
    var start := FindUnreleased(lines);
    forall k: nat
      ensures IsHeadingLine(lines, k, h)
          <==> start < |lines| && IsReached(lines, start + 1, k) && IsHeadingAt(lines, k, h)
    {}
    if start < |lines| { HeadingsReached(lines, start + 1, h); }
  }

  ghost predicate Downwards(hs: seq<Heading>, after: nat) {
    && (forall k :: 0 <= k < |hs| ==> after < hs[k].line)
    && (forall j, k :: 0 <= j < k < |hs| ==> hs[j].line < hs[k].line)
  }

  lemma OneMoreHeading(h: Heading, rest: seq<Heading>)
    requires h.line > 0 && Downwards(rest, h.line)
    ensures Downwards([h] + rest, h.line - 1)
  {}

  lemma DownwardsFrom(hs: seq<Heading>, after: nat, earlier: nat)
    requires Downwards(hs, after) && earlier <= after
    ensures Downwards([] + hs, earlier)
  {
    assert [] + hs == hs;
  }

  lemma {:induction false} HeadingsDescend(lines: seq<Text>, from: nat)
    requires from <= |lines|
    ensures Downwards(HeadingsFrom(lines, from), from)
    decreases |lines| - from
  {
    hide HeadingName, OpensSection, HeadingsFrom;
    HeadingsStep(lines, from);
    if from < |lines| && !OpensSection(lines[from]) {
      HeadingsDescend(lines, from + 1);
      hide Downwards;
      var rest := HeadingsFrom(lines, from + 1);
      if HeadingName(lines[from]).Some? {
        OneMoreHeading(Heading(HeadingName(lines[from]).value, from + 1), rest);
      } else {
        DownwardsFrom(rest, from + 1, from);
      }
    }
  }

  /** The headings come from top to bottom. */
  lemma HeadingsInOrder(changelog: Text, j: nat, k: nat)
    requires j < k < |Headings(changelog)|
    ensures Headings(changelog)[j].line < Headings(changelog)[k].line
  {
    hide HeadingsFrom, Lines, FindUnreleased;
    var lines := Lines(changelog);
    if FindUnreleased(lines) < |lines| { HeadingsDescend(lines, FindUnreleased(lines) + 1); }
  }

  // ---------------------------------------------------------------------
  // Names
  // ---------------------------------------------------------------------

  function Spaces(n: nat): (t: Text)
    ensures |t| == n && forall i :: 0 <= i < n ==> t[i] == SPACE
  {
    seq(n, _ => SPACE)
  }

  /** `### `, more spaces, a name, spaces. The name neither starts nor ends with a
      space, unless nothing but spaces is left for it. */
  ghost predicate HeadingShape(line: Text, a: nat, b: nat, name: Text) {
    && a > 0 && name != []
    && line == Lit("###") + (Spaces(a) + (name + Spaces(b)))
    && (forall u :: u in name ==> !IsLineTerminator(u))
    && ((name[0] != SPACE && name[|name| - 1] != SPACE) || (name == [SPACE] && b == 0))
  }

  lemma {:induction false} SpaceRunIs(t: Text, n: nat)
    requires n <= |t| && (forall k :: 0 <= k < n ==> t[k] == SPACE) && (n < |t| ==> t[n] != SPACE)
    ensures SpaceRun(t) == n
  {
    hide SpaceRun;
  }

  lemma {:induction false} DropSpacesSplits(t: Text)
    ensures t == DropSpaces(t) + Spaces(|t| - |DropSpaces(t)|)
    ensures DropSpaces(t) != [] ==> DropSpaces(t)[|DropSpaces(t)| - 1] != SPACE
    ensures t != [] && t[0] != SPACE ==> DropSpaces(t) != []
  {
    if t != [] && t[|t| - 1] == SPACE {
      DropSpacesSplits(t[..|t| - 1]);
      assert t == t[..|t| - 1] + [SPACE];
    }
  }

  lemma {:induction false} DropSpacesIs(name: Text, b: nat)
    requires name == [] || name[|name| - 1] != SPACE
    ensures DropSpaces(name + Spaces(b)) == name
  {
    var t := name + Spaces(b);
    if b == 0 {
      assert t == name;
    } else {
      assert t[..|t| - 1] == name + Spaces(b - 1);
      DropSpacesIs(name, b - 1);
    }
  }

  lemma SpacesAhead(t: Text, n: nat)
    requires n <= |t| && forall k :: 0 <= k < n ==> t[k] == SPACE
    ensures t == Spaces(n) + t[n..]
  {}

  /** A text that starts with a plain unit is its name, then spaces. */
  lemma CutName(t: Text)
    requires t != [] && t[0] != SPACE
    ensures var name := DropSpaces(t);
            && name != [] && name[0] != SPACE && name[|name| - 1] != SPACE && |name| <= |t|
            && t == name + Spaces(|t| - |name|)
  {
    hide Spaces;
    DropSpacesSplits(t);
  }

  lemma NamedShape(line: Text, n: nat, tail: Text)
    requires n > 0 && line == Lit("###") + (Spaces(n) + tail)
    requires tail != [] && tail[0] != SPACE
    requires forall k :: 0 <= k < |DropSpaces(tail)| ==> !IsLineTerminator(DropSpaces(tail)[k])
    ensures HeadingShape(line, n, |tail| - |DropSpaces(tail)|, DropSpaces(tail))
  {
    CutName(tail);
    hide Spaces, DropSpaces, IsLineTerminator, Lit;
  }

  lemma SpacesShape(line: Text, rest: Text)
    requires |rest| >= 2 && line == Lit("###") + rest
    requires forall k :: 0 <= k < |rest| ==> rest[k] == SPACE
    ensures HeadingShape(line, |rest| - 1, 0, [SPACE])
  {
    hide IsLineTerminator, Lit;
    SpaceEndsNoLine();
    assert rest == Spaces(|rest| - 1) + ([SPACE] + Spaces(0));
  }

  /** What the reading of a heading found out. */
  lemma HeadingParts(line: Text)
    requires HeadingName(line).Some?
    ensures |line| >= 3
    ensures var rest, name := line[3..], HeadingName(line).value;
            var n := SpaceRun(rest);
            && line == Lit("###") + rest
            && 0 < n <= |rest|
            && (forall k :: 0 <= k < n ==> rest[k] == SPACE)
            && (n == |rest| ==> n >= 2 && name == [SPACE])
            && (n < |rest| ==> rest[n] != SPACE && name == DropSpaces(rest[n..])
                               && forall k :: 0 <= k < |name| ==> !IsLineTerminator(name[k]))
  {
    hide SpaceRun, DropSpaces, IsLineTerminator;
  }

  lemma HeadingIsShape(line: Text) returns (a: nat, b: nat)
    requires HeadingName(line).Some?
    ensures HeadingShape(line, a, b, HeadingName(line).value)
  {
    HeadingParts(line);
    var n := SpaceRun(line[3..]);
    hide *;
    if n == |line[3..]| {
      SpacesShape(line, line[3..]);
      a, b := n - 1, 0;
    } else {
      b := NamedHeading(line, line[3..], n);
      a := n;
    }
  }

  lemma NamedHeading(line: Text, rest: Text, n: nat) returns (b: nat)
    requires 0 < n < |rest| && line == Lit("###") + rest
    requires (forall k :: 0 <= k < n ==> rest[k] == SPACE) && rest[n] != SPACE
    requires var name := DropSpaces(rest[n..]); forall k :: 0 <= k < |name| ==> !IsLineTerminator(name[k])
    ensures HeadingShape(line, n, b, DropSpaces(rest[n..]))
  {
    var tail := rest[n..];
    assert tail[0] == rest[n];
    hide *;
    SpacesAhead(rest, n);
    NamedShape(line, n, tail);
    b := |tail| - |DropSpaces(tail)|;
  }

  lemma SpaceEndsNoLine()
    ensures !IsLineTerminator(SPACE)
  {}

  lemma ShapeIsHeading(line: Text, a: nat, b: nat, name: Text)
    requires HeadingShape(line, a, b, name)
    ensures HeadingName(line) == Some(name)
  {
    hide SpaceRun, DropSpaces, IsLineTerminator, Lit;
    var rest := Spaces(a) + (name + Spaces(b));
    assert line[3..] == rest && |Lit("###")| == 3 && Lit("###") <= line;
    if name[0] != SPACE {
      NameRead(a, b, name);
    } else {
      assert rest == Spaces(a + 1);
      SpaceRunIs(rest, a + 1);
    }
  }

  lemma NameRead(a: nat, b: nat, name: Text)
    requires name != [] && name[0] != SPACE && name[|name| - 1] != SPACE
    ensures var rest := Spaces(a) + (name + Spaces(b));
            a < |rest| && SpaceRun(rest) == a && DropSpaces(rest[a..]) == name
  {
    hide SpaceRun, DropSpaces;
    var rest := Spaces(a) + (name + Spaces(b));
    assert rest[a] == name[0];
    SpaceRunIs(rest, a);
    assert rest[a..] == name + Spaces(b);
    DropSpacesIs(name, b);
  }

  /** A line is a heading with this name exactly when it has the pattern's shape,
      so it has at most one name. */
  lemma HeadingNameIff(line: Text, name: Text)
    ensures HeadingName(line) == Some(name) <==> exists a: nat, b: nat :: HeadingShape(line, a, b, name)
  {
    hide HeadingName, HeadingShape;
    if HeadingName(line) == Some(name) {
      var a, b := HeadingIsShape(line);
    }
    if a: nat, b: nat :| HeadingShape(line, a, b, name) {
      ShapeIsHeading(line, a, b, name);
    }
  }

  ghost predicate ClosesBold(line: Text, e: nat) { e + 2 <= |line| && line[e] == 0x2A && line[e + 1] == 0x2A }

  /** The lead opens with `**`, is not empty, stays on its line and ends at the
      first `**` that leaves it a unit. */
  ghost predicate BoldShape(line: Text, e: nat) {
    && 5 <= e && ClosesBold(line, 2) && ClosesBold(line, e)
    && (forall k :: 5 <= k < e ==> !ClosesBold(line, k))
    && forall k :: 4 <= k < e ==> !IsLineTerminator(line[k])
  }

  lemma {:induction false} BoldEndIff(line: Text, from: nat, e: nat)
    ensures BoldEnd(line, from) == Some(e) <==>
              && from <= e && ClosesBold(line, e)
              && (forall k :: from <= k < e ==> !ClosesBold(line, k))
              && forall k :: from <= k < e ==> !IsLineTerminator(line[k])
    decreases |line| - from
  {
    hide IsLineTerminator;
    if from + 2 <= |line| && !ClosesBold(line, from) && !IsLineTerminator(line[from]) {
      BoldEndIff(line, from + 1, e);
    }
  }

  lemma BoldLeadIff(line: Text, e: nat)
    ensures BoldLead(line) == Some(e) <==> BoldShape(line, e)
  {
    hide BoldEnd, IsLineTerminator;
    BoldEndIff(line, 5, e);
  }

  // ---------------------------------------------------------------------
  // The lines, and what an entry takes from one
  // ---------------------------------------------------------------------

  /** The lines of a text: joined by newlines they are the text, and none holds one. */
  lemma LinesAre(changelog: Text)
    ensures Join(Lines(changelog), [0x0A]) == changelog
    ensures forall l :: l in Lines(changelog) ==> 0x0A !in l
  {
    JoinOfSplit(changelog, 0x0A);
    hide Split, Join;
  }

  ghost predicate StartsWith(line: Text, mark: Text) { exists rest :: line == mark + rest }

  ghost predicate StartsWithAnyCase(line: Text, mark: Text) {
    exists head, rest :: line == head + rest && Lower(head) == mark
  }

  /** A bullet starts with `- ` or `* `, a section with `## `, and `[Unreleased]` with
      `## [unreleased]` in any case. */
  lemma LineKinds(line: Text)
    ensures IsBullet(line) <==> StartsWith(line, Lit("- ")) || StartsWith(line, Lit("* "))
    ensures OpensSection(line) <==> StartsWith(line, Lit("## "))
    ensures OpensUnreleased(line) <==> StartsWithAnyCase(line, Lit("## [unreleased]"))
  {
    MarkTells(line, Lit("- "));
    MarkTells(line, Lit("* "));
    MarkTells(line, Lit("## "));
    FoldTells(line, Lit("## [unreleased]"));
    hide StartsWith, StartsWithAnyCase, StartsWithFold;
    assert Lit("- ") == [0x2D, 0x20] && Lit("* ") == [0x2A, 0x20];
    hide Lit;
    PairTells(line, 0x2D);
    PairTells(line, 0x2A);
  }

  lemma PairTells(line: Text, mark: Unit)
    ensures [mark, 0x20] <= line <==> |line| >= 2 && line[0] == mark && line[1] == 0x20
  {}

  lemma MarkTells(line: Text, mark: Text)
    ensures StartsWith(line, mark) <==> mark <= line
  {
    if mark <= line { assert line == mark + line[|mark|..]; }
  }

  lemma FoldTells(line: Text, mark: Text)
    ensures StartsWithAnyCase(line, mark) <==> StartsWithFold(line, mark)
  {
    if head, rest :| line == head + rest && Lower(head) == mark {
      assert forall i :: 0 <= i < |mark| ==> line[i] == head[i] && LowerUnit(head[i]) == mark[i];
    }
    if StartsWithFold(line, mark) {
      var head := line[..|mark|];
      assert line == head + line[|mark|..];
      assert Lower(head) == mark;
    }
  }

  /** The bullets are the bullet lines of the section, each where it stands, in order. */
  ghost predicate AreBullets(lines: seq<Text>, from: nat, bullets: seq<Text>, at: seq<nat>) {
    && |at| == |bullets|
    && (forall k :: 0 <= k < |at| ==> IsReached(lines, from, at[k]) && IsBulletAt(lines, at[k], bullets[k]))
    && (forall j, k :: 0 <= j < k < |at| ==> at[j] < at[k])
    && (forall i: nat :: i < |lines| && IsReached(lines, from, i) && IsBullet(lines[i]) ==> i in at)
  }

  lemma NoneReached(lines: seq<Text>, from: nat)
    requires from == |lines| || (from < |lines| && OpensSection(lines[from]))
    ensures AreBullets(lines, from, [], [])
  {
    hide IsBullet, OpensSection;
    assert forall k: nat :: !IsReached(lines, from, k);
  }

  lemma ReachedSplit(lines: seq<Text>, from: nat, k: nat)
    requires from < |lines| && !OpensSection(lines[from])
    ensures IsReached(lines, from, k) <==> k == from || IsReached(lines, from + 1, k)
    ensures IsReached(lines, from + 1, k) ==> from < k
  {
    hide OpensSection;
  }

  lemma OneMoreReached(lines: seq<Text>, from: nat, bullets: seq<Text>, at: seq<nat>)
    requires from < |lines| && !OpensSection(lines[from]) && AreBullets(lines, from + 1, bullets, at)
    ensures IsBullet(lines[from]) ==> AreBullets(lines, from, [lines[from]] + bullets, [from] + at)
    ensures !IsBullet(lines[from]) ==> AreBullets(lines, from, bullets, at)
  {
    if IsBullet(lines[from]) {
      PrependBullet(lines, from, bullets, at);
    } else {
      hide IsBullet, OpensSection, IsReached;
      forall k: nat ensures IsReached(lines, from, k) <==> k == from || IsReached(lines, from + 1, k) {
        ReachedSplit(lines, from, k);
      }
    }
  }

  lemma PrependBullet(lines: seq<Text>, from: nat, bullets: seq<Text>, at: seq<nat>)
    requires from < |lines| && !OpensSection(lines[from]) && AreBullets(lines, from + 1, bullets, at)
    requires IsBullet(lines[from])
    ensures AreBullets(lines, from, [lines[from]] + bullets, [from] + at)
  {
    var all, more := [from] + at, [lines[from]] + bullets;
    assert IsBulletAt(lines, from, lines[from]);
    hide IsBullet, OpensSection, IsReached, IsBulletAt;
    forall k | 0 <= k < |all| ensures IsReached(lines, from, all[k]) && IsBulletAt(lines, all[k], more[k]) {
      ReachedSplit(lines, from, all[k]);
      assert k > 0 ==> all[k] == at[k - 1] && more[k] == bullets[k - 1];
    }
    forall j, k | 0 <= j < k < |all| ensures all[j] < all[k] {
      ReachedSplit(lines, from, at[k - 1]);
      assert all[k] == at[k - 1];
      if j > 0 { assert all[j] == at[j - 1]; }
    }
    forall i: nat | i < |lines| && IsReached(lines, from, i) && IsBullet(lines[i]) ensures i in all {
      ReachedSplit(lines, from, i);
    }
  }

  lemma {:induction false} BulletsStand(lines: seq<Text>, from: nat) returns (at: seq<nat>)
    requires from <= |lines|
    ensures AreBullets(lines, from, Bullets(lines[from..]), at)
    decreases |lines| - from
  {
    hide *;
    BulletsStep(lines, from);
    if from == |lines| || OpensSection(lines[from]) {
      NoneReached(lines, from);
      return [];
    }
    at := BulletsStand(lines, from + 1);
    OneMoreReached(lines, from, Bullets(lines[from + 1..]), at);
    if IsBullet(lines[from]) { at := [from] + at; } else { NoBulletBefore(Bullets(lines[from + 1..])); }
  }

  lemma NoBulletBefore(bullets: seq<Text>)
    ensures [] + bullets == bullets
  {}

  /** The bullets of a changelog are the bullet lines of its first `[Unreleased]`
      section, one for one and in order. */
  lemma BulletsInOrder(changelog: Text) returns (at: seq<nat>)
    requires FindUnreleased(Lines(changelog)) < |Lines(changelog)|
    ensures AreBullets(Lines(changelog), FindUnreleased(Lines(changelog)) + 1, UnreleasedBullets(changelog), at)
  {
    hide *;
    UnreleasedIs(changelog);
    at := BulletsStand(Lines(changelog), FindUnreleased(Lines(changelog)) + 1);
  }

  /** The key of an entry is its bold lead, or else the first 80 units behind its mark,
      normalised; its excerpt is the first 120 units of its trimmed line. */
  lemma EntryExactly(abc: Alphabet, line: Text)
    requires IsBullet(line)
    ensures forall e: nat :: BoldShape(line, e) ==> EntryOf(abc, line).key == Normalise(abc, line[4..e])
    ensures (forall e: nat :: !BoldShape(line, e)) ==>
              EntryOf(abc, line).key == Normalise(abc, if |line| > 82 then line[2..82] else line[2..])
    ensures EntryOf(abc, line).excerpt == if |Trim(line)| > 120 then Trim(line)[..120] else Trim(line)
  {
    hide Normalise, BoldShape, BoldLead, Trim;
    forall e: nat ensures BoldShape(line, e) ==> BoldLead(line) == Some(e) { BoldLeadIff(line, e); }
    if BoldLead(line).Some? { BoldLeadIff(line, BoldLead(line).value); }
    if |line| > 82 { assert line[2..][..80] == line[2..82]; }
  }
}
