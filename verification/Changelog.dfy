/**
 The changelog gates: what `[Unreleased]` holds, and what a branch may do to it
 (`src/lib/changelogGate.ts`).
 */
module Changelog {
  import opened Texts
  import opened Casing

  const NEWLINE: Unit := 0x0A
  const SPACE: Unit := 0x20
  const STAR: Unit := 0x2A
  const DASH: Unit := 0x2D

  const IDENTITY_MAX: nat := 80
  const EXCERPT_MAX: nat := 120

  function Take(t: Text, n: nat): Text { if |t| > n then t[..n] else t }

  // ---------------------------------------------------------------------
  // Normalising
  // ---------------------------------------------------------------------

  /** Every run of blanks as one space. `after` says that a blank came just before. */
  function Collapse(t: Text, after: bool): Text {
    if t == [] then []
    else if IsSpace(t[0]) then (if after then [] else [SPACE]) + Collapse(t[1..], true)
    else [t[0]] + Collapse(t[1..], false)
  }

  /** Blanks collapsed, ends trimmed, lower case. */
  function Normalise(abc: Alphabet, text: Text): Text { LowerCase(abc, Trim(Collapse(text, false))) }

  // ---------------------------------------------------------------------
  // The lines of `[Unreleased]`
  // ---------------------------------------------------------------------

  function Lines(changelog: Text): seq<Text> { Split(changelog, NEWLINE) }

  /** `/^## \[Unreleased\]/i` */
  predicate OpensUnreleased(line: Text) { StartsWithFold(line, Lit("## [unreleased]")) }

  /** `/^## /` */
  predicate OpensSection(line: Text) { Lit("## ") <= line }

  /** `lines.findIndex(...)`, the length when there is none. */
  function FindUnreleased(lines: seq<Text>): (i: nat)
    ensures i <= |lines|
    ensures i < |lines| ==> OpensUnreleased(lines[i])
    ensures forall k :: 0 <= k < i ==> !OpensUnreleased(lines[k])
  {
    if lines == [] || OpensUnreleased(lines[0]) then 0 else 1 + FindUnreleased(lines[1..])
  }

  // ---------------------------------------------------------------------
  // Entries
  // ---------------------------------------------------------------------

  /** `/^[-*] /` */
  predicate IsBullet(line: Text) { |line| >= 2 && (line[0] == DASH || line[0] == STAR) && line[1] == SPACE }

  /** The first place from `e` on where `**` closes a bold lead. */
  function BoldEnd(line: Text, e: nat): (r: Option<nat>)
    ensures r.Some? ==> e <= r.value && r.value + 2 <= |line|
    decreases |line| - e
  {
    if e + 2 > |line| then None
    else if line[e] == STAR && line[e + 1] == STAR then Some(e)
    else if IsLineTerminator(line[e]) then None
    else BoldEnd(line, e + 1)
  }

  /** Where the bold lead `**...**` right after the bullet ends, if there is one. */
  function BoldLead(line: Text): (r: Option<nat>)
    ensures r.Some? ==> 5 <= r.value <= |line|
  {
    if |line| > 4 && line[2] == STAR && line[3] == STAR && !IsLineTerminator(line[4]) then BoldEnd(line, 5) else None
  }

  /** What names a bullet: its bold lead, or the start of it. */
  function Identity(line: Text): Text
    requires IsBullet(line)
  {
    match BoldLead(line)
    case Some(e) => line[4..e]
    case None => Take(line[2..], IDENTITY_MAX)
  }

  datatype Entry = Entry(key: Text, excerpt: Text)

  function EntryOf(abc: Alphabet, line: Text): Entry
    requires IsBullet(line)
  {
    Entry(Normalise(abc, Identity(line)), Take(Trim(line), EXCERPT_MAX))
  }

  /** The bullets of `lines` up to the next section. */
  function Bullets(lines: seq<Text>): (bs: seq<Text>)
    ensures forall i :: 0 <= i < |bs| ==> IsBullet(bs[i]) && bs[i] in lines
  {
    if lines == [] || OpensSection(lines[0]) then []
    else (if IsBullet(lines[0]) then [lines[0]] else []) + Bullets(lines[1..])
  }

  /** The lines after the `[Unreleased]` heading; none without one. */
  function UnreleasedLines(changelog: Text): seq<Text> {
    var lines := Lines(changelog);
    var start := FindUnreleased(lines);
    if start == |lines| then [] else lines[start + 1..]
  }

  function UnreleasedBullets(changelog: Text): (bs: seq<Text>)
    ensures forall i :: 0 <= i < |bs| ==> IsBullet(bs[i])
  {
    Bullets(UnreleasedLines(changelog))
  }

  function EntriesOf(abc: Alphabet, bullets: seq<Text>): (es: seq<Entry>)
    requires forall i :: 0 <= i < |bullets| ==> IsBullet(bullets[i])
    ensures |es| == |bullets|
    ensures forall i :: 0 <= i < |es| ==> es[i] == EntryOf(abc, bullets[i])
  {
    seq(|bullets|, i requires 0 <= i < |bullets| => EntryOf(abc, bullets[i]))
  }

  lemma BulletsStep(lines: seq<Text>, i: nat)
    requires i <= |lines|
    ensures i == |lines| || OpensSection(lines[i]) ==> Bullets(lines[i..]) == []
    ensures i < |lines| && !OpensSection(lines[i]) ==>
              Bullets(lines[i..]) == (if IsBullet(lines[i]) then [lines[i]] else []) + Bullets(lines[i + 1..])
  {
    hide IsBullet, OpensSection;
    if i < |lines| { assert lines[i..][1..] == lines[i + 1..]; }
  }

  lemma OneMoreEntry(abc: Alphabet, bullets: seq<Text>, line: Text)
    requires forall i :: 0 <= i < |bullets| ==> IsBullet(bullets[i])
    requires IsBullet(line)
    ensures forall i :: 0 <= i < |bullets + [line]| ==> IsBullet((bullets + [line])[i])
    ensures EntriesOf(abc, bullets + [line]) == EntriesOf(abc, bullets) + [EntryOf(abc, line)]
  {
    hide IsBullet, EntryOf;
  }

  /** The loop of `extractUnreleasedEntries`. */
  method ExtractUnreleasedEntries(abc: Alphabet, changelog: Text) returns (entries: seq<Entry>)
    ensures entries == EntriesOf(abc, UnreleasedBullets(changelog))
  {
    hide EntryOf, IsBullet, OpensSection, Bullets, EntriesOf, UnreleasedLines;
    var lines := UnreleasedLines(changelog);
    entries := [];
    ghost var done: seq<Text> := [];
    var i := 0;
    assert lines[0..] == lines;
    while i < |lines| && !OpensSection(lines[i])
      invariant 0 <= i <= |lines|
      invariant forall k :: 0 <= k < |done| ==> IsBullet(done[k])
      invariant entries == EntriesOf(abc, done)
      invariant done + Bullets(lines[i..]) == Bullets(lines)
    {
      var line := lines[i];
      BulletsStep(lines, i);
      if IsBullet(line) {
        OneMoreEntry(abc, done, line);
        entries := entries + [EntryOf(abc, line)];
        done := done + [line];
      }
      i := i + 1;
    }
    BulletsStep(lines, i);
    assert done + [] == done;
  }

  /** The entries whose key does not occur in `head`. */
  function Removed(entries: seq<Entry>, head: Text): seq<Entry> {
    if entries == [] then []
    else (if Includes(head, entries[0].key) then [] else [entries[0]]) + Removed(entries[1..], head)
  }

  /** `checkUnreleasedPreserved`: the entries the head has lost. */
  function Lost(abc: Alphabet, baseText: Text, headText: Text): seq<Entry> {
    Removed(EntriesOf(abc, UnreleasedBullets(baseText)), Normalise(abc, headText))
  }

  // ---------------------------------------------------------------------
  // Headings
  // ---------------------------------------------------------------------

  /** How many spaces start `t`. */
  function SpaceRun(t: Text): (n: nat)
    ensures n <= |t|
    ensures forall k :: 0 <= k < n ==> t[k] == SPACE
    ensures n < |t| ==> t[n] != SPACE
  {
    if t == [] || t[0] != SPACE then 0 else 1 + SpaceRun(t[1..])
  }

  /** `t` without the spaces at its end. */
  function DropSpaces(t: Text): (r: Text)
    ensures r <= t
  {
    if t != [] && t[|t| - 1] == SPACE then DropSpaces(t[..|t| - 1]) else t
  }

  /** `/^### +(.+?) *$/`: the name of a `### ` heading. A heading of spaces only
      is named by one of them. */
  function HeadingName(line: Text): Option<Text> {
    if !(Lit("###") <= line) then None
    else
      var rest := line[3..];
      var n := SpaceRun(rest);
      if n == 0 then None
      else if n == |rest| then if n >= 2 then Some([SPACE]) else None
      else
        var name := DropSpaces(rest[n..]);
        if exists k :: 0 <= k < |name| && IsLineTerminator(name[k]) then None else Some(name)
  }

  datatype Heading = Heading(name: Text, line: nat)

  /** The headings of `lines[i..]` up to the next section. */
  function HeadingsFrom(lines: seq<Text>, i: nat): seq<Heading>
    requires i <= |lines|
    decreases |lines| - i
  {
    if i == |lines| || OpensSection(lines[i]) then []
    else
      (match HeadingName(lines[i])
       case Some(name) => [Heading(name, i + 1)]
       case None => [])
      + HeadingsFrom(lines, i + 1)
  }

  /** What the section's `### ` lines are called, from top to bottom. */
  function Headings(changelog: Text): seq<Heading> {
    var lines := Lines(changelog);
    var start := FindUnreleased(lines);
    if start == |lines| then [] else HeadingsFrom(lines, start + 1)
  }

  lemma HeadingsStep(lines: seq<Text>, i: nat)
    requires i <= |lines|
    ensures i == |lines| || OpensSection(lines[i]) ==> HeadingsFrom(lines, i) == []
    ensures i < |lines| && !OpensSection(lines[i]) ==>
              HeadingsFrom(lines, i)
              == (if HeadingName(lines[i]).Some? then [Heading(HeadingName(lines[i]).value, i + 1)] else [])
                  + HeadingsFrom(lines, i + 1)
  {
    hide HeadingName, OpensSection;
  }

  /** The loop of `extractUnreleasedHeadings`. */
  method ExtractUnreleasedHeadings(changelog: Text) returns (headings: seq<Heading>)
    ensures headings == Headings(changelog)
  {
    hide HeadingName, OpensSection, OpensUnreleased, HeadingsFrom, Lines, FindUnreleased;
    var lines := Lines(changelog);
    var start := FindUnreleased(lines);
    headings := [];
    if start == |lines| { return; }
    var i := start + 1;
    while i < |lines| && !OpensSection(lines[i])
      invariant start + 1 <= i <= |lines|
      invariant headings + HeadingsFrom(lines, i) == HeadingsFrom(lines, start + 1)
    {
      HeadingsStep(lines, i);
      var name := HeadingName(lines[i]);
      if name.Some? { headings := headings + [Heading(name.value, i + 1)]; }
      i := i + 1;
    }
    HeadingsStep(lines, i);
    assert headings + [] == headings;
  }

  /** How many headings have this name. */
  function CountOf(headings: seq<Heading>, name: Text): nat {
    if headings == [] then 0
    else CountOf(headings[..|headings| - 1], name) + if headings[|headings| - 1].name == name then 1 else 0
  }

  /** `countByName` */
  method CountByName(headings: seq<Heading>) returns (counts: map<Text, nat>)
    ensures forall name :: CountOf(headings, name) == if name in counts then counts[name] else 0
    ensures forall name :: name in counts ==> counts[name] > 0
  {
    counts := map[];
    var i := 0;
    assert headings[..0] == [];
    while i < |headings|
      invariant 0 <= i <= |headings|
      invariant forall name :: CountOf(headings[..i], name) == if name in counts then counts[name] else 0
      invariant forall name :: name in counts ==> counts[name] > 0
    {
      var name := headings[i].name;
      counts := counts[name := (if name in counts then counts[name] else 0) + 1];
      i := i + 1;
      assert headings[..i][..i - 1] == headings[..i - 1];
    }
    assert headings[..i] == headings;
  }

  /** Occurrences beyond the first. */
  function Surplus(changelog: Text, name: Text): nat {
    var n := CountOf(Headings(changelog), name);
    if n > 0 then n - 1 else 0
  }

  /** The recognised section names. */
  predicate IsKnown(name: Text) {
    || name == Lit("Added")
    || name == Lit("Changed")
    || name == Lit("Fixed")
    || name == Lit("Security")
    || name == Lit("Docs")
    || name == Lit("Removed")
  }

  predicate HasHeading(changelog: Text, name: Text) { CountOf(Headings(changelog), name) > 0 }

  /** May a branch turn `baseText` into `headText`? It may make no type's surplus
      grow, and introduce no unrecognised name. */
  ghost predicate Accepted(baseText: Text, headText: Text) {
    && (forall name :: Surplus(headText, name) <= Surplus(baseText, name))
    && (forall name :: HasHeading(headText, name) ==> IsKnown(name) || HasHeading(baseText, name))
  }

  lemma {:induction false} CountedIsListed(headings: seq<Heading>, name: Text)
    ensures CountOf(headings, name) > 0 <==> exists i :: 0 <= i < |headings| && headings[i].name == name
  {
    if headings != [] {
      var front := headings[..|headings| - 1];
      CountedIsListed(front, name);
      if i :| 0 <= i < |headings| && headings[i].name == name { assert i < |front| ==> front[i] == headings[i]; }
    }
  }

  /** `checkUnreleasedHeadings`: the types made worse, the names introduced, and
      the verdict. */
  method CheckUnreleasedHeadings(baseText: Text, headText: Text)
    returns (worsened: seq<Text>, introduced: seq<Heading>, failed: bool)
    ensures forall name :: name in worsened <==> Surplus(headText, name) > Surplus(baseText, name)
    ensures forall h :: h in introduced <==>
          h in Headings(headText) && !IsKnown(h.name) && !HasHeading(baseText, h.name)
    ensures failed <==> !Accepted(baseText, headText)
  {
    hide IsKnown, Headings;
    var headHeadings := ExtractUnreleasedHeadings(headText);
    var baseHeadings := ExtractUnreleasedHeadings(baseText);
    var baseCounts := CountByName(baseHeadings);
    var headCounts := CountByName(headHeadings);
    worsened := [];
    var names := headCounts.Keys;
    while names != {}
      invariant names <= headCounts.Keys
      invariant forall name :: name in worsened <==>
        name in headCounts && name !in names && Surplus(headText, name) > Surplus(baseText, name)
      decreases |names|
    {
      var name :| name in names;
      var headSurplus := headCounts[name] - 1;
      var baseSurplus := if name in baseCounts && baseCounts[name] > 1 then baseCounts[name] - 1 else 0;
      if headSurplus > baseSurplus { worsened := worsened + [name]; }
      names := names - {name};
    }
    introduced := [];
    var i := 0;
    while i < |headHeadings|
      invariant 0 <= i <= |headHeadings|
      invariant forall h :: h in introduced <==>
            h in headHeadings[..i] && !IsKnown(h.name) && !HasHeading(baseText, h.name)
    {
      var h := headHeadings[i];
      assert headHeadings[..i + 1] == headHeadings[..i] + [h];
      if !IsKnown(h.name) && h.name !in baseCounts { introduced := introduced + [h]; }
      i := i + 1;
    }
    assert headHeadings[..i] == headHeadings;
    failed := worsened != [] || introduced != [];
    VerdictIsAcceptance(baseText, headText, worsened, introduced);
  }

  lemma VerdictIsAcceptance(baseText: Text, headText: Text, worsened: seq<Text>, introduced: seq<Heading>)
    requires forall name :: name in worsened <==> Surplus(headText, name) > Surplus(baseText, name)
    requires forall h :: h in introduced <==>
          h in Headings(headText) && !IsKnown(h.name) && !HasHeading(baseText, h.name)
    ensures Accepted(baseText, headText) <==> worsened == [] && introduced == []
  {
    hide IsKnown, Headings, Surplus;
    var hs := Headings(headText);
    forall name ensures HasHeading(headText, name) <==> exists i :: 0 <= i < |hs| && hs[i].name == name {
      CountedIsListed(hs, name);
    }
    if worsened != [] {
      assert worsened[0] in worsened;
      assert Surplus(headText, worsened[0]) > Surplus(baseText, worsened[0]);
    }
    if introduced != [] {
      assert introduced[0] in introduced;
      assert HasHeading(headText, introduced[0].name);
    }
    forall name | HasHeading(headText, name) && !IsKnown(name) && !HasHeading(baseText, name) ensures introduced != [] {
      var i :| 0 <= i < |hs| && hs[i].name == name;
      assert hs[i] in hs;
    }
  }
}
