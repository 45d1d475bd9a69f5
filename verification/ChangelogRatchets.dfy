/**
 What holds along any run of accepted changes (`src/lib/changelogGate.ts`).
 */
module ChangelogRatchets {
  import opened Texts
  import opened Changelog

  // ---------------------------------------------------------------------
  // One accepted change
  // ---------------------------------------------------------------------

  const TYPES: set<Text> :=
    {Lit("Added"), Lit("Changed"), Lit("Fixed"), Lit("Security"), Lit("Docs"), Lit("Removed")}

  /** The headings with this name, by their places. */
  ghost function Named(hs: seq<Heading>, name: Text): set<nat> {
    set i: nat | i < |hs| && hs[i].name == name
  }

  lemma {:induction false} CountIsSize(hs: seq<Heading>, name: Text)
    ensures CountOf(hs, name) == |Named(hs, name)|
    decreases |hs|
  {
    if hs == [] {
      assert Named(hs, name) == {};
      return;
    }
    var front, n := hs[..|hs| - 1], |hs| - 1;
    CountIsSize(front, name);
    assert Named(hs, name) == if hs[n].name == name then Named(front, name) + {n} else Named(front, name);
  }

  lemma KnownIs(name: Text)
    ensures IsKnown(name) <==> name in TYPES
  {
    hide Lit;
  }

  /** A change may neither give a type more headings than it had, beyond one, nor
      bring in a name that is no type and was not there. */
  lemma AcceptedExactly(baseText: Text, headText: Text)
    ensures Accepted(baseText, headText) <==>
              forall name ::
                var was, now := |Named(Headings(baseText), name)|, |Named(Headings(headText), name)|;
                (now <= 1 || now <= was) && (now == 0 || was > 0 || name in TYPES)
  {
    hide IsKnown, Headings, TYPES, CountOf, Named;
    forall name
      ensures CountOf(Headings(baseText), name) == |Named(Headings(baseText), name)|
      ensures CountOf(Headings(headText), name) == |Named(Headings(headText), name)|
      ensures IsKnown(name) <==> name in TYPES
    {
      CountIsSize(Headings(baseText), name);
      CountIsSize(Headings(headText), name);
      KnownIs(name);
    }
    forall name
      ensures var was, now := |Named(Headings(baseText), name)|, |Named(Headings(headText), name)|;
              (now <= 1 || now <= was) && (now == 0 || was > 0 || name in TYPES) <==>
                Surplus(headText, name) <= Surplus(baseText, name)
                && (HasHeading(headText, name) ==> IsKnown(name) || HasHeading(baseText, name))
    {}
    hide Surplus, HasHeading;
    if Accepted(baseText, headText) {
      forall name
        ensures var was, now := |Named(Headings(baseText), name)|, |Named(Headings(headText), name)|;
                (now <= 1 || now <= was) && (now == 0 || was > 0 || name in TYPES)
      {
        assert Surplus(headText, name) <= Surplus(baseText, name);
      }
    }
  }

  // ---------------------------------------------------------------------
  // Runs of accepted changes
  // ---------------------------------------------------------------------

  /** Each changelog is accepted against the one before it. */
  ghost predicate Run(chain: seq<Text>) {
    forall i :: 0 < i < |chain| ==> Accepted(chain[i - 1], chain[i])
  }

  /** One heading per type, all of them recognised. */
  ghost predicate Clean(changelog: Text) {
    var hs := Headings(changelog);
    && (forall k :: 0 <= k < |hs| ==> hs[k].name in TYPES)
    && (forall j, k :: 0 <= j < k < |hs| ==> hs[j].name != hs[k].name)
  }

  /** Along any run of accepted changes no type's surplus ever grows, and every
      unrecognised name was there at the start. */
  lemma {:induction false} RatchetOnlyTightens(chain: seq<Text>, i: nat, j: nat)
    requires Run(chain) && i <= j < |chain|
    ensures forall name :: Surplus(chain[j], name) <= Surplus(chain[i], name)
    ensures forall name :: HasHeading(chain[j], name) && !IsKnown(name) ==> HasHeading(chain[i], name)
    decreases j - i
  {
    hide Surplus, IsKnown, HasHeading;
    if i < j {
      RatchetOnlyTightens(chain, i, j - 1);
      assert Accepted(chain[j - 1], chain[j]);
    }
  }

  /** A run that starts clean stays clean. */
  lemma CleanStaysClean(chain: seq<Text>, j: nat)
    requires Run(chain) && j < |chain| && Clean(chain[0])
    ensures Clean(chain[j])
  {
    hide Surplus, IsKnown, HasHeading, Clean;
    RatchetOnlyTightens(chain, 0, j);
    CleanIs(chain[0]);
    CleanIs(chain[j]);
    forall name | HasHeading(chain[j], name) ensures IsKnown(name) && Surplus(chain[j], name) == 0 {
      assert Surplus(chain[j], name) <= Surplus(chain[0], name);
      if !HasHeading(chain[0], name) { AbsentHasNoSurplus(chain[0], name); }
    }
  }

  lemma AbsentHasNoSurplus(changelog: Text, name: Text)
    requires !HasHeading(changelog, name)
    ensures Surplus(changelog, name) == 0
  {
    hide Headings, CountOf;
  }

  /** Cleanness, told name by name. */
  lemma CleanIs(changelog: Text)
    ensures Clean(changelog) <==>
              forall name :: HasHeading(changelog, name) ==> IsKnown(name) && Surplus(changelog, name) == 0
  {
    hide Headings, IsKnown, TYPES, CountOf, Named;
    var hs := Headings(changelog);
    forall name ensures HasHeading(changelog, name) <==> exists k :: 0 <= k < |hs| && hs[k].name == name {
      CountedIsListed(hs, name);
    }
    forall name ensures IsKnown(name) <==> name in TYPES { KnownIs(name); }
    if Clean(changelog) {
      forall name | HasHeading(changelog, name) ensures IsKnown(name) && Surplus(changelog, name) == 0 {
        OneNamed(hs, name);
      }
    } else if k :| 0 <= k < |hs| && hs[k].name !in TYPES {
      assert HasHeading(changelog, hs[k].name);
    } else {
      var j, k :| 0 <= j < k < |hs| && hs[j].name == hs[k].name;
      assert HasHeading(changelog, hs[k].name);
      TwoNamed(hs, j, k);
    }
  }

  lemma OneNamed(hs: seq<Heading>, name: Text)
    requires forall j, k :: 0 <= j < k < |hs| ==> hs[j].name != hs[k].name
    ensures CountOf(hs, name) <= 1
  {
    CountIsSize(hs, name);
    if i: nat :| i in Named(hs, name) {
      assert Named(hs, name) == {i};
    }
  }

  lemma TwoNamed(hs: seq<Heading>, j: nat, k: nat)
    requires j < k < |hs| && hs[j].name == hs[k].name
    ensures CountOf(hs, hs[k].name) > 1
  {
    CountIsSize(hs, hs[k].name);
    var named := Named(hs, hs[k].name);
    assert {j, k} <= named;
    SubsetSize({j, k}, named);
  }

  lemma {:induction false} SubsetSize(a: set<nat>, b: set<nat>)
    requires a <= b
    ensures |a| <= |b|
  {
    assert b == a + (b - a);
  }
}
