/**
 How a key is printed (`src/lib/ipAddress.ts`).
 */
module IpPrinting {
  import opened Texts
  import opened IpAddress
  import opened IpRoundTrips

  /** No leading zero, unless zero is all there is. */
  predicate IsShortest(g: Text) { g != [] && (|g| == 1 || g[0] != ZERO) }

  lemma {:induction false} StrippedIsShortest(g: Text)
    requires g != []
    ensures IsShortest(StripZeros(g))
  {
    if |g| > 1 && g[0] == ZERO { StrippedIsShortest(g[1..]); }
  }

  /** The `i`-th printed group is that of the key, as short as it can be. */
  ghost predicate PrintsGroup(key: Text, i: nat, g: Text)
    requires IsKey(key) && i < 8
  {
    IsGroup(g) && IsShortest(g) && Value(g) == Value(key[4 * i..4 * i + 4])
  }

  lemma StrippedPrints(key: Text, i: nat)
    requires IsKey(key) && i < 8
    ensures PrintsGroup(key, i, StripZeros(GroupAt(key, i)))
  {
    hide StripZeros, Value, PadStart;
    var g := GroupAt(key, i);
    SliceIsHex(key, 4 * i);
    StripZerosPadsBack(g);
    StrippedIsShortest(g);
    PadKeepsValue(StripZeros(g), 4);
  }

  lemma {:induction false} GroupsPrint(key: Text, n: nat)
    requires IsKey(key) && n <= 8
    ensures forall i :: 0 <= i < n ==> PrintsGroup(key, i, PrintedGroups(key, n)[i])
  {
    hide PrintsGroup, PrintedGroups;
    if n > 0 {
      GroupsPrint(key, n - 1);
      PrintedStep(key, n - 1);
      StrippedPrints(key, n - 1);
    }
  }

  /** An address outside the mapped range is printed as eight groups with colons
      between them, each the number of its four digits in as few digits as it takes. */
  lemma PrintedShortest(key: Text)
    requires IsKey(key) && !(MAPPED_PREFIX <= key)
    ensures var parts := Split(Denormalized(key), COLON);
            |parts| == 8 && forall i :: 0 <= i < 8 ==> PrintsGroup(key, i, parts[i])
  {
    hide Split, Join, PrintsGroup, PrintedGroups, IsGroup, AllLowerHex;
    var gs := PrintedGroups(key, 8);
    GroupsPrint(key, 8);
    PrintedGroupsPadBack(key, 8);
    forall g | g in gs ensures COLON !in g { GroupIsPlain(g); }
    SplitOfJoin(gs, COLON);
  }
}
