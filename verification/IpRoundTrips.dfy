/**
 The printer and the parser of addresses undo each other, and every RFC 4291
 spelling of an address has one key (`src/lib/ipAddress.ts`).
 */
module IpRoundTrips {
  import opened Texts
  import opened IpAddress
  import IpOrder

  // ---------------------------------------------------------------------
  // Octets
  // ---------------------------------------------------------------------

  /** Octets below 256 are printed and read back without change. */
  lemma OctetReadsBack(o: nat)
    requires o < 256
    ensures IsOctet(Decimal(o)) && OctetValue(Decimal(o)) == o
  {
    if o >= 10 {
      var d := Decimal(o / 10);
      if o >= 100 { assert d == Decimal(o / 100) + [0x30 + (o / 10) % 10]; }
    }
  }

  /** An accepted octet numeral is the one the printer would write. */
  lemma OctetPrintsBack(p: Text)
    requires IsOctet(p)
    ensures Decimal(OctetValue(p)) == p
  {
    var v := OctetValue(p);
    if |p| == 2 {
      assert v / 10 == p[0] - 0x30 && v % 10 == p[1] - 0x30;
    } else if |p| == 3 {
      assert v / 10 == 10 * (p[0] as int - 0x30) + (p[1] as int - 0x30) && v % 10 == p[2] - 0x30;
      assert v / 10 / 10 == p[0] - 0x30 && v / 10 % 10 == p[1] - 0x30;
      assert Decimal(v / 10) == [p[0], p[1]];
    }
  }

  lemma OctetHexReadsBack(h: Text)
    requires |h| == 2 && AllLowerHex(h)
    ensures OctetHex(16 * LowerHexValue(h[0]) + LowerHexValue(h[1])) == h
  {
    assert forall u: Unit, v: Unit :: IsLowerHex(u) && IsLowerHex(v) && LowerHexValue(u) == LowerHexValue(v) ==> u == v;
  }

  // ---------------------------------------------------------------------
  // IPv4
  // ---------------------------------------------------------------------

  /** The four octet numerals of a printed quad are read back as they were. */
  lemma QuadIsRead(p0: Text, p1: Text, p2: Text, p3: Text)
    requires IsOctet(p0) && IsOctet(p1) && IsOctet(p2) && IsOctet(p3)
    ensures var q := Join([p0, p1, p2, p3], [DOT]);
            && Split(q, DOT) == [p0, p1, p2, p3]
            && NormalizeIpv4(q) == Some(MAPPED_PREFIX + (OctetHex(OctetValue(p0)) + OctetHex(OctetValue(p1))
                                                       + OctetHex(OctetValue(p2)) + OctetHex(OctetValue(p3))))
  {
    hide Join, Split, OctetHex, OctetValue;
    SplitOfJoin([p0, p1, p2, p3], DOT);
  }

  /** No IPv4 address has two accepted dotted spellings: printing the key of an
      accepted quad gives the quad back. */
  lemma Ipv4PrintsBack(q: Text)
    requires NormalizeIpv4(q).Some?
    ensures Denormalized(NormalizeIpv4(q).value) == q
  {
    var p, key := Split(q, DOT), NormalizeIpv4(q).value;
    AcceptedParts(q);
    hide Join, Split, OctetValue, OctetHex, OctetDecimal, IsOctet, MAPPED_PREFIX, NormalizeIpv4, Decimal, IsKey;
    forall i | 0 <= i < 4 ensures OctetDecimal(OctetHex(OctetValue(p[i]))) == p[i] { OctetThere(p[i]); }
    assert p == [p[0], p[1], p[2], p[3]];
    JoinOfSplit(q, DOT);
  }

  lemma OctetThere(p: Text)
    requires IsOctet(p)
    ensures AllLowerHex(OctetHex(OctetValue(p))) && |OctetHex(OctetValue(p))| == 2
    ensures OctetDecimal(OctetHex(OctetValue(p))) == p
  {
    OctetPrintsBack(p);
    hide OctetValue, IsOctetNumeral, Decimal;
  }

  /** The four numerals of an accepted quad, and where its key holds them. */
  lemma AcceptedParts(q: Text)
    requires NormalizeIpv4(q).Some?
    ensures var p, key := Split(q, DOT), NormalizeIpv4(q).value;
            && |p| == 4 && (forall i :: 0 <= i < 4 ==> IsOctet(p[i]))
            && key[24..26] == OctetHex(OctetValue(p[0])) && key[26..28] == OctetHex(OctetValue(p[1]))
            && key[28..30] == OctetHex(OctetValue(p[2])) && key[30..32] == OctetHex(OctetValue(p[3]))
  {
    hide Split, OctetValue, OctetHex, IsOctetNumeral;
    PrefixIsHex();
    var p := Split(q, DOT);
    FourPairs(MAPPED_PREFIX, OctetHex(OctetValue(p[0])), OctetHex(OctetValue(p[1])),
              OctetHex(OctetValue(p[2])), OctetHex(OctetValue(p[3])));
  }

  lemma FourPairs(prefix: Text, a: Text, b: Text, c: Text, d: Text)
    requires |prefix| == 24 && |a| == |b| == |c| == |d| == 2
    ensures var key := prefix + (a + b + c + d);
            key[24..26] == a && key[26..28] == b && key[28..30] == c && key[30..32] == d
  {}

  // ---------------------------------------------------------------------
  // Blanks and case leave clean text alone
  // ---------------------------------------------------------------------

  /** A unit an address may be written with once trimmed and lower-cased. */
  predicate IsAddressUnit(u: Unit) { IsLowerHex(u) || u == COLON || u == DOT }

  lemma CleanTextUnchanged(t: Text)
    requires t != [] && forall i :: 0 <= i < |t| ==> IsAddressUnit(t[i])
    ensures Lower(Trim(t)) == t
  {
    hide *;
    CleanTrim(t);
    CleanLower(t);
  }

  lemma CleanTrim(t: Text)
    requires t != [] && IsAddressUnit(t[0]) && IsAddressUnit(t[|t| - 1])
    ensures Trim(t) == t
  {
    CleanUnit(t[0]);
    CleanUnit(t[|t| - 1]);
    hide *;
    assert [] + t + [] == t;
    TrimFindsCore([], t, []);
  }

  lemma CleanLower(t: Text)
    requires forall i :: 0 <= i < |t| ==> IsAddressUnit(t[i])
    ensures Lower(t) == t
  {
    forall i | 0 <= i < |t| ensures Lower(t)[i] == t[i] { CleanUnit(t[i]); }
  }

  lemma CleanUnit(u: Unit)
    requires IsAddressUnit(u)
    ensures !IsSpace(u) && LowerUnit(u) == u
  {}

  lemma {:induction false} JoinUnits(parts: seq<Text>, sep: Unit)
    requires IsAddressUnit(sep)
    requires forall i :: 0 <= i < |parts| ==> forall k :: 0 <= k < |parts[i]| ==> IsAddressUnit(parts[i][k])
    ensures forall k :: 0 <= k < |Join(parts, [sep])| ==> IsAddressUnit(Join(parts, [sep])[k])
  {
    if |parts| > 1 { JoinUnits(parts[1..], sep); }
  }

  // ---------------------------------------------------------------------
  // Hex groups and elisions
  // ---------------------------------------------------------------------

  /** No two colons stand together, and none at either end. */
  ghost predicate PlainColons(t: Text) {
    && (forall k :: 0 <= k < |t| - 1 ==> !(t[k] == COLON && t[k + 1] == COLON))
    && (t != [] ==> t[0] != COLON && t[|t| - 1] != COLON)
  }

  ghost predicate Groups(gs: seq<Text>) { forall i :: 0 <= i < |gs| ==> IsGroup(gs[i]) }

  lemma GroupIsPlain(g: Text)
    requires IsGroup(g)
    ensures g != [] && COLON !in g && DOT !in g && PlainColons(g)
  {}

  lemma AppendGroup(g: Text, rest: Text)
    requires IsGroup(g) && PlainColons(rest) && rest != [] && DOT !in rest
    ensures PlainColons(g + [COLON] + rest) && DOT !in g + [COLON] + rest
  {
    var t := g + [COLON] + rest;
    forall k | 0 <= k < |t| - 1 ensures !(t[k] == COLON && t[k + 1] == COLON) {
      if k > |g| { assert t[k] == rest[k - |g| - 1] && t[k + 1] == rest[k - |g|]; }
    }
    GroupIsPlain(g);
  }

  lemma {:induction false} JoinedGroups(gs: seq<Text>)
    requires Groups(gs)
    ensures var t := Join(gs, [COLON]);
            PlainColons(t) && DOT !in t && (gs != [] <==> t != []) && HexGroups(t) == Some(gs)
  {
    hide IsGroup, PlainColons;
    if gs == [] {
      EmptyIsPlain();
      return;
    }
    forall i | 0 <= i < |gs| ensures COLON !in gs[i] { GroupIsPlain(gs[i]); }
    SplitOfJoin(gs, COLON);
    GroupIsPlain(gs[0]);
    if |gs| > 1 {
      JoinedGroups(gs[1..]);
      AppendGroup(gs[0], Join(gs[1..], [COLON]));
    }
  }

  lemma EmptyIsPlain()
    ensures PlainColons([])
  {}

  lemma ElisionIs(t: Text, e: nat)
    requires e == |t| || (e + 1 < |t| && t[e] == COLON && t[e + 1] == COLON)
    requires forall k :: 0 <= k < e && k + 1 < |t| ==> !(t[k] == COLON && t[k + 1] == COLON)
    ensures ElisionAt(t) == e
  {
    hide ElisionAt;
  }

  /** A way to write eight hex groups: in full, or with `::` for the groups
      between a head and a tail. */
  datatype Spelling = Full(groups: seq<Text>) | Elided(head: seq<Text>, tail: seq<Text>)

  ghost predicate WellSpelled(s: Spelling) {
    match s
    case Full(groups) => Groups(groups) && |groups| == 8
    case Elided(head, tail) => Groups(head) && Groups(tail) && |head| + |tail| <= 7
  }

  function SpellingText(s: Spelling): Text {
    match s
    case Full(groups) => Join(groups, [COLON])
    case Elided(head, tail) => Join(head, [COLON]) + [COLON, COLON] + Join(tail, [COLON])
  }

  function SpelledGroups(s: Spelling): (gs: seq<Text>)
    requires WellSpelled(s)
    ensures |gs| == 8 && Groups(gs)
  {
    match s
    case Full(groups) => groups
    case Elided(head, tail) => head + Zeros(8 - |head| - |tail|) + tail
  }

  lemma ElidedIsSplit(h: Text, t: Text)
    requires PlainColons(h) && PlainColons(t)
    ensures var text := h + [COLON, COLON] + t;
            ElisionAt(text) == |h| && text[..|h|] == h && text[|h| + 2..] == t && ElisionAt(t) == |t|
  {
    var text := h + [COLON, COLON] + t;
    forall k | 0 <= k < |h| ensures !(text[k] == COLON && text[k + 1] == COLON) { NoEarlierElision(h, t, k); }
    hide PlainColons, ElisionAt;
    ElisionIs(text, |h|);
    PlainIsWhole(t);
  }

  lemma NoEarlierElision(h: Text, t: Text, k: nat)
    requires PlainColons(h) && k < |h|
    ensures var text := h + [COLON, COLON] + t; !(text[k] == COLON && text[k + 1] == COLON)
  {
    var text := h + [COLON, COLON] + t;
    assert text[k] == h[k] && (k + 1 < |h| ==> text[k + 1] == h[k + 1]);
  }

  /** A spelling is read as the groups it stands for. */
  lemma SpellingIsRead(s: Spelling)
    requires WellSpelled(s)
    ensures Ipv6Groups(SpellingText(s)) == Some(SpelledGroups(s))
    ensures DOT !in SpellingText(s) && COLON in SpellingText(s)
  {
    hide HexGroups, PlainColons, IsGroup, Join;
    match s {
      case Full(groups) =>
        JoinedGroups(groups);
        FullHasColon(groups);
        PlainIsWhole(SpellingText(s));
      case Elided(head, tail) =>
        JoinedGroups(head);
        JoinedGroups(tail);
        ElidedIsSplit(Join(head, [COLON]), Join(tail, [COLON]));
        assert SpellingText(s)[|Join(head, [COLON])|] == COLON;
    }
  }

  lemma FullHasColon(groups: seq<Text>)
    requires |groups| > 1
    ensures COLON in Join(groups, [COLON])
  {
    assert Join(groups, [COLON])[|groups[0]|] == COLON;
  }

  lemma PlainIsWhole(t: Text)
    requires PlainColons(t)
    ensures ElisionAt(t) == |t|
  {
    ElisionIs(t, |t|);
  }

  /** Only spellings are read as hex groups. */
  lemma ReadIsSpelling(text: Text) returns (s: Spelling)
    requires Ipv6Groups(text).Some?
    ensures WellSpelled(s) && SpellingText(s) == text && SpelledGroups(s) == Ipv6Groups(text).value
  {
    hide Join, IsGroup, Split;
    var e := ElisionAt(text);
    if e < |text| {
      var h, t := text[..e], text[e + 2..];
      GroupsRejoin(h);
      GroupsRejoin(t);
      s := Elided(HexGroups(h).value, HexGroups(t).value);
      assert text == h + [COLON, COLON] + t;
    } else {
      GroupsRejoin(text);
      s := Full(HexGroups(text).value);
    }
  }

  lemma GroupsRejoin(part: Text)
    requires HexGroups(part).Some?
    ensures Join(HexGroups(part).value, [COLON]) == part && Groups(HexGroups(part).value)
  {
    if part != [] { JoinOfSplit(part, COLON); }
  }

  lemma NoQuadWithoutDot(t: Text)
    requires DOT !in t
    ensures !IsQuadShape(t)
  {
    IndexOfUnique(t, DOT, |t|);
  }

  lemma Ipv6WithoutDot(t: Text)
    requires DOT !in t
    ensures RewriteIpv4Tail(t) == Some(t) && Candidate(t) == t
    ensures NormalizeIpv6(t) == match Ipv6Groups(t) case None => None case Some(gs) => Some(JoinPadded(gs))
  {
    hide IsQuadShape, Ipv6Groups, JoinPadded, NormalizeIpv4, LastColon;
    var j := LastColon(t);
    NoQuadWithoutDot(t[j + 1..]);
    if |t| >= 7 { NoQuadWithoutDot(t[7..]); }
  }

  /** Without a dot, an input is accepted exactly when it is, blanks and case
      aside, a spelling of eight hex groups; the key is that of the groups. */
  lemma AcceptsExactlySpellings(input: Text, key: Text)
    requires DOT !in Lower(Trim(input))
    ensures NormalizeIp(input) == Some(key) <==>
              exists s :: WellSpelled(s) && Lower(Trim(input)) == SpellingText(s) && key == JoinPadded(SpelledGroups(s))
  {
    hide Ipv6Groups, JoinPadded, NormalizeIpv4, Trim, SpellingText, SpelledGroups, WellSpelled, RewriteIpv4Tail,
        Candidate;
    var value := Lower(Trim(input));
    Ipv6WithoutDot(value);
    if s :| WellSpelled(s) && value == SpellingText(s) && key == JoinPadded(SpelledGroups(s)) {
      SpellingIsRead(s);
    }
    if NormalizeIp(input) == Some(key) {
      var s := ReadIsSpelling(value);
    }
  }

  // ---------------------------------------------------------------------
  // The key of an address
  // ---------------------------------------------------------------------

  /** A 16-bit number as four hex digits. */
  function Hex4(n: nat): (t: Text)
    requires n < 0x10000
    ensures |t| == 4 && AllLowerHex(t)
  {
    [LowerHexDigit(n / 16 / 16 / 16), LowerHexDigit(n / 16 / 16 % 16), LowerHexDigit(n / 16 % 16),
        LowerHexDigit(n % 16)]
  }

  /** The 128-bit key of eight 16-bit numbers. */
  function AddressKey(numbers: seq<nat>): Text
    requires forall i :: 0 <= i < |numbers| ==> numbers[i] < 0x10000
  {
    if numbers == [] then [] else Hex4(numbers[0]) + AddressKey(numbers[1..])
  }

  lemma ValueAppend(t: Text, u: Unit)
    requires AllLowerHex(t) && IsLowerHex(u)
    ensures AllLowerHex(t + [u]) && Value(t + [u]) == 16 * Value(t) + LowerHexValue(u)
  {
    assert (t + [u])[..|t|] == t;
  }

  lemma FourDigits(n: nat, a: nat, b: nat, c: nat, d: nat)
    requires a == n / 16 / 16 / 16 && b == n / 16 / 16 % 16 && c == n / 16 % 16 && d == n % 16
    ensures n == ((a * 16 + b) * 16 + c) * 16 + d
  {
    assert n == n / 16 * 16 + d;
    assert n / 16 == n / 16 / 16 * 16 + c;
    assert n / 16 / 16 == a * 16 + b;
  }

  lemma DigitValues()
    ensures forall v: nat :: v < 16 ==> LowerHexValue(LowerHexDigit(v)) == v
  {}

  lemma ValueOfHex4(n: nat)
    requires n < 0x10000
    ensures Value(Hex4(n)) == n
  {
    hide Value, LowerHexDigit, LowerHexValue;
    var a, b, c, d := n / 16 / 16 / 16, n / 16 / 16 % 16, n / 16 % 16, n % 16;
    FourDigits(n, a, b, c, d);
    IpOrder.ValueOfNothing();
    var t1 := [] + [LowerHexDigit(a)];
    var t2 := t1 + [LowerHexDigit(b)];
    var t3 := t2 + [LowerHexDigit(c)];
    ValueAppend([], LowerHexDigit(a));
    ValueAppend(t1, LowerHexDigit(b));
    ValueAppend(t2, LowerHexDigit(c));
    ValueAppend(t3, LowerHexDigit(d));
    assert Hex4(n) == t3 + [LowerHexDigit(d)];
    DigitValues();
  }

  lemma GroupValueBound(g: Text)
    requires IsGroup(g)
    ensures Value(g) < 0x10000
  {
    if |g| > 1 {
      var a := g[..|g| - 1];
      if |a| > 1 {
        var b := a[..|a| - 1];
        if |b| > 1 { assert Value(b[..|b| - 1]) < 16; }
        assert Value(b) < 256;
      }
      assert Value(a) < 4096;
    }
  }

  lemma {:induction false} ZerosKeepValue(n: nat, t: Text)
    requires AllLowerHex(t)
    ensures var p := seq(n, _ => ZERO) + t;
            AllLowerHex(p) && Value(p) == Value(t)
  {
    hide Value;
    if n == 0 {
      assert seq(n, _ => ZERO) + t == t;
    } else {
      ZerosKeepValue(n - 1, t);
      LeadingZero(seq(n - 1, _ => ZERO) + t);
      assert [ZERO] + (seq(n - 1, _ => ZERO) + t) == seq(n, _ => ZERO) + t;
    }
  }

  lemma PadKeepsValue(t: Text, width: nat)
    requires AllLowerHex(t)
    ensures AllLowerHex(PadStart(t, width)) && Value(PadStart(t, width)) == Value(t)
  {
    if |t| < width { ZerosKeepValue(width - |t|, t); }
  }

  lemma {:induction false} LeadingZero(t: Text)
    requires AllLowerHex(t)
    ensures AllLowerHex([ZERO] + t) && Value([ZERO] + t) == Value(t)
  {
    var z := [ZERO] + t;
    if t != [] {
      LeadingZero(t[..|t| - 1]);
      assert z[..|z| - 1] == [ZERO] + t[..|t| - 1];
    } else {
      assert z[..0] == [];
    }
  }

  /** A padded group is its number in four digits, whatever zeros it was written with. */
  lemma PaddedGroup(g: Text)
    requires IsGroup(g)
    ensures Value(g) < 0x10000 && PadStart(g, 4) == Hex4(Value(g))
  {
    hide PadStart, Value, Hex4;
    GroupValueBound(g);
    PadKeepsValue(g, 4);
    ValueOfHex4(Value(g));
    IpOrder.OrderIsNumeric(PadStart(g, 4), Hex4(Value(g)));
  }

  function GroupNumbers(gs: seq<Text>): (ns: seq<nat>)
    requires Groups(gs)
    ensures |ns| == |gs|
    ensures forall i :: 0 <= i < |gs| ==> ns[i] == Value(gs[i])
    ensures forall i :: 0 <= i < |ns| ==> ns[i] < 0x10000
  {
    if gs == [] then [] else
      GroupValueBound(gs[0]);
      [Value(gs[0])] + GroupNumbers(gs[1..])
  }

  lemma {:induction false} PaddedIsAddressKey(gs: seq<Text>)
    requires Groups(gs)
    ensures JoinPadded(gs) == AddressKey(GroupNumbers(gs))
  {
    hide PadStart, Value, Hex4, IsGroup;
    if gs != [] {
      PaddedGroup(gs[0]);
      PaddedIsAddressKey(gs[1..]);
    }
  }

  // ---------------------------------------------------------------------
  // Any case, any blanks
  // ---------------------------------------------------------------------

  ghost predicate AnyCaseGroups(gs: seq<Text>) {
    forall i :: 0 <= i < |gs| ==> 1 <= |gs[i]| <= 4 && forall k :: 0 <= k < |gs[i]| ==> IsHexDigit(gs[i][k])
  }

  function LowerAll(gs: seq<Text>): (r: seq<Text>)
    ensures |r| == |gs|
    ensures forall i :: 0 <= i < |gs| ==> r[i] == Lower(gs[i])
  {
    seq(|gs|, i requires 0 <= i < |gs| => Lower(gs[i]))
  }

  lemma LowerGroups(gs: seq<Text>)
    requires AnyCaseGroups(gs)
    ensures Groups(LowerAll(gs))
  {}

  lemma LowerAppend(a: Text, b: Text)
    ensures Lower(a + b) == Lower(a) + Lower(b)
  {}

  lemma {:induction false} LowerJoin(gs: seq<Text>)
    ensures Lower(Join(gs, [COLON])) == Join(LowerAll(gs), [COLON])
  {
    if |gs| == 1 {
      assert LowerAll(gs) == [Lower(gs[0])];
    } else if |gs| > 1 {
      hide Lower;
      var rest := Join(gs[1..], [COLON]);
      LowerJoin(gs[1..]);
      LowerAppend(gs[0] + [COLON], rest);
      LowerAppend(gs[0], [COLON]);
      ColonIsLower();
      assert LowerAll(gs)[1..] == LowerAll(gs[1..]);
    }
  }

  lemma ColonIsLower()
    ensures Lower([COLON]) == [COLON] && Lower([COLON, COLON]) == [COLON, COLON]
  {}

  ghost predicate AnyCaseSpelled(s: Spelling) {
    match s
    case Full(groups) => AnyCaseGroups(groups) && |groups| == 8
    case Elided(head, tail) => AnyCaseGroups(head) && AnyCaseGroups(tail) && |head| + |tail| <= 7
  }

  function LowerSpelling(s: Spelling): Spelling {
    match s
    case Full(groups) => Full(LowerAll(groups))
    case Elided(head, tail) => Elided(LowerAll(head), LowerAll(tail))
  }

  lemma LowerSpellingText(s: Spelling)
    requires AnyCaseSpelled(s)
    ensures WellSpelled(LowerSpelling(s))
    ensures Lower(SpellingText(s)) == SpellingText(LowerSpelling(s))
  {
    hide Lower, Join, AnyCaseGroups, Groups;
    match s {
      case Full(groups) => LowerJoin(groups); LowerGroups(groups);
      case Elided(head, tail) =>
        LowerJoin(head);
        LowerJoin(tail);
        LowerGroups(head);
        LowerGroups(tail);
        LowerAppend(Join(head, [COLON]) + [COLON, COLON], Join(tail, [COLON]));
        LowerAppend(Join(head, [COLON]), [COLON, COLON]);
        ColonIsLower();
    }
  }

  /** The eight numbers a spelling stands for. */
  function Numbers(s: Spelling): (ns: seq<nat>)
    requires AnyCaseSpelled(s)
    ensures |ns| == 8 && forall i :: 0 <= i < 8 ==> ns[i] < 0x10000
  {
    LowerSpellingText(s);
    GroupNumbers(SpelledGroups(LowerSpelling(s)))
  }

  /** Every spelling of an address, in any case, with any leading zeros, with
      `::` for any run of zero groups, between any blanks, has the key of its
      eight numbers. */
  lemma EverySpellingHasOneKey(before: Text, s: Spelling, after: Text)
    requires AnyCaseSpelled(s)
    requires forall u :: u in before ==> IsSpace(u)
    requires forall u :: u in after ==> IsSpace(u)
    ensures NormalizeIp(before + SpellingText(s) + after) == Some(AddressKey(Numbers(s)))
  {
    hide Lower, Trim, Ipv6Groups, JoinPadded, NormalizeIpv4, SpellingText, SpelledGroups, WellSpelled, AddressKey,
        GroupNumbers, AnyCaseSpelled;
    var text, low := SpellingText(s), LowerSpelling(s);
    LowerSpellingText(s);
    SpellingIsRead(low);
    SpellingUnits(s);
    TrimFindsCore(before, text, after);
    Ipv6WithoutDot(SpellingText(low));
    PaddedIsAddressKey(SpelledGroups(low));
  }

  lemma SpellingUnits(s: Spelling)
    requires AnyCaseSpelled(s)
    ensures var t := SpellingText(s);
            t != [] && !IsSpace(t[0]) && !IsSpace(t[|t| - 1])
  {
    hide Join, IsGroup, PlainColons, AnyCaseGroups, Lower;
    LowerSpellingText(s);
    var t, low := SpellingText(s), SpellingText(LowerSpelling(s));
    assert |t| == |low| && forall i :: 0 <= i < |t| ==> low[i] == LowerUnit(t[i]) by { LowerPointwise(t); }
    LowUnits(LowerSpelling(s));
    assert forall u: Unit :: IsAddressUnit(LowerUnit(u)) ==> !IsSpace(u);
  }

  lemma LowerPointwise(t: Text)
    ensures |Lower(t)| == |t| && forall i :: 0 <= i < |t| ==> Lower(t)[i] == LowerUnit(t[i])
  {}

  lemma LowUnits(s: Spelling)
    requires WellSpelled(s)
    ensures SpellingText(s) != []
    ensures forall i :: 0 <= i < |SpellingText(s)| ==> IsAddressUnit(SpellingText(s)[i])
  {
    hide Join;
    match s {
      case Full(groups) =>
        JoinUnits(groups, COLON);
        JoinedGroups(groups);
      case Elided(head, tail) =>
        JoinUnits(head, COLON);
        JoinUnits(tail, COLON);
    }
  }

  /** Distinct addresses have distinct keys. */
  lemma {:induction false} AddressKeyInjective(a: seq<nat>, b: seq<nat>)
    requires |a| == |b|
    requires forall i :: 0 <= i < |a| ==> a[i] < 0x10000
    requires forall i :: 0 <= i < |b| ==> b[i] < 0x10000
    requires AddressKey(a) == AddressKey(b)
    ensures a == b
  {
    hide Hex4;
    if a != [] {
      ValueOfHex4(a[0]);
      ValueOfHex4(b[0]);
      assert AddressKey(a)[..4] == Hex4(a[0]) && AddressKey(b)[..4] == Hex4(b[0]);
      assert AddressKey(a)[4..] == AddressKey(a[1..]) && AddressKey(b)[4..] == AddressKey(b[1..]);
      AddressKeyInjective(a[1..], b[1..]);
      assert a == [a[0]] + a[1..] && b == [b[0]] + b[1..];
    }
  }

  // ---------------------------------------------------------------------
  // Printing a key and reading it back
  // ---------------------------------------------------------------------

  lemma {:induction false} StripZerosPadsBack(g: Text)
    requires |g| == 4 && AllLowerHex(g)
    ensures IsGroup(StripZeros(g)) && PadStart(StripZeros(g), 4) == g
  {
    hide StripZeros, PadStart;
    var r := StripZeros(g);
    var p := PadStart(r, 4);
    assert forall i :: 0 <= i < |r| ==> p[4 - |r|..][i] == r[i] == g[4 - |r|..][i];
    assert forall i :: 0 <= i < 4 ==> p[i] == g[i];
  }

  lemma {:induction false} PrintedGroupsPadBack(key: Text, n: nat)
    requires 4 * n <= |key| && AllLowerHex(key)
    ensures Groups(PrintedGroups(key, n)) && JoinPadded(PrintedGroups(key, n)) == key[..4 * n]
  {
    hide StripZeros, PadStart, IsGroup, AllLowerHex, JoinPadded, PrintedGroups;
    if n == 0 {
      NoGroups();
      assert PrintedGroups(key, n) == [];
    } else {
      var g := GroupAt(key, n - 1);
      PrintedStep(key, n - 1);
      GroupIs(key, n - 1);
      SliceMore(key, 4 * n - 4);
      PrintedGroupsPadBack(key, n - 1);
      SliceIsHex(key, 4 * n - 4);
      StripZerosPadsBack(g);
      JoinPaddedAppend(PrintedGroups(key, n - 1), StripZeros(g));
    }
  }

  lemma SliceMore(key: Text, m: nat)
    requires m + 4 <= |key|
    ensures key[..m + 4] == key[..m] + key[m..m + 4]
  {}

  lemma SliceIsHex(key: Text, m: nat)
    requires m + 4 <= |key| && AllLowerHex(key)
    ensures AllLowerHex(key[m..m + 4])
  {}

  lemma {:induction false} JoinPaddedAppend(gs: seq<Text>, g: Text)
    ensures JoinPadded(gs + [g]) == JoinPadded(gs) + PadStart(g, 4)
  {
    hide PadStart;
    if gs == [] {
      assert gs + [g] == [g];
      assert [g][1..] == [];
    } else {
      assert (gs + [g])[1..] == gs[1..] + [g];
      JoinPaddedAppend(gs[1..], g);
    }
  }

  /** Any normalised IPv6 key is printed as eight plain groups that read back as it. */
  lemma Ipv6ReadsBack(key: Text)
    requires IsKey(key) && !(MAPPED_PREFIX <= key)
    ensures NormalizeIp(Denormalized(key)) == Some(key)
  {
    hide Join, PrintedGroups, JoinPadded, Ipv6Groups, Trim, Lower, NormalizeIpv4, IsGroup, RewriteIpv4Tail, Candidate;
    var gs := PrintedGroups(key, 8);
    PrintedGroupsPadBack(key, 8);
    assert key[..32] == key;
    var s := Full(gs);
    SpellingIsRead(s);
    LowUnits(s);
    CleanTextUnchanged(SpellingText(s));
    Ipv6WithoutDot(SpellingText(s));
  }

  /** The quad of four octets is read as an IPv4 address, blanks and case aside. */
  lemma QuadIsCandidate(q: Text)
    requires NormalizeIpv4(q).Some?
    ensures q != [] && DOT in q && Lower(Trim(q)) == q && Candidate(q) == q && IsQuadShape(q)
    ensures forall i :: 0 <= i < |q| ==> IsDigit(q[i]) || q[i] == DOT
  {
    hide Trim, Lower, Split, OctetHex, OctetValue;
    var p := Split(q, DOT);
    JoinOfSplit(q, DOT);
    QuadUnits(p);
    assert p == [p[0], p[1], p[2], p[3]];
    CleanTextUnchanged(q);
    assert MAPPED_HEAD[0] == COLON;
  }

  lemma QuadUnits(p: seq<Text>)
    requires |p| == 4 && forall i :: 0 <= i < 4 ==> IsOctetNumeral(p[i])
    ensures var q := Join(p, [DOT]);
            && q != [] && DOT in q && IsDigit(q[0])
            && forall i :: 0 <= i < |q| ==> IsDigit(q[i]) || q[i] == DOT
  {
    DigitsAndDots(p);
    var q := Join(p, [DOT]);
    assert q[|p[0]|] == DOT;
  }

  lemma {:induction false} DigitsAndDots(p: seq<Text>)
    requires forall i :: 0 <= i < |p| ==> IsOctetNumeral(p[i])
    ensures forall i :: 0 <= i < |Join(p, [DOT])| ==> IsDigit(Join(p, [DOT])[i]) || Join(p, [DOT])[i] == DOT
  {
    if |p| > 1 { DigitsAndDots(p[1..]); }
  }

  /** Any normalised IPv4 key is printed as a dotted quad that reads back as it. */
  lemma Ipv4ReadsBack(key: Text)
    requires IsKey(key) && MAPPED_PREFIX <= key
    ensures NormalizeIp(Denormalized(key)) == Some(key)
  {
    hide Join, Split, OctetHex, OctetValue, Decimal, IsOctetNumeral, Trim, Lower, Candidate;
    PrefixIsHex();
    var a, b, c, d := key[24..26], key[26..28], key[28..30], key[30..32];
    forall h | h in [a, b, c, d]
      ensures IsOctet(OctetDecimal(h)) && OctetHex(OctetValue(OctetDecimal(h))) == h
    {
      OctetReadsBack(16 * LowerHexValue(h[0]) + LowerHexValue(h[1]));
      OctetHexReadsBack(h);
    }
    assert a in [a, b, c, d] && b in [a, b, c, d] && c in [a, b, c, d] && d in [a, b, c, d];
    QuadIsRead(OctetDecimal(a), OctetDecimal(b), OctetDecimal(c), OctetDecimal(d));
    assert key == MAPPED_PREFIX + (a + b + c + d);
    QuadIsCandidate(Denormalized(key));
  }

  /** Printer and parser undo each other on every key. */
  lemma NormalizeOfDenormalize(key: Text)
    requires IsKey(key)
    ensures NormalizeIp(Denormalized(key)) == Some(key)
  {
    hide Denormalized, NormalizeIp;
    if MAPPED_PREFIX <= key { Ipv4ReadsBack(key); } else { Ipv6ReadsBack(key); }
  }

  // ---------------------------------------------------------------------
  // The four ways to write an IPv4 address
  // ---------------------------------------------------------------------

  /** The mapped address in hex: `::ffff:` and two groups. */
  function MappedHex(key: Text): Text
    requires IsKey(key)
  {
    MAPPED_HEAD + key[24..28] + [COLON] + key[28..]
  }

  lemma MappedHexIsSpelling(key: Text)
    requires IsKey(key)
    ensures var s := Elided([], [Lit("ffff"), key[24..28], key[28..]]);
            WellSpelled(s) && SpellingText(s) == MappedHex(key)
  {
    var f, a, b := Lit("ffff"), key[24..28], key[28..];
    assert [f, a, b][1..] == [a, b] && [a, b][1..] == [b];
    assert Join([a, b], [COLON]) == a + [COLON] + b;
    assert Join([f, a, b], [COLON]) == f + [COLON] + (a + [COLON] + b);
    assert Join([], [COLON]) == [];
    assert MAPPED_HEAD == [COLON, COLON] + f + [COLON];
    assert [] + [COLON, COLON] + (f + [COLON] + (a + [COLON] + b)) == MAPPED_HEAD + a + [COLON] + b;
  }

  lemma {:induction false} JoinPaddedConcat(a: seq<Text>, b: seq<Text>)
    ensures JoinPadded(a + b) == JoinPadded(a) + JoinPadded(b)
  {
    hide PadStart;
    if a == [] {
      assert a + b == b;
    } else {
      assert (a + b)[1..] == a[1..] + b;
      JoinPaddedConcat(a[1..], b);
    }
  }

  lemma {:induction false} ZeroGroups(n: nat)
    ensures JoinPadded(Zeros(n)) == seq(4 * n, _ => ZERO)
  {
    if n > 0 {
      assert Zeros(n)[1..] == Zeros(n - 1);
      ZeroGroups(n - 1);
    }
  }

  lemma FullGroups(f: Text, a: Text, b: Text)
    requires |f| == |a| == |b| == 4
    ensures JoinPadded([f, a, b]) == f + a + b
  {
    hide JoinPadded;
    NoGroups();
    JoinPaddedAppend([], f);
    JoinPaddedAppend([f], a);
    JoinPaddedAppend([f, a], b);
    assert [] + [f] == [f] && [f] + [a] == [f, a] && [f, a] + [b] == [f, a, b];
  }

  lemma MappedGroups(key: Text)
    requires IsKey(key) && MAPPED_PREFIX <= key
    ensures var s := Elided([], [Lit("ffff"), key[24..28], key[28..]]);
            WellSpelled(s) && JoinPadded(SpelledGroups(s)) == key
  {
    MappedHexIsSpelling(key);
    var f, a, b := Lit("ffff"), key[24..28], key[28..];
    MappedParts(key);
    hide JoinPadded, PadStart, Zeros, Lit, IsKey;
    assert [] + Zeros(5) + [f, a, b] == Zeros(5) + [f, a, b];
    JoinPaddedConcat(Zeros(5), [f, a, b]);
    ZeroGroups(5);
    FullGroups(f, a, b);
  }

  lemma MappedParts(key: Text)
    requires IsKey(key) && MAPPED_PREFIX <= key
    ensures |Lit("ffff")| == |key[24..28]| == |key[28..]| == 4
    ensures key == seq(20, _ => ZERO) + (Lit("ffff") + key[24..28] + key[28..])
  {
    PrefixIsHex();
    assert MAPPED_PREFIX == seq(20, _ => ZERO) + Lit("ffff");
    hide Lit;
    assert key == MAPPED_PREFIX + key[24..28] + key[28..];
  }

  lemma NoGroups()
    ensures JoinPadded([]) == []
  {}

  lemma RewritesAt(t: Text, j: nat)
    requires LastColon(t) == j < |t| && IsQuadShape(t[j + 1..]) && NormalizeIpv4(t[j + 1..]).Some?
    requires forall k :: 0 <= k < j ==> !IsLineTerminator(t[k])
    ensures var v4 := NormalizeIpv4(t[j + 1..]).value;
            RewriteIpv4Tail(t) == Some(t[..j + 1] + v4[24..28] + [COLON] + v4[28..])
  {
    hide NormalizeIpv4, LastColon, IsQuadShape, IsLineTerminator;
  }

  lemma LastColonIs(t: Text, j: nat)
    requires j < |t| && t[j] == COLON && forall k :: j < k < |t| ==> t[k] != COLON
    ensures LastColon(t) == j
  {
    hide LastColon;
  }

  /** The mapped text with its dotted tail, parsed as IPv6, is first rewritten
      to the mapped hex text. */
  lemma MappedTailRewritten(q: Text)
    requires NormalizeIpv4(q).Some?
    ensures RewriteIpv4Tail(MAPPED_HEAD + q) == Some(MappedHex(NormalizeIpv4(q).value))
  {
    hide NormalizeIpv4, RewriteIpv4Tail, IsQuadShape, LastColon, Trim, Lower, Candidate;
    var t := MAPPED_HEAD + q;
    QuadIsCandidate(q);
    HeadUnits();
    assert t[7..] == q && t[..7] == MAPPED_HEAD;
    assert forall k :: 6 < k < |t| ==> t[k] == q[k - 7];
    LastColonIs(t, 6);
    RewritesAt(t, 6);
  }

  /** An accepted quad, the quad behind `::ffff:`, the same address in hex, and
      the IPv6 parser called on the mixed form all give one key. */
  lemma MappedFormsAgree(q: Text)
    requires NormalizeIpv4(q).Some?
    ensures var key := NormalizeIpv4(q);
            && NormalizeIp(q) == key
            && NormalizeIp(MAPPED_HEAD + q) == key
            && NormalizeIp(MappedHex(key.value)) == key
            && NormalizeIpv6(MAPPED_HEAD + q) == key
            && NormalizeIpv6(MappedHex(key.value)) == key
  {
    hide NormalizeIpv4, Trim, Lower, RewriteIpv4Tail, Ipv6Groups, JoinPadded, SpellingText, SpelledGroups,
        WellSpelled, MappedHex, IsQuadShape, LowerUnit;
    var key := NormalizeIpv4(q).value;
    var hex := MappedHex(key);
    QuadIsCandidate(q);
    assert MAPPED_PREFIX <= key;
    var s := Elided([], [Lit("ffff"), key[24..28], key[28..]]);
    MappedHexIsSpelling(key);
    MappedGroups(key);
    SpellingIsRead(s);
    LowUnits(s);
    CleanTextUnchanged(hex);
    Ipv6WithoutDot(hex);
    MappedTailRewritten(q);
    var t := MAPPED_HEAD + q;
    HeadUnits();
    CleanTextUnchanged(t);
    assert t[7..] == q;
  }

  lemma HeadUnits()
    ensures |MAPPED_HEAD| == 7 && MAPPED_HEAD[6] == COLON
    ensures forall i :: 0 <= i < 7 ==> IsAddressUnit(MAPPED_HEAD[i]) && !IsLineTerminator(MAPPED_HEAD[i])
  {}
}
