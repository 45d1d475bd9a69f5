/**
 Exactly which texts are accepted as addresses (`src/lib/ipAddress.ts`).
 */
module IpAccepts {
  import opened Texts
  import opened IpAddress
  import opened IpRoundTrips

  // ---------------------------------------------------------------------
  // Dotted quads
  // ---------------------------------------------------------------------

  /** The quad of four octets as it is printed. */
  function QuadText(o0: nat, o1: nat, o2: nat, o3: nat): Text {
    Join([Decimal(o0), Decimal(o1), Decimal(o2), Decimal(o3)], [0x2E])
  }

  /** `t` is the printed quad of these octets, and `key` their key. */
  ghost predicate IsQuad(t: Text, key: Text, o0: nat, o1: nat, o2: nat, o3: nat) {
    && o0 < 256 && o1 < 256 && o2 < 256 && o3 < 256
    && t == QuadText(o0, o1, o2, o3)
    && key == MAPPED_PREFIX + (OctetHex(o0) + OctetHex(o1) + OctetHex(o2) + OctetHex(o3))
  }

  ghost predicate QuadHasKey(t: Text, key: Text) {
    exists o0: nat, o1: nat, o2: nat, o3: nat :: IsQuad(t, key, o0, o1, o2, o3)
  }

  /** The IPv4 parser accepts exactly the printed quads. */
  lemma Ipv4AcceptsExactly(t: Text, key: Text)
    ensures NormalizeIpv4(t) == Some(key) <==> QuadHasKey(t, key)
  {
    if o0: nat, o1: nat, o2: nat, o3: nat :| IsQuad(t, key, o0, o1, o2, o3) {
      QuadIsAccepted(t, key, o0, o1, o2, o3);
    }
    if NormalizeIpv4(t) == Some(key) { AcceptedIsQuad(t, key); }
  }

  lemma QuadIsAccepted(t: Text, key: Text, o0: nat, o1: nat, o2: nat, o3: nat)
    requires IsQuad(t, key, o0, o1, o2, o3)
    ensures NormalizeIpv4(t) == Some(key)
  {
    OctetReadsBack(o0);
    OctetReadsBack(o1);
    OctetReadsBack(o2);
    OctetReadsBack(o3);
    hide NormalizeIpv4, Join, Decimal, OctetHex, OctetValue, IsOctet, MAPPED_PREFIX;
    QuadIsRead(Decimal(o0), Decimal(o1), Decimal(o2), Decimal(o3));
  }

  lemma AcceptedIsQuad(t: Text, key: Text)
    requires NormalizeIpv4(t) == Some(key)
    ensures QuadHasKey(t, key)
  {
    var p := Split(t, DOT);
    AcceptedOctets(t, key);
    hide NormalizeIpv4, Join, Split, Decimal, OctetHex, OctetValue, IsOctet, MAPPED_PREFIX;
    OctetOf(p[0]);
    OctetOf(p[1]);
    OctetOf(p[2]);
    OctetOf(p[3]);
    JoinOfSplit(t, DOT);
    assert p == [p[0], p[1], p[2], p[3]];
    assert IsQuad(t, key, OctetValue(p[0]), OctetValue(p[1]), OctetValue(p[2]), OctetValue(p[3]));
  }

  lemma AcceptedOctets(t: Text, key: Text)
    requires NormalizeIpv4(t) == Some(key)
    ensures var p := Split(t, DOT);
            && |p| == 4 && IsOctet(p[0]) && IsOctet(p[1]) && IsOctet(p[2]) && IsOctet(p[3])
            && key == MAPPED_PREFIX + (OctetHex(OctetValue(p[0])) + OctetHex(OctetValue(p[1]))
                                       + OctetHex(OctetValue(p[2])) + OctetHex(OctetValue(p[3])))
  {
    hide Split, IsOctet, OctetValue, OctetHex, MAPPED_PREFIX;
  }

  lemma OctetOf(p: Text)
    requires IsOctet(p)
    ensures OctetValue(p) < 256 && Decimal(OctetValue(p)) == p
  {
    OctetPrintsBack(p);
    hide OctetValue, Decimal, IsOctetNumeral;
  }

  // ---------------------------------------------------------------------
  // Either family
  // ---------------------------------------------------------------------

  /** A quad, or the same behind the mapped head. */
  ghost predicate DottedHasKey(t: Text, key: Text) {
    QuadHasKey(t, key) || (MAPPED_HEAD <= t && QuadHasKey(t[|MAPPED_HEAD|..], key))
  }

  lemma QuadHasDot(t: Text, key: Text)
    requires QuadHasKey(t, key)
    ensures DOT in t && IsQuadShape(t) && t != [] && t[0] != COLON && Candidate(t) == t
  {
    Ipv4AcceptsExactly(t, key);
    QuadIsCandidate(t);
    QuadFront(t, key);
  }

  lemma QuadFront(t: Text, key: Text)
    requires QuadHasKey(t, key)
    ensures t != [] && t[0] != COLON
  {
    hide Decimal;
    var o0: nat, o1: nat, o2: nat, o3: nat :| IsQuad(t, key, o0, o1, o2, o3);
    var d := Decimal(o0);
    JoinPrepend(d, [Decimal(o1), Decimal(o2), Decimal(o3)], [DOT]);
    assert [d] + [Decimal(o1), Decimal(o2), Decimal(o3)] == [d, Decimal(o1), Decimal(o2), Decimal(o3)];
    hide Join;
    assert t[0] == d[0] && d[0] in d;
  }

  /** With a dot, an input is accepted exactly when it is, blanks and case aside, a
      quad of four printed octets, or that behind `::ffff:`. */
  lemma AcceptsExactlyQuads(input: Text, key: Text)
    requires DOT in Lower(Trim(input))
    ensures NormalizeIp(input) == Some(key) <==> DottedHasKey(Lower(Trim(input)), key)
  {
    HeadUnits();
    hide Lower, Trim, NormalizeIpv4, NormalizeIpv6, QuadHasKey, IsQuadShape, MAPPED_HEAD;
    var t := Lower(Trim(input));
    Ipv4AcceptsExactly(t, key);
    if QuadHasKey(t, key) { QuadHasDot(t, key); }
    if MAPPED_HEAD <= t {
      var rest := t[|MAPPED_HEAD|..];
      Ipv4AcceptsExactly(rest, key);
      DotBehindHead(t);
      assert t[0] == COLON by { HeadIsColon(); }
      if QuadHasKey(rest, key) { QuadHasDot(rest, key); }
    }
  }

  lemma HeadIsColon()
    ensures |MAPPED_HEAD| == 7 && MAPPED_HEAD[0] == COLON && DOT !in MAPPED_HEAD
  {
    assert MAPPED_HEAD[0] == COLON;
  }

  lemma DotBehindHead(t: Text)
    requires MAPPED_HEAD <= t && DOT in t
    ensures DOT in t[|MAPPED_HEAD|..]
  {
    HeadIsColon();
    hide MAPPED_HEAD;
    assert t == MAPPED_HEAD + t[|MAPPED_HEAD|..];
  }

  ghost predicate IsSpelled(t: Text, key: Text, s: Spelling) {
    WellSpelled(s) && t == SpellingText(s) && key == JoinPadded(SpelledGroups(s))
  }

  ghost predicate SpelledHasKey(t: Text, key: Text) { exists s :: IsSpelled(t, key, s) }

  /** What `normalizeIp` accepts, and with which key: blanks and case aside, the
      spellings of eight hex groups, the printed quads, and the quads behind
      `::ffff:`, and nothing else. */
  lemma AcceptsExactly(input: Text, key: Text)
    ensures var t := Lower(Trim(input));
            NormalizeIp(input) == Some(key) <==> SpelledHasKey(t, key) || DottedHasKey(t, key)
  {
    hide Lower, Trim, NormalizeIp, QuadHasKey, SpelledHasKey, MAPPED_HEAD;
    var t := Lower(Trim(input));
    if DOT in t {
      AcceptsExactlyQuads(input, key);
      if SpelledHasKey(t, key) { SpelledHasNoDot(t, key); }
    } else {
      AcceptsExactlySpellings(input, key);
      SpelledMeans(t, key);
      if DottedHasKey(t, key) { DottedHasDot(t, key); }
    }
  }

  lemma SpelledMeans(t: Text, key: Text)
    ensures SpelledHasKey(t, key) <==>
              exists s :: WellSpelled(s) && t == SpellingText(s) && key == JoinPadded(SpelledGroups(s))
  {
    hide WellSpelled, SpellingText, JoinPadded, SpelledGroups;
    if s :| WellSpelled(s) && t == SpellingText(s) && key == JoinPadded(SpelledGroups(s)) {
      assert IsSpelled(t, key, s);
    }
  }

  lemma SpelledHasNoDot(t: Text, key: Text)
    requires SpelledHasKey(t, key)
    ensures DOT !in t
  {
    hide WellSpelled, SpellingText, JoinPadded, SpelledGroups;
    var s :| IsSpelled(t, key, s);
    SpellingIsRead(s);
  }

  lemma DottedHasDot(t: Text, key: Text)
    requires DottedHasKey(t, key)
    ensures DOT in t
  {
    hide QuadHasKey, MAPPED_HEAD;
    if QuadHasKey(t, key) {
      QuadHasDot(t, key);
    } else {
      var rest := t[|MAPPED_HEAD|..];
      QuadHasDot(rest, key);
      assert t == MAPPED_HEAD + rest;
    }
  }
}
