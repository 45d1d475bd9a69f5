/**
 String order on normalised keys is the numeric order of the 128-bit addresses
 (`src/lib/ipAddress.ts`).
 */
module IpOrder {
  import opened Texts
  import opened IpAddress

  /** `a < b` on strings: by the first unit that differs, then by length. */
  predicate LexLess(a: Text, b: Text) {
    b != [] && (a == [] || a[0] < b[0] || (a[0] == b[0] && LexLess(a[1..], b[1..])))
  }

  /** `candidate >= fromIp && candidate <= toIp` */
  predicate IpInRange(candidate: Text, fromIp: Text, toIp: Text) {
    !LexLess(candidate, fromIp) && !LexLess(toIp, candidate)
  }

  /** The last unit decides only between texts that agree before it. */
  lemma {:induction false} LexLessAtEnd(a: Text, x: Unit, b: Text, y: Unit)
    requires |a| == |b|
    ensures LexLess(a + [x], b + [y]) <==> LexLess(a, b) || (a == b && x < y)
  {
    if a == [] {
      assert a + [x] == [x] && b + [y] == [y];
    } else {
      assert (a + [x])[1..] == a[1..] + [x] && (b + [y])[1..] == b[1..] + [y];
      LexLessAtEnd(a[1..], x, b[1..], y);
      assert a == b <==> a[0] == b[0] && a[1..] == b[1..];
    }
  }

  /** On equal lengths, string order and equality are those of the numbers. */
  lemma {:induction false} OrderIsNumeric(a: Text, b: Text)
    requires |a| == |b| && AllLowerHex(a) && AllLowerHex(b)
    ensures LexLess(a, b) <==> Value(a) < Value(b)
    ensures a == b <==> Value(a) == Value(b)
  {
    if a != [] {
      var n := |a| - 1;
      var a', b' := a[..n], b[..n];
      OrderIsNumeric(a', b');
      LexLessAtEnd(a', a[n], b', b[n]);
      assert a == a' + [a[n]] && b == b' + [b[n]];
      assert a[n] < b[n] <==> LowerHexValue(a[n]) < LowerHexValue(b[n]);
    }
  }

  /** A normalised address is in the range exactly when its number is. */
  lemma RangeIsNumeric(candidate: Text, fromIp: Text, toIp: Text)
    requires IsKey(candidate) && IsKey(fromIp) && IsKey(toIp)
    ensures IpInRange(candidate, fromIp, toIp) <==> Value(fromIp) <= Value(candidate) <= Value(toIp)
  {
    OrderIsNumeric(candidate, fromIp);
    OrderIsNumeric(toIp, candidate);
  }

  lemma {:induction false} SharedPrefix(p: Text, a: Text, b: Text)
    ensures LexLess(p + a, p + b) <==> LexLess(a, b)
  {
    if p == [] {
      assert p + a == a && p + b == b;
    } else {
      assert (p + a)[1..] == p[1..] + a && (p + b)[1..] == p[1..] + b;
      SharedPrefix(p[1..], a, b);
    }
  }

  /** What lies between two texts with a common prefix shares it. */
  lemma {:induction false} BetweenSharesPrefix(p: Text, a: Text, b: Text, c: Text)
    requires !LexLess(c, p + a) && !LexLess(p + b, c)
    ensures p <= c
  {
    if p != [] {
      assert (p + a)[1..] == p[1..] + a && (p + b)[1..] == p[1..] + b;
      assert c != [] && c[0] == p[0];
      BetweenSharesPrefix(p[1..], a, b, c[1..]);
    }
  }

  /** A range with IPv4 bounds holds exactly the IPv4 addresses numerically
      between them: no sign boundary, and no other IPv6 address. */
  lemma Ipv4Range(candidate: Text, fromIp: Text, toIp: Text)
    requires IsKey(candidate) && IsKey(fromIp) && IsKey(toIp)
    requires MAPPED_PREFIX <= fromIp && MAPPED_PREFIX <= toIp
    ensures IpInRange(candidate, fromIp, toIp) <==>
              && MAPPED_PREFIX <= candidate
              && Value(fromIp[24..]) <= Value(candidate[24..]) <= Value(toIp[24..])
  {
    hide LexLess, Value;
    PrefixIsHex();
    var f, t := fromIp[24..], toIp[24..];
    assert fromIp == MAPPED_PREFIX + f && toIp == MAPPED_PREFIX + t;
    if IpInRange(candidate, fromIp, toIp) {
      BetweenSharesPrefix(MAPPED_PREFIX, f, t, candidate);
    }
    if MAPPED_PREFIX <= candidate {
      var c := candidate[24..];
      assert candidate == MAPPED_PREFIX + c;
      SharedPrefix(MAPPED_PREFIX, c, f);
      SharedPrefix(MAPPED_PREFIX, t, c);
      OrderIsNumeric(c, f);
      OrderIsNumeric(t, c);
    }
  }

  /** The 32-bit number of four octets. */
  function Ipv4Number(o0: nat, o1: nat, o2: nat, o3: nat): nat {
    ((o0 * 256 + o1) * 256 + o2) * 256 + o3
  }

  lemma ValueOfOctet(h: Text, o: nat)
    requires AllLowerHex(h) && o < 256
    ensures AllLowerHex(h + OctetHex(o))
    ensures Value(h + OctetHex(o)) == 256 * Value(h) + o
  {
    var t := h + OctetHex(o);
    assert t[..|t| - 1] == h + [LowerHexDigit(o / 16)];
    assert t[..|t| - 1][..|h|] == h;
  }

  /** The low half of an IPv4 key is the 32-bit number of its octets. */
  lemma Ipv4KeyNumber(q: Text)
    requires NormalizeIpv4(q).Some?
    ensures var p := Split(q, DOT);
            && |p| == 4 && IsOctet(p[0]) && IsOctet(p[1]) && IsOctet(p[2]) && IsOctet(p[3])
            && Value(NormalizeIpv4(q).value[24..])
               == Ipv4Number(OctetValue(p[0]), OctetValue(p[1]), OctetValue(p[2]), OctetValue(p[3]))
  {
    hide Value, OctetHex, Split, OctetValue, IsOctetNumeral;
    var p := Split(q, DOT);
    PrefixIsHex();
    var t0 := OctetHex(OctetValue(p[0]));
    var t1 := t0 + OctetHex(OctetValue(p[1]));
    var t2 := t1 + OctetHex(OctetValue(p[2]));
    var t3 := t2 + OctetHex(OctetValue(p[3]));
    assert NormalizeIpv4(q).value[24..] == t3;
    assert [] + t0 == t0;
    assert Value([]) == 0 by { ValueOfNothing(); }
    ValueOfOctet([], OctetValue(p[0]));
    ValueOfOctet(t0, OctetValue(p[1]));
    ValueOfOctet(t1, OctetValue(p[2]));
    ValueOfOctet(t2, OctetValue(p[3]));
  }

  lemma ValueOfNothing()
    ensures Value([]) == 0
  {}
}
