/**
 IP addresses as fixed-width keys: the parser and the printer
 (`src/lib/ipAddress.ts`). The text forms are those of section 2.2 and section
 2.5.5.2 of RFC 4291.
 */
module IpAddress {
  import opened Texts

  const DOT: Unit := 0x2E
  const COLON: Unit := 0x3A
  const ZERO: Unit := 0x30

  const MAPPED_PREFIX: Text := Lit("00000000000000000000ffff")
  const MAPPED_HEAD: Text := Lit("::ffff:")

  // ---------------------------------------------------------------------
  // Hexadecimal
  // ---------------------------------------------------------------------

  predicate IsLowerHex(u: Unit) { 0x30 <= u <= 0x39 || 0x61 <= u <= 0x66 }

  predicate AllLowerHex(t: Text) { forall i :: 0 <= i < |t| ==> IsLowerHex(t[i]) }

  /** A normalised address: 128 bits as 32 lower-case hex digits. */
  predicate IsKey(t: Text) { |t| == 32 && AllLowerHex(t) }

  function LowerHexDigit(v: nat): (u: Unit)
    requires v < 16
    ensures IsLowerHex(u) && LowerHexValue(u) == v
  {
    if v < 10 then 0x30 + v else 0x57 + v
  }

  function LowerHexValue(u: Unit): (v: nat)
    requires IsLowerHex(u)
    ensures v < 16
  {
    if u <= 0x39 then u - 0x30 else u - 0x57
  }

  /** The number a run of hex digits stands for. */
  function Value(t: Text): nat
    requires AllLowerHex(t)
  {
    if t == [] then 0 else 16 * Value(t[..|t| - 1]) + LowerHexValue(t[|t| - 1])
  }

  /** `t.padStart(width, '0')` */
  function PadStart(t: Text, width: nat): (r: Text)
    ensures |r| == if |t| < width then width else |t|
    ensures r[|r| - |t|..] == t
    ensures forall i :: 0 <= i < |r| - |t| ==> r[i] == ZERO
  {
    if |t| >= width then t else seq(width - |t|, _ => ZERO) + t
  }

  /** Two hex digits for one octet: `o.toString(16).padStart(2, '0')`. */
  function OctetHex(o: nat): (t: Text)
    requires o < 256
    ensures |t| == 2 && AllLowerHex(t)
  {
    [LowerHexDigit(o / 16), LowerHexDigit(o % 16)]
  }

  // ---------------------------------------------------------------------
  // IPv4
  // ---------------------------------------------------------------------

  /** `/^(0|[1-9]\d{0,2})$/` */
  predicate IsOctetNumeral(p: Text) {
    && 1 <= |p| <= 3
    && (forall i :: 0 <= i < |p| ==> IsDigit(p[i]))
    && (p[0] == ZERO ==> |p| == 1)
  }

  /** `Number(p)` for up to three digits. */
  function OctetValue(p: Text): nat
    requires IsOctetNumeral(p)
  {
    if |p| == 1 then p[0] - 0x30
    else if |p| == 2 then 10 * (p[0] - 0x30) + (p[1] - 0x30)
    else 100 * (p[0] - 0x30) + 10 * (p[1] - 0x30) + (p[2] - 0x30)
  }

  predicate IsOctet(p: Text) { IsOctetNumeral(p) && OctetValue(p) <= 255 }

  function NormalizeIpv4(value: Text): (r: Option<Text>)
    ensures r.Some? ==> IsKey(r.value) && MAPPED_PREFIX <= r.value
  {
    var parts := Split(value, DOT);
    if |parts| != 4 || exists i :: 0 <= i < 4 && !IsOctet(parts[i]) then None
    else
      var v4 := OctetHex(OctetValue(parts[0])) + OctetHex(OctetValue(parts[1]))
              + OctetHex(OctetValue(parts[2])) + OctetHex(OctetValue(parts[3]));
      PrefixIsHex();
      Some(MAPPED_PREFIX + v4)
  }

  lemma PrefixIsHex()
    ensures |MAPPED_PREFIX| == 24 && AllLowerHex(MAPPED_PREFIX)
  {}

  // ---------------------------------------------------------------------
  // IPv6
  // ---------------------------------------------------------------------

  /** `\d{1,3}(?:\.\d{1,3}){3}` over the whole text. */
  predicate IsQuadShape(t: Text) {
    var parts := Split(t, DOT);
    |parts| == 4 && forall i :: 0 <= i < 4 ==> 1 <= |parts[i]| <= 3 && forall k :: 0 <= k < |parts[i]| ==>
        IsDigit(parts[i][k])
  }

  /** Where the last colon is; -1 when there is none. */
  function LastColon(t: Text): (i: int)
    ensures -1 <= i < |t|
    ensures i >= 0 ==> t[i] == COLON
    ensures forall k :: i < k < |t| ==> t[k] != COLON
  {
    if t == [] then -1
    else if t[|t| - 1] == COLON then |t| - 1
    else LastColon(t[..|t| - 1])
  }

  /** The text with a dotted tail spelled as two hex groups; None for a bad quad. */
  function RewriteIpv4Tail(value: Text): Option<Text> {
    var j := LastColon(value);
    if j < 0 || !IsQuadShape(value[j + 1..]) || exists k :: 0 <= k < j && IsLineTerminator(value[k]) then Some(value)
    else
      match NormalizeIpv4(value[j + 1..])
      case None => None
      case Some(v4) => Some(value[..j + 1] + v4[24..28] + [COLON] + v4[28..])
  }

  predicate IsGroup(g: Text) { 1 <= |g| <= 4 && AllLowerHex(g) }

  /** The groups between the colons, None unless each is one to four hex digits. */
  function HexGroups(part: Text): (r: Option<seq<Text>>)
    ensures r.Some? ==> forall i :: 0 <= i < |r.value| ==> IsGroup(r.value[i])
  {
    if part == [] then Some([])
    else
      var groups := Split(part, COLON);
      if exists i :: 0 <= i < |groups| && !IsGroup(groups[i]) then None else Some(groups)
  }

  function Zeros(n: nat): (gs: seq<Text>)
    ensures |gs| == n && forall i :: 0 <= i < n ==> gs[i] == [ZERO]
  {
    seq(n, _ => [ZERO])
  }

  /** The groups on both sides of `::`, zero groups between them to make eight. */
  function ExpandElision(head: Text, tail: Text): (r: Option<seq<Text>>)
    ensures r.Some? ==> |r.value| == 8 && forall i :: 0 <= i < 8 ==> IsGroup(r.value[i])
  {
    match (HexGroups(head), HexGroups(tail))
    case (Some(a), Some(b)) =>
      var missing := 8 - |a| - |b|;
      if missing < 1 then None else Some(a + Zeros(missing) + b)
    case _ => None
  }

  /** The first index at which two colons stand together, or the length. */
  function ElisionAt(t: Text): (i: nat)
    ensures i <= |t|
    ensures i < |t| ==> i + 1 < |t| && t[i] == COLON && t[i + 1] == COLON
    ensures forall k :: 0 <= k < i && k + 1 < |t| ==> !(t[k] == COLON && t[k + 1] == COLON)
  {
    if |t| < 2 then |t|
    else if t[0] == COLON && t[1] == COLON then 0
    else
      var i := ElisionAt(t[1..]);
      1 + i
  }

  /** The eight padded groups as one key. */
  function JoinPadded(groups: seq<Text>): Text {
    if groups == [] then [] else PadStart(groups[0], 4) + JoinPadded(groups[1..])
  }

  /** The eight groups of a hex spelling. `text.split('::')` has two halves
      exactly when there is one elision and none in what follows it. */
  function Ipv6Groups(text: Text): (r: Option<seq<Text>>)
    ensures r.Some? ==> |r.value| == 8 && forall i :: 0 <= i < 8 ==> IsGroup(r.value[i])
  {
    var e := ElisionAt(text);
    if e < |text| then
      var tail := text[e + 2..];
      if ElisionAt(tail) < |tail| then None else ExpandElision(text[..e], tail)
    else
      match HexGroups(text)
      case Some(groups) => if |groups| == 8 then Some(groups) else None
      case None => None
  }

  lemma {:induction false} JoinPaddedIsHex(groups: seq<Text>)
    requires forall i :: 0 <= i < |groups| ==> IsGroup(groups[i])
    ensures |JoinPadded(groups)| == 4 * |groups| && AllLowerHex(JoinPadded(groups))
  {
    if groups != [] {
      JoinPaddedIsHex(groups[1..]);
      var p := PadStart(groups[0], 4);
      assert p == p[..4 - |groups[0]|] + groups[0];
    }
  }

  function NormalizeIpv6(value: Text): (r: Option<Text>)
    ensures r.Some? ==> IsKey(r.value)
  {
    match RewriteIpv4Tail(value)
    case None => None
    case Some(text) =>
      match Ipv6Groups(text)
      case None => None
      case Some(groups) => JoinPaddedIsHex(groups); Some(JoinPadded(groups))
  }

  // ---------------------------------------------------------------------
  // Either family
  // ---------------------------------------------------------------------

  /** The address text with an IPv4-mapped head taken off. */
  function Candidate(value: Text): Text {
    if MAPPED_HEAD <= value && IsQuadShape(value[7..]) then value[7..] else value
  }

  /** The key of an address; None for any other text. */
  function NormalizeIp(input: Text): (r: Option<Text>)
    ensures r.Some? ==> IsKey(r.value)
  {
    var value := Lower(Trim(input));
    if value == [] then None else
      var candidate := Candidate(value);
      if DOT in candidate then NormalizeIpv4(candidate)
      else if COLON in candidate then NormalizeIpv6(candidate)
      else None
  }

  // ---------------------------------------------------------------------
  // Printing
  // ---------------------------------------------------------------------

  /** `g.replace(/^0+(?=.)/, '')` */
  function StripZeros(g: Text): (r: Text)
    ensures |r| <= |g| && r == g[|g| - |r|..]
    ensures g != [] ==> r != []
    ensures forall i :: 0 <= i < |g| - |r| ==> g[i] == ZERO
  {
    if |g| > 1 && g[0] == ZERO then StripZeros(g[1..]) else g
  }

  /** The octet written at `i` in hex, in decimal. */
  function OctetDecimal(h: Text): Text
    requires |h| == 2 && AllLowerHex(h)
  {
    Decimal(16 * LowerHexValue(h[0]) + LowerHexValue(h[1]))
  }

  /** The `n`-th group of four digits. */
  function GroupAt(key: Text, n: nat): (g: Text)
    requires 4 * n + 4 <= |key|
    ensures |g| == 4
  {
    key[4 * n..4 * n + 4]
  }

  /** The presentation groups of the first `4 * n` digits of a key. */
  function PrintedGroups(key: Text, n: nat): (gs: seq<Text>)
    requires 4 * n <= |key|
    ensures |gs| == n
  {
    if n == 0 then [] else PrintedGroups(key, n - 1) + [StripZeros(GroupAt(key, n - 1))]
  }

  lemma DenormalizedIs(key: Text)
    requires IsKey(key)
    ensures |key| == 32
    ensures Denormalized(key) == if MAPPED_PREFIX <= key then DottedQuad(key) else Join(PrintedGroups(key, 8), [COLON])
  {
    hide DottedQuad, PrintedGroups, Join, MAPPED_PREFIX;
  }

  lemma PrintedNone(key: Text)
    ensures PrintedGroups(key, 0) == []
  {}

  lemma PrintedStep(key: Text, n: nat)
    requires 4 * n + 4 <= |key|
    ensures PrintedGroups(key, n + 1) == PrintedGroups(key, n) + [StripZeros(GroupAt(key, n))]
  {
    hide StripZeros, GroupAt;
  }

  lemma GroupIs(key: Text, n: nat)
    requires 4 * n + 4 <= |key|
    ensures GroupAt(key, n) == key[4 * n..4 * n + 4]
  {}

  /** The last four octets of a key in decimal. */
  function DottedQuad(key: Text): Text
    requires IsKey(key)
  {
    Join([OctetDecimal(key[24..26]), OctetDecimal(key[26..28]),
          OctetDecimal(key[28..30]), OctetDecimal(key[30..32])], [DOT])
  }

  function Denormalized(key: Text): Text
    requires IsKey(key)
  {
    if MAPPED_PREFIX <= key then DottedQuad(key) else Join(PrintedGroups(key, 8), [COLON])
  }

  /** The loop that strips the groups of four digits. */
  method PrintGroups(hex: Text) returns (groups: seq<Text>)
    requires |hex| == 32
    ensures groups == PrintedGroups(hex, 8)
  {
    PrintedNone(hex);
    hide *;
    groups := [];
    var i := 0;
    ghost var n := 0;
    while i < 32
      invariant 0 <= i == 4 * n <= 32
      invariant groups == PrintedGroups(hex, n)
    {
      PrintedStep(hex, n);
      GroupIs(hex, n);
      groups := groups + [StripZeros(hex[i..i + 4])];
      i, n := i + 4, n + 1;
    }
  }

  /** Presentation form, as the program builds it. */
  method DenormalizeIp(hex: Text) returns (r: Text)
    requires IsKey(hex)
    ensures r == Denormalized(hex)
  {
    DenormalizedIs(hex);
    hide *;
    if MAPPED_PREFIX <= hex { return DottedQuad(hex); }
    var groups := PrintGroups(hex);
    r := Join(groups, [COLON]);
  }
}
