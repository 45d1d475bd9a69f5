/**
 Ways of writing a sheet with CSS escapes, and the proof that a decode pass
 recovers exactly what was written (`src/lib/cssValidate.ts`).
 */
module CssSpellings {
  import opened Texts
  import opened CssEscapes

  /** One token of a sheet: a unit as itself, a backslash that escapes nothing,
      a backslash before the unit itself, or a hex escape with the blank it may
      swallow. */
  datatype Piece =
    | Plain(u: Unit)
    | Stray
    | Quoted(u: Unit)
    | Hex(digits: Text, blank: Option<Unit>)

  function PieceSource(p: Piece): (t: Text)
    ensures t != []
  {
    match p
    case Plain(u) => [u]
    case Stray => [BACKSLASH]
    case Quoted(u) => [BACKSLASH, u]
    case Hex(digits, None) => [BACKSLASH] + digits
    case Hex(digits, Some(b)) => [BACKSLASH] + digits + [b]
  }

  /** Space, tab, newline, form feed, carriage return. */
  ghost predicate IsBlank(u: Unit) { u == 0x20 || u == 0x09 || IsNewline(u) }

  /** Newline, form feed, carriage return. */
  ghost predicate IsNewline(u: Unit) { u == 0x0A || u == 0x0C || u == 0x0D }

  /** May `p` be written in front of `rest`, with no unit read differently? */
  ghost predicate Fits(p: Piece, rest: Text) {
    match p
    case Plain(u) => u != BACKSLASH
    case Stray => rest == [] || IsNewline(rest[0])
    case Quoted(u) => !IsHexDigit(u) && !IsNewline(u)
    case Hex(digits, blank) =>
      && 1 <= |digits| <= 6
      && (forall k :: 0 <= k < |digits| ==> IsHexDigit(digits[k]))
      && match blank
         case Some(b) => IsBlank(b)
         case None => rest == [] || (!IsBlank(rest[0]) && (|digits| == 6 || !IsHexDigit(rest[0])))
  }

  function PieceMeaning(p: Piece): (t: Text)
    requires p.Hex? ==> forall k :: 0 <= k < |p.digits| ==> IsHexDigit(p.digits[k])
    ensures t != []
  {
    match p
    case Plain(u) => [u]
    case Stray => [BACKSLASH]
    case Quoted(u) => [u]
    case Hex(digits, _) => CodePointText(HexValue(digits))
  }

  /** The sheet as it is written. */
  function Source(ps: seq<Piece>): Text {
    if ps == [] then [] else PieceSource(ps[0]) + Source(ps[1..])
  }

  ghost predicate WellFormed(ps: seq<Piece>) {
    ps == [] || (Fits(ps[0], Source(ps[1..])) && WellFormed(ps[1..]))
  }

  /** The sheet that is meant. */
  ghost function Meaning(ps: seq<Piece>): Text
    requires WellFormed(ps)
  {
    if ps == [] then [] else PieceMeaning(ps[0]) + Meaning(ps[1..])
  }

  /** For every unit that is meant, where its token starts in the written sheet. */
  ghost function Starts(ps: seq<Piece>, at: nat): seq<nat>
    requires WellFormed(ps)
  {
    if ps == [] then []
    else seq(|PieceMeaning(ps[0])|, _ => at) + Starts(ps[1..], at + |PieceSource(ps[0])|)
  }

  /** A spelling taken apart at its first token. */
  lemma SpellingStep(ps: seq<Piece>, at: nat)
    requires ps != [] && WellFormed(ps)
    ensures Fits(ps[0], Source(ps[1..])) && WellFormed(ps[1..])
    ensures ps[0].Hex? ==> forall k :: 0 <= k < |ps[0].digits| ==> IsHexDigit(ps[0].digits[k])
    ensures Source(ps) == PieceSource(ps[0]) + Source(ps[1..])
    ensures Meaning(ps) == PieceMeaning(ps[0]) + Meaning(ps[1..])
    ensures Starts(ps, at) == seq(|PieceMeaning(ps[0])|, _ => at) + Starts(ps[1..], at + |PieceSource(ps[0])|)
  {
    hide PieceSource, PieceMeaning;
  }

  function Range(at: nat, length: nat): (r: seq<nat>)
    ensures |r| == length
    ensures forall i :: 0 <= i < length ==> r[i] == at + i
  {
    seq(length, i => at + i)
  }

  lemma HexRunIs(t: Text, n: nat)
    requires n <= 6 && n <= |t|
    requires forall k :: 0 <= k < n ==> IsHexDigit(t[k])
    requires n == 6 || n == |t| || !IsHexDigit(t[n])
    ensures HexRun(t, 6) == n
  {
    hide HexRun;
  }

  /** A pass reads the front token as what it means, and nothing more. */
  lemma PieceIsRead(p: Piece, rest: Text)
    requires Fits(p, rest)
    ensures var t := PieceSource(p) + rest;
            if p.Plain? || p.Stray? then EscapeLength(t) == 0
            else EscapeLength(t) == |PieceSource(p)| && Replacement(t) == PieceMeaning(p)
  {
    hide HexRun, HexValue, CodePointText;
    var t := PieceSource(p) + rest;
    match p {
      case Plain(u) =>
      case Stray => if rest != [] { HexRunIs(t[1..], 0); }
      case Quoted(u) => HexRunIs(t[1..], 0);
      case Hex(digits, blank) => HexPieceIsRead(digits, blank, rest);
    }
  }

  lemma HexPieceIsRead(digits: Text, blank: Option<Unit>, rest: Text)
    requires Fits(Hex(digits, blank), rest)
    ensures var t := PieceSource(Hex(digits, blank)) + rest;
            EscapeLength(t) == |PieceSource(Hex(digits, blank))| && Replacement(t) == PieceMeaning(Hex(digits, blank))
  {
    hide HexRun, HexValue, CodePointText;
    var t := PieceSource(Hex(digits, blank)) + rest;
    assert t[1..1 + |digits|] == digits;
    assert forall k :: 0 <= k < |digits| ==> t[1..][k] == digits[k];
    HexRunIs(t[1..], |digits|);
  }

  /** One decode pass over any spelling returns what is meant, each unit mapped
      to the first source unit of its token. */
  lemma {:induction false} DecodeRecoversMeaning(ps: seq<Piece>, at: nat)
    requires WellFormed(ps)
    ensures DecodedText(Source(ps)) == Meaning(ps)
    ensures DecodedMap(Source(ps), Range(at, |Source(ps)|)) == Starts(ps, at)
    decreases |ps|
  {
    hide *;
    if ps == [] {
      NothingSpelled(at);
      return;
    }
    var p, rest := ps[0], Source(ps[1..]);
    SpellingStep(ps, at);
    var w := |PieceSource(p)|;
    DecodeRecoversMeaning(ps[1..], at + w);
    TokenDecodes(p, rest, Range(at, w + |rest|));
    assert Range(at, w + |rest|)[w..] == Range(at + w, |rest|);
  }

  lemma NothingSpelled(at: nat)
    ensures DecodedText(Source([])) == Meaning([])
    ensures DecodedMap(Source([]), Range(at, |Source([])|)) == Starts([], at)
  {}

  /** A pass over a token and what follows it. */
  lemma TokenDecodes(p: Piece, rest: Text, m: seq<nat>)
    requires Fits(p, rest) && |m| == |PieceSource(p)| + |rest|
    ensures var t, w := PieceSource(p) + rest, |PieceSource(p)|;
            && DecodedText(t) == PieceMeaning(p) + DecodedText(rest)
            && DecodedMap(t, m) == seq(|PieceMeaning(p)|, _ => m[0]) + DecodedMap(rest, m[w..])
  {
    PieceIsHex(p, rest);
    hide *;
    var t, w := PieceSource(p) + rest, |PieceSource(p)|;
    PieceIsRead(p, rest);
    assert t[w..] == rest && t[..w] == PieceSource(p);
    DecodeFront(t, m);
    if p.Plain? || p.Stray? {
      PlainSpelling(p);
      assert PieceMeaning(p) == [t[0]];
      OneOrigin(m[0]);
    }
  }

  lemma PieceIsHex(p: Piece, rest: Text)
    requires Fits(p, rest)
    ensures p.Hex? ==> forall k :: 0 <= k < |p.digits| ==> IsHexDigit(p.digits[k])
  {}

  lemma PlainSpelling(p: Piece)
    requires p.Plain? || p.Stray?
    ensures |PieceSource(p)| == 1 && PieceMeaning(p) == PieceSource(p)
  {}

  // ---------------------------------------------------------------------
  // Every text is a spelling
  // ---------------------------------------------------------------------

  /** The token at the front of a non-empty text. */
  function FirstPiece(t: Text): Piece
    requires t != []
  {
    var n := EscapeLength(t);
    if n == 0 then if t[0] == BACKSLASH then Stray else Plain(t[0])
    else
      var d := HexRun(t[1..], 6);
      if d == 0 then Quoted(t[1])
      else Hex(t[1..1 + d], if n == d + 2 then Some(t[1 + d]) else None)
  }

  function Tokens(t: Text): seq<Piece>
    decreases |t|
  {
    if t == [] then []
    else
      var n := EscapeLength(t);
      [FirstPiece(t)] + Tokens(t[if n > 0 then n else 1..])
  }

  lemma FirstPieceFits(t: Text)
    requires t != []
    ensures var n := if EscapeLength(t) > 0 then EscapeLength(t) else 1;
            PieceSource(FirstPiece(t)) == t[..n] && Fits(FirstPiece(t), t[n..])
  {
    if EscapeLength(t) == 0 {
      UnescapedPieceFits(t);
    } else if HexRun(t[1..], 6) == 0 {
      QuotedPieceFits(t);
    } else {
      HexPieceFits(t, HexRun(t[1..], 6));
    }
  }

  lemma UnescapedPieceFits(t: Text)
    requires t != [] && EscapeLength(t) == 0
    ensures PieceSource(FirstPiece(t)) == t[..1] && Fits(FirstPiece(t), t[1..])
  {
    hide HexRun;
  }

  lemma QuotedPieceFits(t: Text)
    requires EscapeLength(t) > 0 && HexRun(t[1..], 6) == 0
    ensures EscapeLength(t) == 2 && PieceSource(FirstPiece(t)) == t[..2] && Fits(FirstPiece(t), t[2..])
  {
    hide HexRun;
    assert t[1..][0] == t[1];
  }

  lemma HexPieceFits(t: Text, d: nat)
    requires EscapeLength(t) > 0 && d == HexRun(t[1..], 6) > 0
    ensures var n := EscapeLength(t); PieceSource(FirstPiece(t)) == t[..n] && Fits(FirstPiece(t), t[n..])
  {
    hide HexRun;
    var n, digits := EscapeLength(t), t[1..1 + d];
    assert forall k :: 0 <= k < d ==> digits[k] == t[1..][k];
    assert d < |t| - 1 ==> t[1..][d] == t[1 + d];
    assert FirstPiece(t) == Hex(digits, if n == d + 2 then Some(t[1 + d]) else None);
    hide FirstPiece, EscapeLength;
    assert t[..n] == [BACKSLASH] + digits + if n == d + 2 then [t[1 + d]] else [];
  }

  /** Every text is a well-formed spelling, so `DecodeRecoversMeaning` describes
      one decode pass on all inputs. */
  lemma {:induction false} EveryTextIsSpelled(t: Text)
    ensures Source(Tokens(t)) == t && WellFormed(Tokens(t))
    decreases |t|
  {
    hide *;
    if t == [] {
      NoTokens();
      return;
    }
    var n := if EscapeLength(t) > 0 then EscapeLength(t) else 1;
    TokensStep(t, n);
    FirstPieceFits(t);
    EveryTextIsSpelled(t[n..]);
    PrependPiece(FirstPiece(t), Tokens(t[n..]));
    assert t == t[..n] + t[n..];
  }

  lemma NoTokens()
    ensures Source(Tokens([])) == [] && WellFormed(Tokens([]))
  {}

  lemma TokensStep(t: Text, n: nat)
    requires t != [] && n == if EscapeLength(t) > 0 then EscapeLength(t) else 1
    ensures Tokens(t) == [FirstPiece(t)] + Tokens(t[n..])
  {
    hide EscapeLength, FirstPiece;
  }

  lemma PrependPiece(p: Piece, ps: seq<Piece>)
    requires Fits(p, Source(ps)) && WellFormed(ps)
    ensures WellFormed([p] + ps) && Source([p] + ps) == PieceSource(p) + Source(ps)
  {
    hide Fits, PieceSource;
    assert ([p] + ps)[1..] == ps;
  }
}
