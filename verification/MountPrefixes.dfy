/**
 Recovering a mount path from the pattern Express compiles it to
 (`src/lib/expressRoutes.ts`).
 */
module MountPrefixes {
  import opened ParamPaths
  import opened Texts

  const CARET: Unit := 0x5E
  const DOLLAR: Unit := 0x24
  const SLASH: Unit := 0x2F
  const BACKSLASH: Unit := 0x5C
  const DOT: Unit := 0x2E
  const OPEN: Unit := 0x28

  /** How a compiled mount ends. */
  const TAIL: Text := Lit("\\/?(?=\\/|$)")

  /** How one parameter is compiled, its slash included. */
  const GROUP: Text := Lit("(?:\\/([^/]+?))")

  /** What a layer matches with. */
  datatype Pattern = NoPattern | FastSlash | Compiled(source: Text, keys: seq<Text>)

  predicate EndsWith(t: Text, end: Text) { |end| <= |t| && t[|t| - |end|..] == end }

  /** Take the anchors off a compiled source. */
  function Unanchored(source: Text): Text {
    var a := if source != [] && source[0] == CARET then source[1..] else source;
    var b := if EndsWith(a, TAIL) then a[..|a| - |TAIL|] else a;
    if b != [] && b[|b| - 1] == DOLLAR then b[..|b| - 1] else b
  }

  /** The name that fills the `i`-th parameter group. */
  function KeyName(keys: seq<Text>, i: nat): Text {
    if i < |keys| then keys[i] else Lit("param")
  }

  /** Every parameter group replaced by `/:name`, counting from `i`. */
  function ReplaceGroups(src: Text, keys: seq<Text>, i: nat): Text {
    if src == [] then []
    else if GROUP <= src then [SLASH, COLON] + KeyName(keys, i) + ReplaceGroups(src[|GROUP|..], keys, i + 1)
    else [src[0]] + ReplaceGroups(src[1..], keys, i)
  }

  /** `src.replace(/\\(.)/g, '$1')` */
  function Unescaped(src: Text): Text {
    if src == [] then []
    else if |src| >= 2 && src[0] == BACKSLASH && !IsLineTerminator(src[1]) then [src[1]] + Unescaped(src[2..])
    else [src[0]] + Unescaped(src[1..])
  }

  /** The path prefix read back from a mount pattern. */
  function MountPrefix(pattern: Pattern): Text {
    match pattern
    case NoPattern => []
    case FastSlash => []
    case Compiled(source, keys) => Unescaped(ReplaceGroups(Unanchored(source), keys, 0))
  }

  lemma ReplaceStep(src: Text, at: nat, keys: seq<Text>, i: nat, out: Text)
    requires at < |src|
    ensures at + |GROUP| <= |src| && GROUP <= src[at..]
            ==> out + ReplaceGroups(src[at..], keys, i)
                == out + ([SLASH, COLON] + KeyName(keys, i)) + ReplaceGroups(src[at + |GROUP|..], keys, i + 1)
    ensures !(GROUP <= src[at..])
            ==> out + ReplaceGroups(src[at..], keys, i) == out + [src[at]] + ReplaceGroups(src[at + 1..], keys, i)
  {
    hide Lit, KeyName;
    GroupIsLong();
    var t := src[at..];
    if GROUP <= t {
      assert t[|GROUP|..] == src[at + |GROUP|..];
      TextsRegroup(out, [SLASH, COLON] + KeyName(keys, i), ReplaceGroups(t[|GROUP|..], keys, i + 1));
    } else {
      assert t[1..] == src[at + 1..];
      TextsRegroup(out, [t[0]], ReplaceGroups(t[1..], keys, i));
    }
  }

  lemma TextsRegroup(a: Text, b: Text, c: Text)
    ensures a + (b + c) == a + b + c
  {}

  /** `mountPrefix`, with its counter over the keys. */
  method ComputeMountPrefix(pattern: Pattern) returns (prefix: Text)
    ensures prefix == MountPrefix(pattern)
  {
    if !pattern.Compiled? { return []; }
    var src, keys := Unanchored(pattern.source), pattern.keys;
    var out: Text := [];
    var at, i := 0, 0;
    assert src[0..] == src;
    assert ReplaceGroups([], keys, 0) == [];
    hide Unescaped, Unanchored, Lit, KeyName;
    while at < |src|
      invariant 0 <= at <= |src|
      invariant out + ReplaceGroups(src[at..], keys, i) == ReplaceGroups(src, keys, 0)
      decreases |src| - at
    {
      GroupIsLong();
      hide ReplaceGroups, GROUP;
      ReplaceStep(src, at, keys, i, out);
      if GROUP <= src[at..] {
        out := out + ([SLASH, COLON] + KeyName(keys, i));
        at, i := at + |GROUP|, i + 1;
      } else {
        out := out + [src[at]];
        at := at + 1;
      }
    }
    assert src[at..] == [] && out + [] == out;
    prefix := Unescaped(out);
  }

  lemma GroupIsLong()
    ensures |GROUP| == 14 && GROUP[0] == OPEN
  {}

  // ---------------------------------------------------------------------
  // Compiling a mount path, and getting it back
  // ---------------------------------------------------------------------

  datatype Segment = Literal(name: Text) | Param(name: Text)

  /** A unit that a literal segment may be written with. */
  predicate IsPlainUnit(u: Unit) { IsLetter(u) || IsDigit(u) || u == 0x2D || u == 0x5F || u == DOT }

  ghost predicate PlainSegments(segments: seq<Segment>) {
    forall i :: 0 <= i < |segments| && segments[i].Literal? ==> forall u :: u in segments[i].name ==> IsPlainUnit(u)
  }

  /** The mount path as the program's author writes it. */
  function PathText(segments: seq<Segment>): Text {
    if segments == [] then []
    else
      (match segments[0]
       case Literal(name) => [SLASH] + name
       case Param(name) => [SLASH, COLON] + name)
      + PathText(segments[1..])
  }

  function EscapeDots(name: Text): Text {
    if name == [] then []
    else (if name[0] == DOT then [BACKSLASH, DOT] else [name[0]]) + EscapeDots(name[1..])
  }

  function CompiledBody(segments: seq<Segment>): Text {
    if segments == [] then []
    else
      (match segments[0]
       case Literal(name) => [BACKSLASH, SLASH] + EscapeDots(name)
       case Param(_) => GROUP)
      + CompiledBody(segments[1..])
  }

  /** The source Express compiles the path to. */
  function CompiledSource(segments: seq<Segment>): Text {
    [CARET] + CompiledBody(segments) + TAIL
  }

  /** The path with its parameters named by `keys` from the `i`-th on. */
  function Named(segments: seq<Segment>, keys: seq<Text>, i: nat): seq<Segment> {
    if segments == [] then []
    else
      match segments[0]
      case Literal(name) => [segments[0]] + Named(segments[1..], keys, i)
      case Param(_) => [Param(KeyName(keys, i))] + Named(segments[1..], keys, i + 1)
  }

  function ParamNames(segments: seq<Segment>): seq<Text> {
    if segments == [] then []
    else (if segments[0].Param? then [segments[0].name] else []) + ParamNames(segments[1..])
  }

  lemma {:induction false} EscapeDotsUnits(name: Text)
    requires forall u :: u in name ==> IsPlainUnit(u)
    ensures forall u :: u in EscapeDots(name) ==> u != OPEN && u != DOLLAR
  {
    if name != [] {
      EscapeDotsUnits(name[1..]);
      assert name[0] in name;
    }
  }

  lemma {:induction false} BodyEndsPlain(segments: seq<Segment>)
    requires PlainSegments(segments)
    ensures var b := CompiledBody(segments); b == [] || b[|b| - 1] != DOLLAR
  {
    if segments == [] { return; }
    BodyEndsPlain(segments[1..]);
    match segments[0] {
      case Literal(name) =>
        EscapeDotsUnits(name);
        var escaped := EscapeDots(name);
        var head := [BACKSLASH, SLASH] + escaped;
        assert head[|head| - 1] == SLASH || head[|head| - 1] in escaped;
        assert CompiledBody(segments) == head + CompiledBody(segments[1..]);
      case Param(_) => assert GROUP[|GROUP| - 1] == 0x29;
    }
  }

  lemma AnchorsComeOff(segments: seq<Segment>)
    requires PlainSegments(segments)
    ensures Unanchored(CompiledSource(segments)) == CompiledBody(segments)
  {
    hide TAIL, CompiledBody;
    BodyEndsPlain(segments);
    var body, source := CompiledBody(segments), CompiledSource(segments);
    assert source[1..] == body + TAIL;
    assert (body + TAIL)[|body|..] == TAIL && (body + TAIL)[..|body|] == body;
  }

  /** Text without a parenthesis holds no group. */
  lemma {:induction false} PlainKeepsGroups(plain: Text, rest: Text, keys: seq<Text>, i: nat)
    requires OPEN !in plain
    ensures ReplaceGroups(plain + rest, keys, i) == plain + ReplaceGroups(rest, keys, i)
  {
    hide Lit;
    GroupIsLong();
    if plain == [] {
      assert plain + rest == rest;
    } else {
      var t := plain + rest;
      assert t[1..] == plain[1..] + rest;
      assert t[0] == plain[0] && plain[0] in plain;
      assert !(GROUP <= t);
      PlainKeepsGroups(plain[1..], rest, keys, i);
    }
  }

  lemma GroupIsReplaced(rest: Text, keys: seq<Text>, i: nat)
    ensures ReplaceGroups(GROUP + rest, keys, i) == [SLASH, COLON] + KeyName(keys, i) + ReplaceGroups(rest, keys, i + 1)
  {
    hide Lit, KeyName;
    GroupIsLong();
    var t := GROUP + rest;
    assert GROUP <= t && t[|GROUP|..] == rest;
  }

  lemma UnescapeOne(u: Unit, rest: Text)
    ensures u != BACKSLASH ==> Unescaped([u] + rest) == [u] + Unescaped(rest)
    ensures !IsLineTerminator(u) ==> Unescaped([BACKSLASH, u] + rest) == [u] + Unescaped(rest)
  {
    assert ([u] + rest)[1..] == rest && ([BACKSLASH, u] + rest)[2..] == rest;
  }

  lemma EscapeDotsStep(name: Text, rest: Text)
    requires name != []
    ensures EscapeDots(name) + rest
              == (if name[0] == DOT then [BACKSLASH, DOT] else [name[0]]) + (EscapeDots(name[1..]) + rest)
  {}

  lemma PlainUnitIsNoBackslash(u: Unit)
    requires IsPlainUnit(u)
    ensures u != BACKSLASH && !IsLineTerminator(u)
  {}

  lemma {:induction false} NamesStayEscaped(name: Text, rest: Text)
    requires forall u :: u in name ==> IsPlainUnit(u)
    ensures Unescaped(EscapeDots(name) + rest) == name + Unescaped(rest)
  {
    if name == [] {
      assert EscapeDots(name) + rest == rest;
    } else {
      hide Unescaped, EscapeDots, IsPlainUnit;
      PlainUnitIsNoBackslash(name[0]);
      NamesStayEscaped(name[1..], rest);
      EscapeDotsStep(name, rest);
      UnescapeOne(name[0], EscapeDots(name[1..]) + rest);
      HeadAndTail(name, Unescaped(rest));
    }
  }

  lemma HeadAndTail(t: Text, rest: Text)
    requires t != []
    ensures [t[0]] + (t[1..] + rest) == t + rest
  {}

  lemma {:induction false} PlainStaysUnescaped(plain: Text, rest: Text)
    requires BACKSLASH !in plain
    ensures Unescaped(plain + rest) == plain + Unescaped(rest)
  {
    if plain == [] {
      assert plain + rest == rest;
    } else {
      assert (plain + rest)[1..] == plain[1..] + rest;
      assert plain[0] in plain;
      PlainStaysUnescaped(plain[1..], rest);
    }
  }

  lemma {:induction false} BodyRecovered(segments: seq<Segment>, keys: seq<Text>, i: nat)
    requires PlainSegments(segments)
    requires forall k :: 0 <= k < |keys| ==> BACKSLASH !in keys[k]
    ensures Unescaped(ReplaceGroups(CompiledBody(segments), keys, i)) == PathText(Named(segments, keys, i))
  {
    hide ReplaceGroups, Unescaped, EscapeDots, Lit;
    if segments == [] {
      NothingRecovered(keys, i);
      return;
    }
    var rest := CompiledBody(segments[1..]);
    match segments[0] {
      case Literal(name) =>
        BodyRecovered(segments[1..], keys, i);
        EscapeDotsUnits(name);
        var r := ReplaceGroups(rest, keys, i);
        PlainKeepsGroups([BACKSLASH, SLASH] + EscapeDots(name), rest, keys, i);
        assert [BACKSLASH, SLASH] + EscapeDots(name) + r == [BACKSLASH, SLASH] + (EscapeDots(name) + r);
        UnescapeOne(SLASH, EscapeDots(name) + r);
        NamesStayEscaped(name, r);
      case Param(_) =>
        BodyRecovered(segments[1..], keys, i + 1);
        GroupIsReplaced(rest, keys, i);
        KeyHasNoBackslash(keys, i);
        PlainStaysUnescaped([SLASH, COLON] + KeyName(keys, i), ReplaceGroups(rest, keys, i + 1));
    }
  }

  lemma NothingRecovered(keys: seq<Text>, i: nat)
    ensures Unescaped(ReplaceGroups([], keys, i)) == []
  {}

  lemma KeyHasNoBackslash(keys: seq<Text>, i: nat)
    requires forall k :: 0 <= k < |keys| ==> BACKSLASH !in keys[k]
    ensures BACKSLASH !in KeyName(keys, i)
  {}

  /** Undoing the compilation of a mount path gives the path back, the i-th key
      filling the i-th parameter and `param` standing in for a missing key. */
  lemma MountPrefixUndoesCompilation(segments: seq<Segment>, keys: seq<Text>)
    requires PlainSegments(segments)
    requires forall k :: 0 <= k < |keys| ==> BACKSLASH !in keys[k]
    ensures MountPrefix(Compiled(CompiledSource(segments), keys)) == PathText(Named(segments, keys, 0))
  {
    hide ReplaceGroups, Unescaped, Unanchored, CompiledBody, CompiledSource;
    AnchorsComeOff(segments);
    BodyRecovered(segments, keys, 0);
  }

  /** The key list, split at the first segment. */
  lemma KeysSplit(segments: seq<Segment>, before: seq<Text>)
    requires segments != []
    ensures var keys := before + ParamNames(segments);
            if segments[0].Param? then
              |before| < |keys| && keys[|before|] == segments[0].name
              && keys == before + [segments[0].name] + ParamNames(segments[1..])
            else keys == before + ParamNames(segments[1..])
  {
    var own := ParamNames(segments);
    var rest := ParamNames(segments[1..]);
    hide ParamNames;
    if segments[0].Param? {
      assert before + own == before + ([segments[0].name] + rest);
      Regroup(before, segments[0].name, rest);
    } else {
      assert own == rest;
    }
  }

  lemma Regroup(a: seq<Text>, t: Text, b: seq<Text>)
    ensures a + ([t] + b) == a + [t] + b && (a + ([t] + b))[|a|] == t
  {}

  lemma NamedStep(segments: seq<Segment>, keys: seq<Text>, i: nat)
    requires segments != [] && (segments[0].Param? ==> i < |keys| && keys[i] == segments[0].name)
    ensures Named(segments, keys, i)
          == [segments[0]] + Named(segments[1..], keys, if segments[0].Param? then i + 1 else i)
  {
    hide Lit;
  }

  lemma {:induction false} OwnNames(segments: seq<Segment>, before: seq<Text>)
    ensures Named(segments, before + ParamNames(segments), |before|) == segments
    decreases |segments|
  {
    if segments == [] { return; }
    hide Named, ParamNames;
    KeysSplit(segments, before);
    NamedStep(segments, before + ParamNames(segments), |before|);
    OwnNames(segments[1..], if segments[0].Param? then before + [segments[0].name] else before);
    assert segments == [segments[0]] + segments[1..];
  }

  /** With the keys Express recorded, the path itself comes back. */
  lemma MountPathRoundTrips(segments: seq<Segment>)
    requires PlainSegments(segments)
    requires forall k :: 0 <= k < |ParamNames(segments)| ==> BACKSLASH !in ParamNames(segments)[k]
    ensures MountPrefix(Compiled(CompiledSource(segments), ParamNames(segments))) == PathText(segments)
  {
    hide MountPrefix, CompiledSource, PathText;
    MountPrefixUndoesCompilation(segments, ParamNames(segments));
    OwnNames(segments, []);
    assert [] + ParamNames(segments) == ParamNames(segments);
  }
}
