/**
 The path and the verb of every operation, told from how its mounts and its route
 are written (`src/lib/expressRoutes.ts`).
 */
module RoutePaths {
  import opened Addresses
  import opened Texts
  import opened ParamPaths
  import opened MountPrefixes
  import opened ExpressRoutes
  import opened RouteGates
  import opened RouteSpecs

  // ---------------------------------------------------------------------
  // Braces, piece by piece
  // ---------------------------------------------------------------------

  ghost predicate IsWordText(t: Text) { t != [] && forall k :: 0 <= k < |t| ==> IsWord(t[k]) }

  /** No word goes on in `rest`. */
  predicate StopsWord(rest: Text) { rest == [] || !IsWord(rest[0]) }

  /** Text without a colon stays. */
  lemma {:induction false} PlainIsKept(plain: Text, rest: Text)
    requires COLON !in plain
    ensures BraceParams(plain + rest) == plain + BraceParams(rest)
  {
    if plain == [] {
      assert plain + rest == rest;
    } else {
      assert (plain + rest)[1..] == plain[1..] + rest;
      assert plain[0] in plain;
      PlainIsKept(plain[1..], rest);
    }
  }

  lemma {:induction false} WordRunIs(name: Text, rest: Text)
    requires forall k :: 0 <= k < |name| ==> IsWord(name[k])
    requires StopsWord(rest)
    ensures WordRun(name + rest) == |name|
  {
    if name == [] {
      assert name + rest == rest;
    } else {
      assert (name + rest)[1..] == name[1..] + rest;
      WordRunIs(name[1..], rest);
    }
  }

  /** A colon and the whole word behind it become the word in braces. */
  lemma ParamIsBraced(name: Text, rest: Text)
    requires IsWordText(name) && StopsWord(rest)
    ensures BraceParams([COLON] + name + rest) == [OPEN_BRACE] + name + [CLOSE_BRACE] + BraceParams(rest)
  {
    hide WordRun;
    var t := [COLON] + name + rest;
    assert t[1..] == name + rest;
    WordRunIs(name, rest);
    assert t[1..|name| + 1] == name && t[|name| + 1..] == rest;
  }

  /** A colon with no word behind it stays. */
  lemma LoneColonIsKept(rest: Text)
    requires StopsWord(rest)
    ensures BraceParams([COLON] + rest) == [COLON] + BraceParams(rest)
  {
    hide WordRun;
    assert ([COLON] + rest)[1..] == [] + rest == rest;
    WordRunIs([], rest);
  }

  // ---------------------------------------------------------------------
  // Paths of segments
  // ---------------------------------------------------------------------

  /** Non-empty plain literals, and names that Express reads as one word. */
  ghost predicate Written(segments: seq<Segment>) {
    && PlainSegments(segments)
    && forall i :: 0 <= i < |segments| ==>
         if segments[i].Param? then IsWordText(segments[i].name) else segments[i].name != []
  }

  /** The path as the contract writes it. */
  function ContractText(segments: seq<Segment>): Text {
    if segments == [] then []
    else
      (match segments[0]
       case Literal(name) => [0x2F] + name
       case Param(name) => [0x2F, 0x7B] + name + [0x7D])
      + ContractText(segments[1..])
  }

  /** The same with the slash that a path of no segments may be written with. */
  function Spelled(segments: seq<Segment>, slash: bool): Text {
    if segments == [] && slash then [SLASH] else ContractText(segments)
  }

  function PathWith(segments: seq<Segment>, slash: bool): Text {
    PathText(segments) + if slash then [SLASH] else []
  }

  lemma PathTextStep(segments: seq<Segment>)
    requires segments != []
    ensures PathText(segments)
         == (if segments[0].Param? then [SLASH, COLON] else [SLASH]) + segments[0].name + PathText(segments[1..])
  {}

  lemma ContractTextStep(segments: seq<Segment>)
    requires segments != []
    ensures ContractText(segments)
         == (if segments[0].Param? then [SLASH, OPEN_BRACE] + segments[0].name + [CLOSE_BRACE]
             else [SLASH] + segments[0].name)
            + ContractText(segments[1..])
  {}

  lemma PathTextStarts(segments: seq<Segment>)
    ensures segments == [] ==> PathText(segments) == [] && ContractText(segments) == []
    ensures segments != [] ==> PathText(segments) != [] && PathText(segments)[0] == SLASH
  {}

  lemma WrittenStep(segments: seq<Segment>)
    requires Written(segments) && segments != []
    ensures Written(segments[1..])
    ensures if segments[0].Param? then IsWordText(segments[0].name)
            else segments[0].name != [] && COLON !in segments[0].name
  {
    hide IsWordText;
  }

  lemma SlashEndsWord(rest: Text)
    ensures rest == [] || rest[0] == SLASH ==> StopsWord(rest)
    ensures SLASH != COLON
  {}

  lemma {:induction false} SegmentsBraced(segments: seq<Segment>, rest: Text)
    requires Written(segments) && (rest == [] || rest[0] == SLASH)
    ensures BraceParams(PathText(segments) + rest) == ContractText(segments) + BraceParams(rest)
    decreases |segments|
  {
    hide *;
    PathTextStarts(segments);
    if segments == [] {
      assert PathText(segments) + rest == rest;
      return;
    }
    var name, tail := segments[0].name, PathText(segments[1..]);
    var more := tail + rest;
    PathTextStep(segments);
    ContractTextStep(segments);
    WrittenStep(segments);
    SegmentsBraced(segments[1..], rest);
    PathTextStarts(segments[1..]);
    SlashEndsWord(more);
    if segments[0].Param? {
      ParamIsBraced(name, more);
      PlainIsKept([SLASH], [COLON] + name + more);
      ParamPieces([SLASH], [COLON], name, [], tail, rest);
      ParamPieces([SLASH], [OPEN_BRACE], name, [CLOSE_BRACE], ContractText(segments[1..]), BraceParams(rest));
    } else {
      PlainIsKept([SLASH] + name, more);
      LiteralPieces([SLASH] + name, tail, rest);
      LiteralPieces([SLASH] + name, ContractText(segments[1..]), BraceParams(rest));
    }
  }

  lemma ParamPieces(slash: Text, open: Text, name: Text, close: Text, tail: Text, rest: Text)
    requires |slash| == 1 && |open| == 1
    ensures [slash[0], open[0]] + name + close + tail + rest == slash + (open + name + close + (tail + rest))
    ensures close == [] ==>
              [slash[0], open[0]] + name + tail + rest == slash + (open + name + (tail + rest))
  {
    assert [slash[0], open[0]] == slash + open;
  }

  lemma LiteralPieces(a: Text, b: Text, c: Text)
    ensures a + b + c == a + (b + c)
  {}

  lemma NothingBraced()
    ensures BraceParams([]) == [] && BraceParams([SLASH]) == [SLASH]
  {}

  /** A contract path ends in a unit of a literal or in a brace. */
  lemma {:induction false} ContractEnds(segments: seq<Segment>)
    requires Written(segments) && segments != []
    ensures var t := ContractText(segments);
            |t| > 1 && t[|t| - 1] != SLASH && !IsLineTerminator(t[|t| - 1])
    decreases |segments|
  {
    ContractTextStep(segments);
    WrittenStep(segments);
    LiteralEnds(segments);
    hide *;
    if |segments| > 1 {
      ContractEnds(segments[1..]);
    } else {
      PathTextStarts(segments[1..]);
    }
  }

  lemma LiteralEnds(segments: seq<Segment>)
    requires Written(segments) && segments != []
    ensures var name := segments[0].name;
            name != [] && (segments[0].Literal? ==>
              name[|name| - 1] != SLASH && !IsLineTerminator(name[|name| - 1]))
    ensures CLOSE_BRACE != SLASH && !IsLineTerminator(CLOSE_BRACE)
  {
    var name := segments[0].name;
    assert name != [];
    assert name[|name| - 1] in name;
  }

  /** In the path of an operation every parameter is in braces, and a slash at the
      end is dropped unless it is all there is. */
  lemma PathIsSpelled(segments: seq<Segment>, slash: bool)
    requires Written(segments)
    ensures ToOpenApiPath(PathWith(segments, slash)) == Spelled(segments, slash)
  {
    var end := if slash then [SLASH] else [];
    PathTextStarts(segments);
    if segments != [] { ContractEnds(segments); }
    SpelledIs(segments, slash);
    PathWithIs(segments, slash);
    EndOfSlash();
    hide *;
    SegmentsBraced(segments, end);
    NothingBraced();
    var t := ContractText(segments);
    if segments == [] {
      JustEnd(end);
    } else {
      SlashDropped(PathWith(segments, slash), t, slash);
    }
    OneSlash(PathWith(segments, slash));
  }

  lemma EndOfSlash()
    ensures SLASH == 0x2F
  {}

  lemma JustEnd(end: Text)
    ensures [] + end == end
  {}

  lemma SpelledIs(segments: seq<Segment>, slash: bool)
    ensures Spelled(segments, slash) == if segments == [] && slash then [0x2F] else ContractText(segments)
  {
    hide ContractText;
  }

  lemma PathWithIs(segments: seq<Segment>, slash: bool)
    ensures PathWith(segments, slash) == PathText(segments) + if slash then [SLASH] else []
  {
    hide PathText;
  }

  /** A slash behind a text that ends otherwise is dropped. */
  lemma SlashDropped(path: Text, t: Text, slash: bool)
    requires BraceParams(path) == t + if slash then [0x2F] else []
    requires t != [] && t[|t| - 1] != 0x2F && !IsLineTerminator(t[|t| - 1])
    ensures ToOpenApiPath(path) == t
  {
    hide BraceParams, IsLineTerminator;
    var braced := BraceParams(path);
    if slash { assert braced[..|braced| - 1] == t; } else { assert braced == t; }
  }

  lemma OneSlash(path: Text)
    ensures |BraceParams(path)| < 2 ==> ToOpenApiPath(path) == BraceParams(path)
  {
    hide BraceParams;
  }

  /** Of any path without a colon just one slash is dropped, at its end and not behind
      a line end. */
  lemma PlainPathSpelled(path: Text, u: Unit)
    requires COLON !in path && u != COLON
    ensures ToOpenApiPath(path + [u, 0x2F]) == if IsLineTerminator(u) then path + [u, 0x2F] else path + [u]
    ensures u != 0x2F ==> ToOpenApiPath(path + [u]) == path + [u]
    ensures ToOpenApiPath([0x2F]) == [0x2F] && ToOpenApiPath([]) == []
  {
    NothingBraced();
    PlainIsKept(path + [u, 0x2F], []);
    PlainIsKept(path + [u], []);
    hide BraceParams, IsLineTerminator;
    var t := path + [u, 0x2F];
    assert t + [] == t && path + [u] + [] == path + [u];
    assert t[..|t| - 1] == path + [u];
  }

  // ---------------------------------------------------------------------
  // Operations
  // ---------------------------------------------------------------------

  /** The pattern of a router that is mounted at this path; at none for no segments. */
  ghost predicate MountsAs(pattern: Pattern, segments: seq<Segment>) {
    || (segments == [] && !pattern.Compiled?)
    || (Written(segments) && pattern == Compiled(CompiledSource(segments), ParamNames(segments)))
  }

  /** The routers on the way to `a` are mounted at these paths, outermost first. */
  ghost predicate MountedAt(stack: seq<Layer>, a: Address, ways: seq<seq<Segment>>)
    requires Leads(stack, a)
    decreases |a|
  {
    if |a| == 1 then ways == []
    else ways != [] && MountsAs(stack[a[0]].pattern, ways[0]) && MountedAt(stack[a[0]].stack, a[1..], ways[1..])
  }

  function Joined(ways: seq<seq<Segment>>): seq<Segment> {
    if ways == [] then [] else ways[0] + Joined(ways[1..])
  }

  lemma {:induction false} PathTextJoins(a: seq<Segment>, b: seq<Segment>)
    ensures PathText(a + b) == PathText(a) + PathText(b)
    decreases |a|
  {
    hide *;
    if a == [] {
      PathTextStarts(a);
      assert a + b == b;
    } else {
      assert (a + b)[1..] == a[1..] + b;
      PathTextStep(a);
      PathTextStep(a + b);
      PathTextJoins(a[1..], b);
    }
  }

  lemma {:induction false} WordsHaveNoBackslash(segments: seq<Segment>)
    requires Written(segments)
    ensures forall k :: 0 <= k < |ParamNames(segments)| ==> BACKSLASH !in ParamNames(segments)[k]
    decreases |segments|
  {
    if segments != [] {
      WrittenStep(segments);
      hide Written;
      WordsHaveNoBackslash(segments[1..]);
      var rest := ParamNames(segments[1..]);
      assert ParamNames(segments) == (if segments[0].Param? then [segments[0].name] else []) + rest;
    }
  }

  lemma PrefixIs(pattern: Pattern, segments: seq<Segment>)
    requires MountsAs(pattern, segments)
    ensures MountPrefix(pattern) == PathText(segments)
  {
    hide CompiledSource, Written, ReplaceGroups, Unescaped, Unanchored;
    if pattern.Compiled? {
      WordsHaveNoBackslash(segments);
      WrittenIsPlain(segments);
      MountPathRoundTrips(segments);
    } else {
      PathTextStarts(segments);
    }
  }

  lemma WrittenIsPlain(segments: seq<Segment>)
    requires Written(segments)
    ensures PlainSegments(segments)
  {}

  lemma BaseStep(stack: seq<Layer>, a: Address, base: Text)
    requires Leads(stack, a)
    ensures if |a| == 1 then BaseAt(stack, a, base) == base
            else
              && stack[a[0]].Mount? && Leads(stack[a[0]].stack, a[1..])
              && BaseAt(stack, a, base) == BaseAt(stack[a[0]].stack, a[1..], base + MountPrefix(stack[a[0]].pattern))
  {
    hide MountPrefix;
  }

  lemma MountedStep(stack: seq<Layer>, a: Address, ways: seq<seq<Segment>>)
    requires Leads(stack, a) && MountedAt(stack, a, ways)
    ensures if |a| == 1 then ways == []
            else
              && a != [] && a[0] < |stack|
              && ways != [] && stack[a[0]].Mount? && Leads(stack[a[0]].stack, a[1..])
              && MountsAs(stack[a[0]].pattern, ways[0]) && MountedAt(stack[a[0]].stack, a[1..], ways[1..])
  {
    hide MountsAs;
  }

  lemma JoinedStep(ways: seq<seq<Segment>>)
    ensures Joined(ways) == if ways == [] then [] else ways[0] + Joined(ways[1..])
  {}

  /** The base of a layer is the mount paths on its way. */
  lemma {:induction false} BaseIsMounts(stack: seq<Layer>, a: Address, ways: seq<seq<Segment>>, base: Text)
    requires Leads(stack, a) && MountedAt(stack, a, ways)
    ensures BaseAt(stack, a, base) == base + PathText(Joined(ways))
    decreases |a|
  {
    hide *;
    BaseStep(stack, a, base);
    MountedStep(stack, a, ways);
    JoinedStep(ways);
    if |a| == 1 {
      PathTextStarts([]);
    } else {
      LeadsSomewhere(stack, a);
      PrefixIs(stack[a[0]].pattern, ways[0]);
      BaseIsMounts(stack[a[0]].stack, a[1..], ways[1..], base + MountPrefix(stack[a[0]].pattern));
      PathTextJoins(ways[0], Joined(ways[1..]));
    }
  }

  /** The route at `a` serves `o` on its `i`-th path with its `j`-th method. */
  ghost predicate ServedAt(stack: seq<Layer>, a: Address, i: nat, j: nat, o: Operation) {
    && IsRoute(stack, a)
    && var route := LayerAt(stack, a);
    && i < |route.paths| && j < |route.methods|
    && route.methods[j].1 && route.methods[j].0 != Lit("_all")
    && o.verb == Upper(route.methods[j].0)
    && o.path == ToOpenApiPath(BaseAt(stack, a, []) + route.paths[i])
    && o.gates == GatesAhead(stack, a) + GatesOf(route.chain)
    && o.unmarked == UnmarkedAhead(stack, a, [], true) + UnmarkedOf(route.chain, AheadOfHandler(route.chain))
  }

  lemma ServedIs(stack: seq<Layer>, a: Address, i: nat, j: nat, o: Operation)
    requires IsRoute(stack, a)
    ensures var route := LayerAt(stack, a);
            ServedAt(stack, a, i, j, o) <==>
              && i < |route.paths| && j < |route.methods| && IsServed(route.methods[j])
              && o == OperationOf(ContextAt(stack, a, ROOT), route.paths[i], route.methods[j].0, route.chain)
  {
    hide LayerAt, Leads, BaseAt, GatesAhead, UnmarkedAhead, GatesOf, UnmarkedOf, ToOpenApiPath, AheadOfHandler, Upper;
    var gates, unmarked := GatesAhead(stack, a), UnmarkedAhead(stack, a, [], true);
    assert [] + gates == gates && [] + unmarked == unmarked;
  }

  /** The operations of an app are those that its routes serve. */
  lemma OperationServed(stack: seq<Layer>, o: Operation)
    ensures o in Walked(stack, 0, ROOT) <==> exists a, i, j :: ServedAt(stack, a, i, j, o)
  {
    hide *;
    OperationMeaning(stack, o);
    if o in Walked(stack, 0, ROOT) {
      var a :| IsRoute(stack, a) && o in OpsAt(stack, a, ROOT);
      var i, j := OpIsServed(stack, a, o);
    }
    if a, i, j :| ServedAt(stack, a, i, j, o) { ServedIsOp(stack, a, i, j, o); }
  }

  lemma OpIsServed(stack: seq<Layer>, a: Address, o: Operation) returns (i: nat, j: nat)
    requires IsRoute(stack, a) && o in OpsAt(stack, a, ROOT)
    ensures ServedAt(stack, a, i, j, o)
  {
    hide LayerAt, Leads, ContextAt, RouteOps, OperationOf, IsServed, ServedAt;
    var route, c := LayerAt(stack, a), ContextAt(stack, a, ROOT);
    OperationsOfRoute(c, route.paths, route.methods, route.chain);
    i, j :| 0 <= i < |route.paths| && 0 <= j < |route.methods| && IsServed(route.methods[j])
        && o == OperationOf(c, route.paths[i], route.methods[j].0, route.chain);
    ServedIs(stack, a, i, j, o);
  }

  lemma ServedIsOp(stack: seq<Layer>, a: Address, i: nat, j: nat, o: Operation)
    requires ServedAt(stack, a, i, j, o)
    ensures IsRoute(stack, a) && o in OpsAt(stack, a, ROOT)
  {
    hide LayerAt, Leads, ContextAt, RouteOps, OperationOf, IsServed;
    ServedIs(stack, a, i, j, o);
    hide ServedAt;
    var route := LayerAt(stack, a);
    OperationsOfRoute(ContextAt(stack, a, ROOT), route.paths, route.methods, route.chain);
  }

  /** The mounts on the way to `a` and its `i`-th path are written as these segments. */
  ghost predicate PathWritten(stack: seq<Layer>, a: Address, i: nat, segments: seq<Segment>, slash: bool) {
    && IsRoute(stack, a) && i < |LayerAt(stack, a).paths|
    && Written(segments)
    && exists ways, own :: WayWritten(stack, a, i, ways, own, slash) && segments == Joined(ways) + own
  }

  ghost predicate WayWritten(
    stack: seq<Layer>, a: Address, i: nat, ways: seq<seq<Segment>>, own: seq<Segment>, slash: bool)
    requires IsRoute(stack, a) && i < |LayerAt(stack, a).paths|
  {
    MountedAt(stack, a, ways) && LayerAt(stack, a).paths[i] == PathWith(own, slash)
  }

  /** Every operation has the upper-cased method of its route for a verb, and its
      path is that of the mounts on the way followed by the route's own, in the
      spelling of the contract. */
  lemma OperationSpelled(
    stack: seq<Layer>, a: Address, i: nat, j: nat, o: Operation, segments: seq<Segment>, slash: bool)
    requires ServedAt(stack, a, i, j, o) && PathWritten(stack, a, i, segments, slash)
    ensures o in Walked(stack, 0, ROOT)
    ensures o.verb == Upper(LayerAt(stack, a).methods[j].0) && o.path == Spelled(segments, slash)
  {
    OperationServed(stack, o);
    hide Walked, Written, WayWritten, ToOpenApiPath, Leads, LayerAt, BaseAt, GatesAhead, UnmarkedAhead, GatesOf,
        UnmarkedOf, Spelled;
    var ways, own :| WayWritten(stack, a, i, ways, own, slash) && segments == Joined(ways) + own;
    FullPath(stack, a, i, ways, own, slash);
    PathIsSpelled(segments, slash);
  }

  lemma FullPath(stack: seq<Layer>, a: Address, i: nat, ways: seq<seq<Segment>>, own: seq<Segment>, slash: bool)
    requires IsRoute(stack, a) && i < |LayerAt(stack, a).paths| && WayWritten(stack, a, i, ways, own, slash)
    ensures BaseAt(stack, a, []) + LayerAt(stack, a).paths[i] == PathWith(Joined(ways) + own, slash)
  {
    hide Leads, LayerAt, BaseAt, MountedAt, PathText, Joined;
    BaseIsMounts(stack, a, ways, []);
    PathTextJoins(Joined(ways), own);
    var end := if slash then [SLASH] else [];
    assert [] + PathText(Joined(ways)) + (PathText(own) + end) == PathText(Joined(ways)) + PathText(own) + end;
  }
}
