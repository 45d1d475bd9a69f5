/**
 What the key of a mutation site tells: its route or function, its model and its
 write (`src/lib/prismaMutationSites.ts`).
 */
module MutationOwners {
  import opened Addresses
  import opened ParamPaths
  import opened Texts
  import opened MountPrefixes
  import opened RoutePaths
  import opened MutationSites

  // ---------------------------------------------------------------------
  // Which calls are read, and how
  // ---------------------------------------------------------------------

  const VERBS: set<Text> := {Lit("get"), Lit("post"), Lit("put"), Lit("patch"), Lit("delete")}

  const WRITES: set<Text> :=
    {Lit("create"), Lit("upsert"), Lit("update"), Lit("delete"), Lit("createMany"), Lit("updateMany"),
     Lit("deleteMany")}

  /** `x.verb('path', ...)` with an identifier for `x`. */
  ghost predicate IsRouteCall(n: Node, verb: Text, path: Text) {
    exists x, rest :: n == Call(Access(Identifier(x), verb), [StringLiteral(path)] + rest) && verb in VERBS
  }

  /** `x.model.op(...)`, whatever `x` is. */
  ghost predicate IsWriteCall(n: Node, models: Models, model: Text, op: Text) {
    && (exists x, args :: n == Call(Access(Access(x, model), op), args))
    && op in WRITES
    && (model in models.facts || model in models.inherited)
  }

  /** A route call is read as its upper-cased verb and its path with braces. */
  lemma RouteOfExactly(n: Node, verb: Text, path: Text)
    ensures IsRouteCall(n, verb, path) ==> RouteOf(n) == Some((Upper(verb), BraceParams(path)))
    ensures RouteOf(n).Some? ==>
              exists v, p :: IsRouteCall(n, v, p) && RouteOf(n) == Some((Upper(v), BraceParams(p)))
  {
    hide Lit, BraceParams, Upper;
    if RouteOf(n).Some? {
      var rest := n.args[1..];
      assert n.args == [StringLiteral(n.args[0].text)] + rest;
      assert n == Call(Access(Identifier(n.callee.receiver.name), n.callee.name), n.args);
      assert IsRouteCall(n, n.callee.name, n.args[0].text);
    }
  }

  /** A write call is read as its model and its write, and nothing else is. */
  lemma ReadCallExactly(n: Node, models: Models, model: Text, op: Text)
    ensures ReadCall(n, models) == Some((model, op)) <==> IsWriteCall(n, models, model, op)
  {
    hide Lit;
    if ReadCall(n, models) == Some((model, op)) {
      assert n == Call(Access(Access(n.callee.receiver.receiver, model), op), n.args);
    }
  }

  /** A named function, method or variable, and nothing else, binds its name. */
  lemma BoundNameExactly(n: Node, name: Text)
    ensures BoundName(n) == Some(name) <==>
              exists parts ::
                n == Function(Some(name), parts) || n == Method(Some(name), parts) || n == Variable(Some(name), parts)
  {
    if BoundName(n) == Some(name) {
      var parts := n.parts;
      assert n == Function(Some(name), parts) || n == Method(Some(name), parts) || n == Variable(Some(name), parts);
    }
  }

  // ---------------------------------------------------------------------
  // Taking a key apart
  // ---------------------------------------------------------------------

  lemma LastSeparatorTells(a: Text, b: Text, c: Text, d: Text, sep: Unit)
    requires sep !in b && sep !in d && a + [sep] + b == c + [sep] + d
    ensures a == c && b == d
  {
    var t := a + [sep] + b;
    assert t[|a|] == sep && t[|c|] == sep;
    assert forall i :: |a| < i < |t| ==> t[i] == b[i - |a| - 1];
    assert forall i :: |c| < i < |t| ==> t[i] == d[i - |c| - 1];
    assert |a| == |c|;
    assert a == t[..|a|] && b == t[|a| + 1..];
  }

  lemma FirstSeparatorTells(a: Text, b: Text, c: Text, d: Text, sep: Unit)
    requires sep !in a && sep !in c && a + [sep] + b == c + [sep] + d
    ensures a == c && b == d
  {
    var t := a + [sep] + b;
    assert t[|a|] == sep && t[|c|] == sep;
    assert forall i :: 0 <= i < |a| ==> t[i] == a[i];
    assert forall i :: 0 <= i < |c| ==> t[i] == c[i];
    assert |a| == |c|;
    assert b == t[|a| + 1..];
  }

  /** A base key, in its three parts. */
  function BaseText(owner: Text, model: Text, op: Text): Text {
    owner + [0x3A, 0x3A] + model + [0x2E] + op
  }

  /** A base key tells the owner, the model and the write. */
  lemma BaseTells(owner: Text, model: Text, op: Text, owner': Text, model': Text, op': Text)
    requires COLON !in model && COLON !in model'
    requires MountPrefixes.DOT !in op && MountPrefixes.DOT !in op'
    requires BaseText(owner, model, op) == BaseText(owner', model', op')
    ensures owner == owner' && model == model' && op == op'
  {
    var x, x' := owner + [COLON, COLON] + model, owner' + [COLON, COLON] + model';
    LastSeparatorTells(x, op, x', op', MountPrefixes.DOT);
    assert x == owner + [COLON] + [COLON] + model && x' == owner' + [COLON] + [COLON] + model';
    LastSeparatorTells(owner + [COLON], model, owner' + [COLON], model', COLON);
    assert (owner + [COLON])[..|owner|] == owner && (owner' + [COLON])[..|owner'|] == owner';
  }

  lemma WriteHasNoDot(op: Text)
    requires IsMutation(op)
    ensures MountPrefixes.DOT !in op
  {
    LettersHaveNoDot(Lit("create"));
    LettersHaveNoDot(Lit("upsert"));
    LettersHaveNoDot(Lit("update"));
    LettersHaveNoDot(Lit("delete"));
    LettersHaveNoDot(Lit("createMany"));
    LettersHaveNoDot(Lit("updateMany"));
    LettersHaveNoDot(Lit("deleteMany"));
    hide Lit;
  }

  lemma LettersHaveNoDot(word: Text)
    ensures (forall i :: 0 <= i < |word| ==> IsLetter(word[i])) ==> MountPrefixes.DOT !in word
  {}

  lemma BaseKeyIs(root: Node, a: Address, o: Options)
    requires IsSite(root, a, o)
    ensures var call := ReadCall(NodeAt(root, a), o.models).value;
            && BaseKey(root, a, o) == BaseText(OwnerFor(root, a, o), call.0, call.1)
            && MountPrefixes.DOT !in call.1
  {
    hide OwnerFor, ReadCall;
    WriteHasNoDot(ReadCall(NodeAt(root, a), o.models).value.1);
    assert Lit("::") == [COLON, COLON] && Lit(".") == [MountPrefixes.DOT];
  }

  // ---------------------------------------------------------------------
  // Owners
  // ---------------------------------------------------------------------

  /** The route a site belongs to; only routes files have any. */
  function RouteAt(root: Node, a: Address, o: Options): Option<(Text, Text)>
    requires Leads(root, a)
  {
    if o.area == Routes then RouteOwner(root, a) else None
  }

  /** A route path up to its first blank, taken as empty when it is the root of its
      router. */
  function OwnPath(path: Text): Text {
    var word := Split(path, 0x20)[0];
    if word == [0x2F] then [] else word
  }

  function NameOf(fn: Option<Text>): Text { if fn.Some? then fn.value else [] }

  /** A verb holds no blank and starts with a capital. */
  ghost predicate IsUpperVerb(verb: Text) { MutationSites.SPACE !in verb && verb != [] && 0x41 <= verb[0] <= 0x5A }

  lemma VerbIsUpper(n: Node)
    requires RouteOf(n).Some?
    ensures IsUpperVerb(RouteOf(n).value.0)
  {
    hide BraceParams;
    VerbLetters(n.callee.name);
    var v := Upper(n.callee.name);
    assert forall i :: 0 <= i < |v| ==> 0x41 <= v[i] <= 0x5A;
  }

  lemma VerbLetters(name: Text)
    requires IsVerb(name)
    ensures name != [] && forall i :: 0 <= i < |name| ==> 0x61 <= name[i] <= 0x7A
  {}

  lemma OwnerVerb(root: Node, a: Address)
    requires Leads(root, a) && RouteOwner(root, a).Some?
    ensures IsUpperVerb(RouteOwner(root, a).value.0)
  {
    hide RouteOf, Leads, NodeAt, RouteOwner;
    var k := RouteOwnerIsNearest(root, a);
    VerbIsUpper(NodeAt(root, a[..k]));
  }

  lemma FirstWordIs(path: Text)
    ensures OwnPath(path) == if FirstWord(path) == [0x2F] then [] else FirstWord(path)
  {
    hide IndexOf, Split;
    var i := IndexOf(path, 0x20);
    if i < |path| { SplitStep(path, 0x20); } else { assert path[..i] == path; SplitNothing(path, 0x20); }
  }

  /** The owner text of a site in a route. */
  lemma RouteOwnerText(root: Node, a: Address, o: Options)
    requires Leads(root, a) && RouteAt(root, a, o).Some?
    ensures var route := RouteAt(root, a, o).value;
            OwnerFor(root, a, o) == route.0 + [MutationSites.SPACE] + (BraceParams(o.mountPrefix) + OwnPath(route.1))
  {
    hide RouteOwner, FunctionOwner, BraceParams, FirstWord, OwnPath;
    FirstWordIs(RouteAt(root, a, o).value.1);
  }

  /** The owner text of any other site. */
  lemma FunctionOwnerText(root: Node, a: Address, o: Options)
    requires Leads(root, a) && RouteAt(root, a, o).None?
    ensures var name := NameOf(FunctionOwner(root, a));
            OwnerFor(root, a, o) == if name == [] then o.fileName else o.fileName + [COLON, COLON] + name
  {
    hide RouteOwner, FunctionOwner, BraceParams, FirstWord;
    assert Lit("::") == [COLON, COLON];
  }

  /** Two sites of a file belong to one route, or to none and to one function. */
  ghost predicate SameOwner(root: Node, a: Address, b: Address, o: Options)
    requires Leads(root, a) && Leads(root, b)
  {
    var r, s := RouteAt(root, a, o), RouteAt(root, b, o);
    if r.Some? && s.Some? then r.value.0 == s.value.0 && OwnPath(r.value.1) == OwnPath(s.value.1)
    else r.None? && s.None? && NameOf(FunctionOwner(root, a)) == NameOf(FunctionOwner(root, b))
  }

  /** The file is not named like a verb: it does not start with a capital. */
  predicate StartsSmall(fileName: Text) { fileName != [] && !(0x41 <= fileName[0] <= 0x5A) }

  /** Owner texts are equal exactly for one route, or none and one function. */
  lemma OwnersTell(root: Node, a: Address, b: Address, o: Options)
    requires Leads(root, a) && Leads(root, b)
    requires StartsSmall(o.fileName)
    ensures OwnerFor(root, a, o) == OwnerFor(root, b, o) <==> SameOwner(root, a, b, o)
  {
    hide OwnerFor, Leads, RouteOwner, FunctionOwner, BraceParams, OwnPath, NameOf;
    var r, s := RouteAt(root, a, o), RouteAt(root, b, o);
    if r.Some? { RouteOwnerText(root, a, o); OwnerVerb(root, a); } else { FunctionOwnerText(root, a, o); }
    if s.Some? { RouteOwnerText(root, b, o); OwnerVerb(root, b); } else { FunctionOwnerText(root, b, o); }
    if r.Some? && s.Some? {
      RoutesTell(r.value.0, OwnPath(r.value.1), s.value.0, OwnPath(s.value.1), BraceParams(o.mountPrefix));
    } else if r.None? && s.None? {
      NamesTell(o.fileName, NameOf(FunctionOwner(root, a)), NameOf(FunctionOwner(root, b)));
    } else if r.Some? {
      RouteIsNoFile(r.value.0, BraceParams(o.mountPrefix) + OwnPath(r.value.1), o.fileName,
                    NameOf(FunctionOwner(root, b)));
    } else {
      RouteIsNoFile(s.value.0, BraceParams(o.mountPrefix) + OwnPath(s.value.1), o.fileName,
                    NameOf(FunctionOwner(root, a)));
    }
  }

  lemma RoutesTell(verb: Text, path: Text, verb': Text, path': Text, mount: Text)
    requires IsUpperVerb(verb) && IsUpperVerb(verb')
    ensures verb + [MutationSites.SPACE] + (mount + path) == verb' + [MutationSites.SPACE] + (mount + path')
       <==> verb == verb' && path == path'
  {
    if verb + [MutationSites.SPACE] + (mount + path) == verb' + [MutationSites.SPACE] + (mount + path') {
      FirstSeparatorTells(verb, mount + path, verb', mount + path', MutationSites.SPACE);
      assert (mount + path)[|mount|..] == path && (mount + path')[|mount|..] == path';
    }
  }

  lemma RouteIsNoFile(verb: Text, path: Text, file: Text, name: Text)
    requires IsUpperVerb(verb) && StartsSmall(file)
    ensures verb + [MutationSites.SPACE] + path != if name == [] then file else file + [COLON, COLON] + name
  {
    assert (verb + [MutationSites.SPACE] + path)[0] == verb[0];
    assert (file + [COLON, COLON] + name)[0] == file[0];
  }

  lemma NamesTell(file: Text, name: Text, name': Text)
    ensures (if name == [] then file else file + [COLON, COLON] + name)
            == (if name' == [] then file else file + [COLON, COLON] + name')
       <==> name == name'
  {
    if name != [] && name' != [] && file + [COLON, COLON] + name == file + [COLON, COLON] + name' {
      assert (file + [COLON, COLON] + name)[|file| + 2..] == name;
      assert (file + [COLON, COLON] + name')[|file| + 2..] == name';
    }
  }

  /** The call a site is. */
  function CallAt(root: Node, a: Address, o: Options): (Text, Text)
    requires IsSite(root, a, o)
  {
    ReadCall(NodeAt(root, a), o.models).value
  }

  /** Two sites of a file have one base key exactly when they belong to one route,
      or to no route and one function, and write the same model in the same way. A
      property name holds no colon. */
  lemma BasesTellSites(root: Node, a: Address, b: Address, o: Options)
    requires IsSite(root, a, o) && IsSite(root, b, o)
    requires COLON !in CallAt(root, a, o).0 && COLON !in CallAt(root, b, o).0
    requires StartsSmall(o.fileName)
    ensures BaseKey(root, a, o) == BaseKey(root, b, o) <==>
              SameOwner(root, a, b, o) && CallAt(root, a, o) == CallAt(root, b, o)
  {
    hide BaseKey, OwnerFor, SameOwner, ReadCall, Leads, BaseText;
    BaseKeyIs(root, a, o);
    BaseKeyIs(root, b, o);
    OwnersTell(root, a, b, o);
    var c, d := CallAt(root, a, o), CallAt(root, b, o);
    if BaseKey(root, a, o) == BaseKey(root, b, o) {
      BaseTells(OwnerFor(root, a, o), c.0, c.1, OwnerFor(root, b, o), d.0, d.1);
    }
  }

  // ---------------------------------------------------------------------
  // The written form
  // ---------------------------------------------------------------------

  /** The route call at `a[..k]` is the nearest one around `a`. */
  ghost predicate NearestRoute(root: Node, a: Address, k: nat, verb: Text, path: Text) {
    && Leads(root, a) && k <= |a| && Leads(root, a[..k])
    && IsRouteCall(NodeAt(root, a[..k]), verb, path)
    && forall j :: k < j <= |a| && Leads(root, a[..j]) ==>
         forall v, p :: !IsRouteCall(NodeAt(root, a[..j]), v, p)
  }

  lemma NearestOwns(root: Node, a: Address, k: nat, verb: Text, path: Text)
    requires NearestRoute(root, a, k, verb, path)
    ensures RouteOwner(root, a) == Some((Upper(verb), BraceParams(path)))
  {
    hide RouteOf, IsRouteCall, Leads, NodeAt, RouteOwner, BraceParams, Upper;
    var near := RouteOwnerIsNearest(root, a);
    RouteOfExactly(NodeAt(root, a[..k]), verb, path);
    if near > k { RouteOfExactly(NodeAt(root, a[..near]), verb, path); }
  }

  /** What the key writes for a route path: nothing for the root of its router. */
  function OwnText(own: seq<Segment>, slash: bool): Text {
    if own == [] then [] else ContractText(own) + if slash then [MountPrefixes.SLASH] else []
  }

  lemma OwnPathIs(own: seq<Segment>, slash: bool)
    requires Written(own)
    ensures var path := BraceParams(PathWith(own, slash));
            OwnPath(path) == OwnText(own, slash)
  {
    SegmentsBraced(own, if slash then [MountPrefixes.SLASH] else []);
    NothingBraced();
    PathTextStarts(own);
    ContractHasNoBlank(own);
    if own != [] { ContractEnds(own); }
    hide ContractText, PathText, Written, Split;
    var end := if slash then [MountPrefixes.SLASH] else [];
    assert BraceParams(PathWith(own, slash)) == ContractText(own) + end;
    SplitNothing(ContractText(own) + end, 0x20);
  }

  lemma {:induction false} ContractHasNoBlank(segments: seq<Segment>)
    requires Written(segments)
    ensures MutationSites.SPACE !in ContractText(segments)
    decreases |segments|
  {
    if segments == [] { return; }
    var name := segments[0].name;
    assert MutationSites.SPACE !in name by { NameHasNoBlank(segments); }
    ContractTextStep(segments);
    WrittenStep(segments);
    ContractHasNoBlank(segments[1..]);
    hide ContractText;
  }

  lemma NameHasNoBlank(segments: seq<Segment>)
    requires Written(segments) && segments != []
    ensures MutationSites.SPACE !in segments[0].name
  {
    assert !IsPlainUnit(MutationSites.SPACE) && !IsWord(MutationSites.SPACE);
    hide IsPlainUnit, IsWord;
  }

  lemma MountIs(mount: seq<Segment>)
    requires Written(mount)
    ensures BraceParams(PathText(mount)) == ContractText(mount)
  {
    SegmentsBraced(mount, []);
    NothingBraced();
    hide ContractText, PathText, Written;
    assert PathText(mount) + [] == PathText(mount) && ContractText(mount) + [] == ContractText(mount);
  }

  /** In a routes file mounted at a path of segments, a write inside a route of
      segments has the verb, the whole contract path, the model and the write for
      its base key, as in `POST /bookmarks/artists/{artistId}::bookmarkArtist.create`. */
  lemma RouteSiteKey(
    root: Node, a: Address, o: Options, k: nat, verb: Text, mount: seq<Segment>, own: seq<Segment>, slash: bool)
    requires IsSite(root, a, o) && o.area == Routes
    requires Written(mount) && Written(own) && o.mountPrefix == PathText(mount)
    requires NearestRoute(root, a, k, verb, PathWith(own, slash))
    ensures var call := CallAt(root, a, o);
            BaseKey(root, a, o)
               == BaseText(Upper(verb) + [0x20] + (ContractText(mount) + OwnText(own, slash)),
                           call.0, call.1)
  {
    hide *;
    SiteLeads(root, a, o);
    BaseKeyIs(root, a, o);
    NearestOwns(root, a, k, verb, PathWith(own, slash));
    RouteAtIs(root, a, o);
    OwnPathIs(own, slash);
    MountIs(mount);
    RouteOwnerText(root, a, o);
    CallIs(root, a, o);
    BlankIs();
  }

  lemma BlankIs()
    ensures MutationSites.SPACE == 0x20
  {}

  lemma SiteLeads(root: Node, a: Address, o: Options)
    requires IsSite(root, a, o)
    ensures Leads(root, a) && ReadCall(NodeAt(root, a), o.models).Some?
  {}

  lemma CallIs(root: Node, a: Address, o: Options)
    requires IsSite(root, a, o)
    ensures Leads(root, a) && ReadCall(NodeAt(root, a), o.models).Some?
    ensures CallAt(root, a, o) == ReadCall(NodeAt(root, a), o.models).value
  {
    hide ReadCall;
  }

  lemma RouteAtIs(root: Node, a: Address, o: Options)
    requires Leads(root, a)
    ensures RouteAt(root, a, o) == if o.area == Routes then RouteOwner(root, a) else None
  {
    hide RouteOwner;
  }

  /** Elsewhere the base key is the file, the nearest name that is bound around the
      site, if any, the model and the write. */
  lemma FunctionSiteKey(root: Node, a: Address, o: Options)
    requires IsSite(root, a, o) && RouteAt(root, a, o).None?
    ensures var call, name := CallAt(root, a, o), NameOf(FunctionOwner(root, a));
            BaseKey(root, a, o)
            == BaseText(if name == [] then o.fileName else o.fileName + [COLON, COLON] + name, call.0, call.1)
  {
    hide OwnerFor, BaseText, ReadCall, FunctionOwner;
    BaseKeyIs(root, a, o);
    FunctionOwnerText(root, a, o);
  }
}
