/**
 The collected sites as a plain reading of the syntax tree
 (`src/lib/prismaMutationSites.ts`).
 */
module MutationCalls {
  import opened Addresses
  import opened Texts
  import opened MutationSites
  import opened MutationKeys
  import opened MutationOwners

  /** A write call of a known model: the model and the write. */
  type Write = (Text, Text)

  ghost function OwnWrite(n: Node, models: Models): seq<Write> {
    match n
    case Call(Access(Access(_, model), op), _) =>
      if op in WRITES && (model in models.facts || model in models.inherited) then [(model, op)] else []
    case _ => []
  }

  /** The writes in a tree, each before those inside it, the parts from left to right. */
  ghost function WritesIn(n: Node, models: Models): seq<Write>
    decreases n, 1, 0
  {
    OwnWrite(n, models)
    + match n
      case Call(callee, args) => WritesIn(callee, models) + WritesFrom(n, args, 0, models)
      case Access(receiver, _) => WritesIn(receiver, models)
      case Try(block, handler, finalizer) =>
        WritesIn(block, models)
        + (match handler case Some(h) => WritesIn(h, models) case None => [])
        + (match finalizer case Some(f) => WritesIn(f, models) case None => [])
      case Catch(_, parts) => WritesFrom(n, parts, 0, models)
      case Function(_, parts) => WritesFrom(n, parts, 0, models)
      case Method(_, parts) => WritesFrom(n, parts, 0, models)
      case Variable(_, parts) => WritesFrom(n, parts, 0, models)
      case Other(parts) => WritesFrom(n, parts, 0, models)
      case Identifier(_) => []
      case StringLiteral(_) => []
  }

  /** The writes in the parts of `n` from the `i`-th on. */
  ghost function WritesFrom(n: Node, parts: seq<Node>, i: nat, models: Models): seq<Write>
    requires i <= |parts| && forall k :: 0 <= k < |parts| ==> parts[k] < n
    decreases n, 0, |parts| - i
  {
    if i == |parts| then [] else WritesIn(parts[i], models) + WritesFrom(n, parts, i + 1, models)
  }

  lemma {:induction false} PartsLater(n: Node, a: seq<Node>, b: seq<Node>, i: nat, j: nat, models: Models)
    requires forall k :: 0 <= k < |a| ==> a[k] < n
    requires forall k :: 0 <= k < |b| ==> b[k] < n
    requires i <= |a| && j <= |b| && a[i..] == b[j..]
    ensures WritesFrom(n, a, i, models) == WritesFrom(n, b, j, models)
    decreases |a| - i
  {
    hide WritesIn;
    assert |a| - i == |a[i..]| == |b[j..]| == |b| - j;
    if i < |a| {
      assert a[i] == a[i..][0] && b[j] == b[j..][0];
      assert a[i + 1..] == a[i..][1..] && b[j + 1..] == b[j..][1..];
      PartsLater(n, a, b, i + 1, j + 1, models);
    }
  }

  lemma FirstPart(n: Node, parts: seq<Node>, i: nat, models: Models)
    requires i < |parts| && forall k :: 0 <= k < |parts| ==> parts[k] < n
    ensures WritesFrom(n, parts, i, models) == WritesIn(parts[i], models) + WritesFrom(n, parts, i + 1, models)
  {
    hide WritesIn;
  }

  lemma NoParts(n: Node, parts: seq<Node>, models: Models)
    requires forall k :: 0 <= k < |parts| ==> parts[k] < n
    ensures WritesFrom(n, parts, |parts|, models) == []
  {}

  /** The writes of a node are its own and those of its children. */
  lemma WritesAreChildrens(n: Node, models: Models)
    ensures WritesIn(n, models) == OwnWrite(n, models) + WritesFrom(n, Children(n), 0, models)
  {
    match n {
      case Call(callee, args) => CallWrites(n, models);
      case Access(receiver, _) => AccessWrites(n, models);
      case Try(block, handler, finalizer) => TryWrites(n, models);
      case _ =>
    }
  }

  lemma CallWrites(n: Node, models: Models)
    requires n.Call?
    ensures WritesIn(n, models) == OwnWrite(n, models) + WritesFrom(n, Children(n), 0, models)
  {
    var parts := Children(n);
    assert WritesIn(n, models) == OwnWrite(n, models) + (WritesIn(n.callee, models) + WritesFrom(n, n.args, 0, models));
    hide WritesIn, WritesFrom, OwnWrite;
    assert parts[1..] == n.args[0..];
    FirstPart(n, parts, 0, models);
    PartsLater(n, parts, n.args, 1, 0, models);
  }

  lemma AccessWrites(n: Node, models: Models)
    requires n.Access?
    ensures WritesIn(n, models) == OwnWrite(n, models) + WritesFrom(n, Children(n), 0, models)
  {
    assert WritesIn(n, models) == OwnWrite(n, models) + WritesIn(n.receiver, models);
    hide WritesIn, WritesFrom, OwnWrite;
    FirstPart(n, Children(n), 0, models);
    NoParts(n, Children(n), models);
    assert WritesIn(n.receiver, models) + [] == WritesIn(n.receiver, models);
  }

  ghost function OptionalWrites(n: Option<Node>, models: Models): seq<Write> {
    match n
    case Some(x) => WritesIn(x, models)
    case None => []
  }

  lemma TryParts(n: Node, models: Models)
    requires n.Try?
    ensures WritesIn(n, models)
         == OwnWrite(n, models)
            + (WritesIn(n.block, models) + OptionalWrites(n.handler, models) + OptionalWrites(n.finalizer, models))
    ensures OwnWrite(n, models) == []
  {}

  lemma TryChildren(n: Node)
    requires n.Try?
    ensures var parts, handlers := Children(n), if n.handler.Some? then 1 else 0;
            && |parts| == 1 + handlers + (if n.finalizer.Some? then 1 else 0)
            && parts[0] == n.block
            && (n.handler.Some? ==> parts[1] == n.handler.value)
            && (n.finalizer.Some? ==> parts[1 + handlers] == n.finalizer.value)
  {}

  lemma OptionalPart(n: Node, part: Option<Node>, parts: seq<Node>, i: nat, models: Models)
    requires forall k :: 0 <= k < |parts| ==> parts[k] < n
    requires i <= |parts| && (part.Some? ==> i < |parts| && parts[i] == part.value)
    ensures WritesFrom(n, parts, i, models)
         == OptionalWrites(part, models) + WritesFrom(n, parts, i + if part.Some? then 1 else 0, models)
  {
    hide WritesIn, WritesFrom;
    if part.Some? { FirstPart(n, parts, i, models); }
  }

  lemma TryWrites(n: Node, models: Models)
    requires n.Try?
    ensures WritesIn(n, models) == OwnWrite(n, models) + WritesFrom(n, Children(n), 0, models)
  {
    hide *;
    TryParts(n, models);
    TryChildren(n);
    var parts := Children(n);
    var i := if n.handler.Some? then 2 else 1;
    FirstPart(n, parts, 0, models);
    OptionalPart(n, n.handler, parts, 1, models);
    OptionalPart(n, n.finalizer, parts, i, models);
    NoParts(n, parts, models);
    var block, handler, finalizer :=
      WritesIn(n.block, models), OptionalWrites(n.handler, models), OptionalWrites(n.finalizer, models);
    AppendNothing(finalizer);
    Regrouped(block, handler, finalizer);
  }

  lemma Regrouped(a: seq<Write>, b: seq<Write>, c: seq<Write>)
    ensures [] + (a + (b + c)) == [] + (a + b + c)
  {}

  lemma AppendNothing(s: seq<Write>)
    ensures s + [] == s
  {}

  // ---------------------------------------------------------------------
  // The sites
  // ---------------------------------------------------------------------

  /** The writes of some sites. */
  ghost function WritesAt(root: Node, sites: seq<Address>, o: Options): (r: seq<Write>)
    requires forall k :: 0 <= k < |sites| ==> IsSite(root, sites[k], o)
    ensures |r| == |sites|
    ensures forall k :: 0 <= k < |sites| ==> r[k] == CallAt(root, sites[k], o)
  {
    seq(|sites|, k requires 0 <= k < |sites| => CallAt(root, sites[k], o))
  }

  lemma OwnIsRead(n: Node, models: Models)
    ensures OwnWrite(n, models) == if ReadCall(n, models).Some? then [ReadCall(n, models).value] else []
  {
    hide Lit;
    forall op ensures IsMutation(op) <==> op in WRITES {}
  }

  ghost predicate AllSites(root: Node, sites: seq<Address>, o: Options) {
    forall k :: 0 <= k < |sites| ==> IsSite(root, sites[k], o)
  }

  lemma WritesJoin(root: Node, a: seq<Address>, b: seq<Address>, o: Options)
    requires AllSites(root, a, o) && AllSites(root, b, o)
    ensures AllSites(root, a + b, o)
    ensures WritesAt(root, a + b, o) == WritesAt(root, a, o) + WritesAt(root, b, o)
  {
    hide IsSite, CallAt;
  }

  lemma OwnSite(root: Node, a: Address, o: Options)
    requires Leads(root, a)
    ensures var own := if IsSite(root, a, o) then [a] else [];
            AllSites(root, own, o) && WritesAt(root, own, o) == OwnWrite(NodeAt(root, a), o.models)
  {
    OwnIsRead(NodeAt(root, a), o.models);
    hide ReadCall, OwnWrite;
  }

  /** The sites under a node are the writes in it, one for one. */
  lemma {:induction false} SitesAreWrites(root: Node, a: Address, o: Options)
    requires Leads(root, a)
    ensures AllSites(root, SitesUnder(root, a, o), o)
    ensures WritesAt(root, SitesUnder(root, a, o), o) == WritesIn(NodeAt(root, a), o.models)
    decreases NodeAt(root, a), 1, 0
  {
    hide *;
    UnderSplits(root, a, o);
    var own := if IsSite(root, a, o) then [a] else [];
    OwnSite(root, a, o);
    ChildSitesAreWrites(root, a, 0, o);
    WritesJoin(root, own, SitesFrom(root, a, 0, o), o);
    WritesAreChildrens(NodeAt(root, a), o.models);
  }

  lemma {:induction false} ChildSitesAreWrites(root: Node, a: Address, i: nat, o: Options)
    requires Leads(root, a) && i <= |Children(NodeAt(root, a))|
    ensures AllSites(root, SitesFrom(root, a, i, o), o)
    ensures WritesAt(root, SitesFrom(root, a, i, o), o)
         == WritesFrom(NodeAt(root, a), Children(NodeAt(root, a)), i, o.models)
    decreases NodeAt(root, a), 0, |Children(NodeAt(root, a))| - i
  {
    hide *;
    var n, parts := NodeAt(root, a), Children(NodeAt(root, a));
    if i == |parts| {
      FromEnds(root, a, o);
      NoParts(n, parts, o.models);
      NoSites(root, o);
    } else {
      ChildLeads(root, a, i);
      FromSplits(root, a, i, o);
      FirstPart(n, parts, i, o.models);
      SitesAreWrites(root, a + [i], o);
      ChildSitesAreWrites(root, a, i + 1, o);
      WritesJoin(root, SitesUnder(root, a + [i], o), SitesFrom(root, a, i + 1, o), o);
    }
  }

  lemma NoSites(root: Node, o: Options)
    ensures AllSites(root, [], o) && WritesAt(root, [], o) == []
  {}

  /** The sites of a file are the writes in its tree, in the order of the text: one
      site for each, with its model and its write. */
  lemma CollectedAreWrites(root: Node, o: Options)
    ensures |Collected(root, o)| == |WritesIn(root, o.models)|
    ensures forall k :: 0 <= k < |Collected(root, o)| ==>
              (Collected(root, o)[k].model, Collected(root, o)[k].op) == WritesIn(root, o.models)[k]
  {
    FileSitesAreSites(root, o);
    SitesAreWrites(root, [], o);
    hide SitesUnder, IsSite, WritesIn, BaseKey, Inside, ArmFor;
    assert NodeAt(root, []) == root;
  }
}
