/**
 The failure-coverage ratchet: every registered operation is classified, and the
 classification is not stale (`src/lib/openapiFailureCoverage.ts`).
 */
module FailureCoverage {
  import opened ExpressRoutes
  import opened RouteGates
  import opened Texts

  const SPACE: Unit := 0x20

  /** For each registered `METHOD /path` key, its declared codes. */
  type Declared = map<Text, set<Text>>

  function KeyOf(op: Operation): Text { op.verb + [SPACE] + op.path }

  /** A key tells the verb and the path; a verb holds no blank. */
  lemma KeyTells(p: Operation, q: Operation)
    requires SPACE !in p.verb && SPACE !in q.verb
    ensures KeyOf(p) == KeyOf(q) <==> p.verb == q.verb && p.path == q.path
    ensures KeyOf(p) == p.verb + [0x20] + p.path
  {
    KeyParts(p);
    KeyParts(q);
    hide KeyOf;
  }

  lemma KeyParts(op: Operation)
    requires SPACE !in op.verb
    ensures var k, n := KeyOf(op), IndexOf(KeyOf(op), SPACE);
            n < |k| && k[..n] == op.verb && k[n + 1..] == op.path
  {
    hide IndexOf;
    var k := KeyOf(op);
    assert k[..|op.verb|] == op.verb && k[|op.verb| + 1..] == op.path;
    IndexOfUnique(k, SPACE, |op.verb|);
  }

  predicate IsClientCode(code: Text) { code != [] && code[0] == 0x34 }

  /** Is the code one that the operation's own gates account for? */
  ghost predicate IsImplied(op: Operation, code: Text) {
    exists n :: IsExpected(op.gates, op.verb, n) && code == Decimal(n)
  }

  /** Every declared 4xx code comes from the gates. */
  ghost predicate IsSilent(op: Operation, codes: set<Text>) {
    forall c :: c in codes && c != [] && c[0] == 0x34 ==> IsImplied(op, c)
  }

  /** `gateIndependentCodes(...).length === 0` */
  method DeclaresNothing(op: Operation, codes: set<Text>) returns (r: bool)
    ensures r == IsSilent(op, codes)
  {
    var expected := ExpectedCodes(op.gates, op.verb);
    var implied := set i | 0 <= i < |expected| :: Decimal(expected[i]);
    forall c ensures c in implied <==> IsImplied(op, c) {
      if c in implied {
        var i :| 0 <= i < |expected| && c == Decimal(expected[i]);
        assert expected[i] in expected;
      }
      if IsImplied(op, c) {
        var n :| IsExpected(op.gates, op.verb, n) && c == Decimal(n);
        assert n in expected;
      }
    }
    var own := set c | c in codes && IsClientCode(c) && c !in implied;
    r := own == {};
    NoneLeft(op, codes, own);
  }

  /** With nothing left over, the gates account for every declared 4xx code. */
  lemma NoneLeft(op: Operation, codes: set<Text>, own: set<Text>)
    requires forall c :: c in own <==> c in codes && c != [] && c[0] == 0x34 && !IsImplied(op, c)
    ensures own == {} <==> IsSilent(op, codes)
  {
    hide IsImplied;
    if own != {} {
      var c :| c in own;
    }
  }

  /** The result of the loop over the live routes. */
  datatype Sweep = Sweep(unclassified: seq<Text>, staleUnreviewed: seq<Text>, staleSilent: seq<Text>, documented: nat)

  ghost predicate Registered(declared: Declared, op: Operation) { KeyOf(op) in declared }

  /** A registered route that declares nothing of its own and is on neither list. */
  ghost predicate Unclassified(declared: Declared, listed: set<Text>, op: Operation) {
    Registered(declared, op) && IsSilent(op, declared[KeyOf(op)]) && KeyOf(op) !in listed
  }

  /** A listed route that by now declares something of its own. */
  ghost predicate Stale(declared: Declared, list: set<Text>, op: Operation) {
    Registered(declared, op) && !IsSilent(op, declared[KeyOf(op)]) && KeyOf(op) in list
  }

  /** How many registered routes have a 4xx code of their own. */
  ghost function Documented(routes: seq<Operation>, declared: Declared): nat {
    if routes == [] then 0
    else
      var op := routes[|routes| - 1];
      Documented(routes[..|routes| - 1], declared)
      + if Registered(declared, op) && !IsSilent(op, declared[KeyOf(op)]) then 1 else 0
  }

  ghost function UnclassifiedIn(declared: Declared, listed: set<Text>): Operation -> bool {
    op => Unclassified(declared, listed, op)
  }

  ghost function StaleIn(declared: Declared, list: set<Text>): Operation -> bool {
    op => Stale(declared, list, op)
  }

  /** The keys of the routes `p` picks, in route order. */
  ghost function KeysWhere(routes: seq<Operation>, p: Operation -> bool): seq<Text> {
    if routes == [] then []
    else
      var op := routes[|routes| - 1];
      KeysWhere(routes[..|routes| - 1], p) + if p(op) then [KeyOf(op)] else []
  }

  ghost predicate IsKeyWhere(routes: seq<Operation>, p: Operation -> bool, k: Text) {
    exists op :: op in routes && p(op) && KeyOf(op) == k
  }

  lemma {:induction false} KeysWhereMeans(routes: seq<Operation>, p: Operation -> bool, k: Text)
    ensures k in KeysWhere(routes, p) <==> IsKeyWhere(routes, p, k)
  {
    hide KeyOf;
    if routes != [] {
      var front, op := routes[..|routes| - 1], routes[|routes| - 1];
      KeysWhereMeans(front, p, k);
      assert routes == front + [op];
      assert IsKeyWhere(routes, p, k) <==> IsKeyWhere(front, p, k) || (p(op) && KeyOf(op) == k);
    }
  }

  /** The loop over the live routes. */
  method SweepLiveRoutes(routes: seq<Operation>, declared: Declared, unreviewed: set<Text>, silent: set<Text>)
    returns (out: Sweep)
    ensures out.unclassified == KeysWhere(routes, UnclassifiedIn(declared, unreviewed + silent))
    ensures out.staleUnreviewed == KeysWhere(routes, StaleIn(declared, unreviewed))
    ensures out.staleSilent == KeysWhere(routes, StaleIn(declared, silent))
    ensures out.documented == Documented(routes, declared)
  {
    hide IsSilent, KeyOf;
    out := Sweep([], [], [], 0);
    var i := 0;
    assert routes[..0] == [];
    while i < |routes|
      invariant 0 <= i <= |routes|
      invariant out.unclassified == KeysWhere(routes[..i], UnclassifiedIn(declared, unreviewed + silent))
      invariant out.staleUnreviewed == KeysWhere(routes[..i], StaleIn(declared, unreviewed))
      invariant out.staleSilent == KeysWhere(routes[..i], StaleIn(declared, silent))
      invariant out.documented == Documented(routes[..i], declared)
    {
      var route := routes[i];
      assert routes[..i + 1][..i] == routes[..i];
      i := i + 1;
      var k := KeyOf(route);
      if k in declared {
        var nothing := DeclaresNothing(route, declared[k]);
        if nothing {
          if k !in unreviewed && k !in silent { out := out.(unclassified := out.unclassified + [k]); }
        } else {
          out := out.(documented := out.documented + 1);
          if k in unreviewed { out := out.(staleUnreviewed := out.staleUnreviewed + [k]); }
          if k in silent { out := out.(staleSilent := out.staleSilent + [k]); }
        }
      }
    }
    assert routes[..i] == routes;
  }

  /** Does some route carry this key? */
  ghost predicate Live(routes: seq<Operation>, k: Text) {
    exists op :: op in routes && KeyOf(op) == k
  }

  /** The classification is exact: each registered route is on a list exactly when
      all its declared 4xx codes come from its gates, and every listed key is live. */
  ghost predicate Exact(routes: seq<Operation>, declared: Declared, unreviewed: set<Text>, silent: set<Text>) {
    && (forall op :: op in routes && Registered(declared, op) ==>
          (KeyOf(op) in unreviewed + silent <==> IsSilent(op, declared[KeyOf(op)])))
    && (forall k :: k in unreviewed + silent ==> Live(routes, k))
  }

  /** A listed key is out of date: its route is gone, or declares something by now. */
  ghost predicate OutOfDate(routes: seq<Operation>, declared: Declared, list: set<Text>, k: Text) {
    (k in list && !Live(routes, k)) || IsKeyWhere(routes, StaleIn(declared, list), k)
  }

  /** The three failing lists, as sets. */
  datatype Findings = Findings(unclassified: set<Text>, staleUnreviewed: set<Text>, staleSilent: set<Text>, ok: bool)

  /** `checkFailureCoverage` */
  method CheckFailureCoverage(routes: seq<Operation>, declared: Declared, unreviewed: set<Text>, silent: set<Text>)
    returns (r: Findings)
    ensures forall k :: k in r.unclassified <==> IsKeyWhere(routes, UnclassifiedIn(declared, unreviewed + silent), k)
    ensures forall k :: k in r.staleUnreviewed <==> OutOfDate(routes, declared, unreviewed, k)
    ensures forall k :: k in r.staleSilent <==> OutOfDate(routes, declared, silent, k)
    ensures r.ok == Exact(routes, declared, unreviewed, silent)
  {
    hide IsSilent, KeyOf, Documented, IsKeyWhere, UnclassifiedIn, StaleIn, Exact;
    var live := set op | op in routes :: KeyOf(op);
    var swept := SweepLiveRoutes(routes, declared, unreviewed, silent);
    var unclassified := set k | k in swept.unclassified;
    var staleUnreviewed := (set k | k in swept.staleUnreviewed) + DeadEntries(unreviewed, live);
    var staleSilent := (set k | k in swept.staleSilent) + DeadEntries(silent, live);
    r := Findings(unclassified, staleUnreviewed, staleSilent,
                  unclassified == {} && staleUnreviewed == {} && staleSilent == {});
    forall k ensures k in live <==> Live(routes, k) {}
    forall k ensures k in unclassified <==> IsKeyWhere(routes, UnclassifiedIn(declared, unreviewed + silent), k) {
      KeysWhereMeans(routes, UnclassifiedIn(declared, unreviewed + silent), k);
    }
    forall k ensures k in staleUnreviewed <==> OutOfDate(routes, declared, unreviewed, k) {
      KeysWhereMeans(routes, StaleIn(declared, unreviewed), k);
    }
    forall k ensures k in staleSilent <==> OutOfDate(routes, declared, silent, k) {
      KeysWhereMeans(routes, StaleIn(declared, silent), k);
    }
    NothingFoundIffExact(routes, declared, unreviewed, silent);
  }

  /** `deadEntries` */
  function DeadEntries(list: set<Text>, live: set<Text>): set<Text> {
    set k | k in list && k !in live
  }

  /** Three empty lists are exactly an exact classification. */
  lemma NothingFoundIffExact(routes: seq<Operation>, declared: Declared, unreviewed: set<Text>, silent: set<Text>)
    ensures Exact(routes, declared, unreviewed, silent)
        <==>
            && (forall k :: !IsKeyWhere(routes, UnclassifiedIn(declared, unreviewed + silent), k))
            && (forall k :: !OutOfDate(routes, declared, unreviewed, k))
            && (forall k :: !OutOfDate(routes, declared, silent, k))
  {
    hide IsSilent, KeyOf, IsKeyWhere, UnclassifiedIn, StaleIn, Live;
    NoneMeans(routes, UnclassifiedIn(declared, unreviewed + silent));
    NoneMeans(routes, StaleIn(declared, unreviewed));
    NoneMeans(routes, StaleIn(declared, silent));
    ListedMeans(routes, declared, unreviewed, silent);
    NoneOutOfDate(routes, declared, unreviewed);
    NoneOutOfDate(routes, declared, silent);
  }

  lemma NoneOutOfDate(routes: seq<Operation>, declared: Declared, list: set<Text>)
    ensures (forall k :: !OutOfDate(routes, declared, list, k)) <==>
              (forall k :: k in list ==> Live(routes, k))
                  && (forall k :: !IsKeyWhere(routes, StaleIn(declared, list), k))
  {
    hide Live, IsKeyWhere, StaleIn;
    forall k ensures OutOfDate(routes, declared, list, k) <==>
                       !(k in list ==> Live(routes, k)) || IsKeyWhere(routes, StaleIn(declared, list), k) {}
    if forall k :: !OutOfDate(routes, declared, list, k) {
      forall k | k in list ensures Live(routes, k) {
        assert !OutOfDate(routes, declared, list, k);
      }
      forall k ensures !IsKeyWhere(routes, StaleIn(declared, list), k) {
        assert !OutOfDate(routes, declared, list, k);
      }
    }
  }

  lemma NoneMeans(routes: seq<Operation>, p: Operation -> bool)
    ensures (forall k :: !IsKeyWhere(routes, p, k)) <==> forall op :: op in routes ==> !p(op)
  {
    hide KeyOf;
    forall op | op in routes && p(op) ensures IsKeyWhere(routes, p, KeyOf(op)) {}
  }

  lemma ListedMeans(routes: seq<Operation>, declared: Declared, unreviewed: set<Text>, silent: set<Text>)
    ensures (forall op :: op in routes && Registered(declared, op) ==>
               (KeyOf(op) in unreviewed + silent <==> IsSilent(op, declared[KeyOf(op)])))
        <==>
            && (forall op :: op in routes ==> !UnclassifiedIn(declared, unreviewed + silent)(op))
            && (forall op :: op in routes ==> !StaleIn(declared, unreviewed)(op))
            && (forall op :: op in routes ==> !StaleIn(declared, silent)(op))
  {
    hide IsSilent, KeyOf;
    forall op | op in routes && Registered(declared, op)
      ensures (KeyOf(op) in unreviewed + silent <==> IsSilent(op, declared[KeyOf(op)])) <==>
                !UnclassifiedIn(declared, unreviewed + silent)(op) && !StaleIn(declared, unreviewed)(op)
                    && !StaleIn(declared, silent)(op)
    {}
  }
}
