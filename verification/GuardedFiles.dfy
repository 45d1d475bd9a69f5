/**
 Which sites of a file fail the guard gate, told from its syntax tree
 (`src/lib/prismaMutationSites.ts`, `src/lib/prismaGuardCoverage.ts`).
 */
module GuardedFiles {
  import opened Addresses
  import opened ParamPaths
  import opened Texts
  import opened MutationSites
  import opened MutationKeys
  import opened MutationOwners
  import opened GuardCoverage

  // ---------------------------------------------------------------------
  // Guards
  // ---------------------------------------------------------------------

  const CODES: set<Text> :=
    {Lit("P2002"), Lit("P2003"), Lit("P2025"), Lit("PrismaClientKnownRequestError"), Lit("translatePrismaError")}

  /** The `j`-th step to `a` goes into the block of a `try` whose `catch` mentions
      one of the codes. */
  ghost predicate StepsIntoGuard(root: Node, a: Address, j: nat)
    requires Leads(root, a) && j < |a|
  {
    && Leads(root, a[..j])
    && var n := NodeAt(root, a[..j]);
    && n.Try? && a[j] == 0
    && n.handler.Some? && n.handler.value.Catch?
    && exists code :: code in CODES && Includes(n.handler.value.clause, code)
  }

  lemma MentionsCode(text: Text)
    ensures Translates(text) <==> exists code :: code in CODES && Includes(text, code)
  {
    hide Lit, Includes;
  }

  lemma GuardStep(root: Node, a: Address)
    requires Leads(root, a) && a != [] && Leads(root, a[..|a| - 1])
    ensures Climbed(root, a) <==> Climbed(root, a[..|a| - 1]) || StepsIntoGuard(root, a, |a| - 1)
  {
    hide Leads, NodeAt, Translates, CODES, Includes;
    var n := NodeAt(root, a[..|a| - 1]);
    if n.Try? && n.handler.Some? && n.handler.value.Catch? { MentionsCode(n.handler.value.clause); }
  }

  lemma SameStep(root: Node, a: Address, j: nat)
    requires Leads(root, a) && a != [] && Leads(root, a[..|a| - 1]) && j < |a| - 1
    ensures StepsIntoGuard(root, a[..|a| - 1], j) <==> StepsIntoGuard(root, a, j)
  {
    hide Leads, NodeAt, CODES, Includes;
    assert a[..|a| - 1][..j] == a[..j];
  }

  ghost predicate IsWithinGuard(root: Node, a: Address)
    requires Leads(root, a)
  {
    exists j: nat :: j < |a| && StepsIntoGuard(root, a, j)
  }

  lemma {:induction false} ClimbedExactly(root: Node, a: Address)
    requires Leads(root, a)
    ensures Climbed(root, a) <==> IsWithinGuard(root, a)
    decreases |a|
  {
    hide Leads, NodeAt, StepsIntoGuard;
    if a == [] { return; }
    ParentLeads(root, a);
    var p := a[..|a| - 1];
    ClimbedExactly(root, p);
    GuardStep(root, a);
    hide Climbed;
    forall j: nat | j < |p| ensures StepsIntoGuard(root, p, j) <==> StepsIntoGuard(root, a, j) {
      SameStep(root, a, j);
    }
    if IsWithinGuard(root, p) {
      var j: nat :| j < |p| && StepsIntoGuard(root, p, j);
      assert StepsIntoGuard(root, a, j);
    }
    if IsWithinGuard(root, a) {
      var j: nat :| j < |a| && StepsIntoGuard(root, a, j);
      assert j < |p| ==> StepsIntoGuard(root, p, j);
    }
  }

  /** A node counts as guarded exactly when some step on its way goes into the block
      of a `try` whose `catch` mentions a code. */
  lemma GuardedExactly(root: Node, a: Address)
    requires Leads(root, a)
    ensures Inside(root, a, false) <==> IsWithinGuard(root, a)
  {
    hide *;
    ClimbedExactly(root, a);
    ClimbingIsCarrying(root, a);
  }

  // ---------------------------------------------------------------------
  // Dev-only sites
  // ---------------------------------------------------------------------

  const DEV_TOOLS: Text := Lit("src/modules/devTools/")

  /** Written in the dev-only tree, and in no route. */
  predicate InDevTools(root: Node, a: Address, o: Options)
    requires Leads(root, a)
  {
    RouteAt(root, a, o).None? && DEV_TOOLS <= o.fileName
  }

  lemma DevUnits()
    ensures DEV_ONLY == DEV_TOOLS && COLON !in DEV_TOOLS && DEV_TOOLS != [] && DEV_TOOLS[0] == 0x73
  {}

  lemma KeyStarts(base: Text, n: nat)
    ensures base <= KeyOf(base, n)
  {}

  lemma PrefixOfFile(dev: Text, file: Text, key: Text)
    requires file + [COLON] <= key && COLON !in dev
    ensures dev <= key <==> dev <= file
  {
    assert key[|file|] == (file + [COLON])[|file|] == COLON;
    if |file| < |dev| { assert dev[|file|] in dev && dev[|file|] != COLON; }
  }

  lemma DevOnlyExactly(root: Node, a: Address, o: Options, n: nat)
    requires IsSite(root, a, o)
    ensures DEV_ONLY <= KeyOf(BaseKey(root, a, o), n) <==> InDevTools(root, a, o)
  {
    hide BaseKey, KeyOf, ReadCall, RouteAt, FunctionOwner, DEV_ONLY, DEV_TOOLS, OwnerFor, IsUpperVerb;
    DevUnits();
    KeyStarts(BaseKey(root, a, o), n);
    if RouteAt(root, a, o).Some? {
      RouteKeyIsUpper(root, a, o);
    } else {
      FileKeyStarts(root, a, o);
      PrefixOfFile(DEV_ONLY, o.fileName, KeyOf(BaseKey(root, a, o), n));
    }
  }

  lemma FileKeyStarts(root: Node, a: Address, o: Options)
    requires IsSite(root, a, o) && RouteAt(root, a, o).None?
    ensures o.fileName + [COLON] <= BaseKey(root, a, o)
  {
    hide BaseKey, ReadCall, RouteAt, FunctionOwner;
    FunctionSiteKey(root, a, o);
  }

  lemma RouteKeyIsUpper(root: Node, a: Address, o: Options)
    requires IsSite(root, a, o) && RouteAt(root, a, o).Some?
    ensures BaseKey(root, a, o) != [] && 0x41 <= BaseKey(root, a, o)[0] <= 0x5A
  {
    hide BaseKey, ReadCall, FunctionOwner, RouteOwner, FirstWord, BraceParams;
    BaseKeyIs(root, a, o);
    OwnerVerb(root, a);
  }

  // ---------------------------------------------------------------------
  // Failing sites
  // ---------------------------------------------------------------------

  /** A write by id can miss its row on any model; a new row can break a constraint
      that its model has. */
  ghost predicate CanThrow(models: Models, model: Text, op: Text) {
    || op == Lit("update") || op == Lit("delete")
    || ((op == Lit("create") || op == Lit("upsert"))
        && model in models.facts && (models.facts[model].fk || models.facts[model].unique))
  }

  lemma ArmExactly(models: Models, model: Text, op: Text)
    ensures ArmFor(op, models, model).Some? <==> CanThrow(models, model, op)
    ensures ArmFor(op, models, model) == Some(B) <==> op == Lit("update") || op == Lit("delete")
  {
    hide Lit;
  }

  /** The `k`-th call of a file. */
  lemma SiteParts(root: Node, o: Options, k: nat)
    requires k < |Collected(root, o)|
    ensures k < |SitesUnder(root, [], o)| && IsSite(root, SitesUnder(root, [], o)[k], o)
    ensures var a, s := SitesUnder(root, [], o)[k], Collected(root, o)[k];
            && (exists n: nat :: s.key == KeyOf(BaseKey(root, a, o), n))
            && s.area == o.area && s.guarded == Inside(root, a, false)
            && (s.model, s.op) == CallAt(root, a, o)
            && s.arm == ArmFor(s.op, o.models, s.model)
  {
    hide SitesUnder, IsSite, BaseKey, KeyOf, Inside, ArmFor, Count;
    FileSitesAreSites(root, o);
    OrdinalsCountEarlier(root, o, k);
  }

  /** A site fails the gate, if it is not baselined, exactly when its area is gated,
      it is not written in the dev-only tree, its write can throw, and no `try` on its
      way translates what is thrown. */
  lemma FailsExactly(root: Node, o: Options, gated: set<Area>, k: nat)
    requires k < |Collected(root, o)|
    ensures k < |SitesUnder(root, [], o)| && IsSite(root, SitesUnder(root, [], o)[k], o)
    ensures var a := SitesUnder(root, [], o)[k];
            var (model, op) := CallAt(root, a, o);
            IsFailing(Collected(root, o)[k], gated) <==>
              && o.area in gated && !InDevTools(root, a, o)
              && CanThrow(o.models, model, op) && !IsWithinGuard(root, a)
  {
    SiteParts(root, o, k);
    var a, s := SitesUnder(root, [], o)[k], Collected(root, o)[k];
    FailingIs(s, gated);
    hide *;
    var n: nat :| s.key == KeyOf(BaseKey(root, a, o), n);
    DevOnlyExactly(root, a, o, n);
    SiteLeads(root, a, o);
    GuardedExactly(root, a);
    ArmExactly(o.models, s.model, s.op);
  }

  lemma FailingIs(s: Site, gated: set<Area>)
    ensures IsFailing(s, gated) <==> s.arm.Some? && !s.guarded && s.area in gated && !(DEV_ONLY <= s.key)
  {
    hide DEV_ONLY;
  }
}
