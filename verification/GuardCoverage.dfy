/**
 The guard-coverage ratchet: when the baseline is exact
 (`src/lib/prismaGuardCoverage.ts`).
 */
module GuardCoverage {
  import opened Texts
  import opened MutationSites
  import MutationKeys

  const DEV_ONLY: Text := Lit("src/modules/devTools/")

  /** `internallyDerived` maps keys to reasons; `unreviewed` is a bare list. */
  datatype Baseline = Baseline(internallyDerived: map<Text, Text>, unreviewed: seq<Text>)

  predicate IsCandidate(s: Site) { s.arm.Some? }

  predicate IsDevOnly(s: Site) { DEV_ONLY <= s.key }

  /** Does the gate fail on this site? */
  predicate IsGatedSite(s: Site, gated: set<Area>) { s.area in gated && !IsDevOnly(s) }

  function BaselinedKeys(b: Baseline): set<Text> {
    b.internallyDerived.Keys + set k | k in b.unreviewed
  }

  /** `new Map(candidates.map(...))`: the last candidate with a key wins. */
  function ByKey(sites: seq<Site>): (m: map<Text, Site>)
    ensures forall k :: k in m ==> m[k] in sites && IsCandidate(m[k]) && m[k].key == k
    ensures forall s :: s in sites && IsCandidate(s) ==> s.key in m
  {
    if sites == [] then map[]
    else
      var m := ByKey(sites[..|sites| - 1]);
      var s := sites[|sites| - 1];
      assert sites == sites[..|sites| - 1] + [s];
      if IsCandidate(s) then m[s.key := s] else m
  }

  /** A candidate that the gate covers and no catch guards. */
  predicate IsFailing(s: Site, gated: set<Area>) { IsCandidate(s) && !s.guarded && IsGatedSite(s, gated) }

  /** Failing sites outside the baseline. */
  predicate NewlyUnguarded(sites: seq<Site>, b: Baseline, gated: set<Area>, s: Site) {
    s in sites && IsFailing(s, gated) && s.key !in BaselinedKeys(b)
  }

  /** Baseline entries whose site is gone, guarded, or outside the gate. */
  predicate IsStale(sites: seq<Site>, gated: set<Area>, key: Text) {
    var m := ByKey(sites);
    key !in m || m[key].guarded || !IsGatedSite(m[key], gated)
  }

  /** `checkPrismaGuardCoverage(...).ok` */
  predicate GuardCoverageOk(sites: seq<Site>, b: Baseline, gated: set<Area>) {
    && (forall s :: s in sites ==> !NewlyUnguarded(sites, b, gated, s))
    && (forall k :: k in BaselinedKeys(b) ==> !IsStale(sites, gated, k))
  }

  /** The keys of the failing sites. */
  function FailingKeys(sites: seq<Site>, gated: set<Area>): set<Text> {
    set s | s in sites && IsFailing(s, gated) :: s.key
  }

  ghost predicate DistinctKeys(sites: seq<Site>) {
    forall s, t :: s in sites && t in sites && s.key == t.key ==> s == t
  }

  /** For every key of a failing site, the last candidate with that key fails. */
  ghost predicate LastCandidatesFail(sites: seq<Site>, gated: set<Area>) {
    forall k :: k in FailingKeys(sites, gated) ==> k in ByKey(sites) && IsFailing(ByKey(sites)[k], gated)
  }

  lemma NotStaleIffFailing(sites: seq<Site>, gated: set<Area>, k: Text)
    ensures !IsStale(sites, gated, k) <==> k in ByKey(sites) && IsFailing(ByKey(sites)[k], gated)
    ensures !IsStale(sites, gated, k) ==> k in FailingKeys(sites, gated)
  {
    hide IsGatedSite, ByKey;
  }

  /** The ratchet passes exactly when the baselined keys are the keys of the
      gated, unguarded candidates and no such key is shared with a later candidate
      that is guarded or outside the gate. */
  lemma PassesExactly(sites: seq<Site>, b: Baseline, gated: set<Area>)
    ensures GuardCoverageOk(sites, b, gated) <==>
              BaselinedKeys(b) == FailingKeys(sites, gated) && LastCandidatesFail(sites, gated)
  {
    hide BaselinedKeys, IsFailing, IsStale, ByKey;
    forall k ensures !IsStale(sites, gated, k) <==> k in ByKey(sites) && IsFailing(ByKey(sites)[k], gated) {
      NotStaleIffFailing(sites, gated, k);
    }
    if GuardCoverageOk(sites, b, gated) {
      forall k | k in FailingKeys(sites, gated) ensures k in BaselinedKeys(b) {
        var s :| s in sites && IsFailing(s, gated) && s.key == k;
        assert !NewlyUnguarded(sites, b, gated, s);
      }
      forall k | k in BaselinedKeys(b) ensures k in FailingKeys(sites, gated) {
        NotStaleIffFailing(sites, gated, k);
      }
    }
  }

  /** When keys clash that way, no baseline can turn the check green. */
  lemma SomeBaselinePassesIff(sites: seq<Site>, gated: set<Area>)
    ensures (exists b :: GuardCoverageOk(sites, b, gated)) <==> LastCandidatesFail(sites, gated)
  {
    hide GuardCoverageOk, LastCandidatesFail, FailingKeys;
    if b :| GuardCoverageOk(sites, b, gated) {
      PassesExactly(sites, b, gated);
    }
    var keys := FailingKeys(sites, gated);
    var b := Baseline(map k | k in keys :: [], []);
    assert BaselinedKeys(b) == keys;
    PassesExactly(sites, b, gated);
  }

  /** With distinct keys the ratchet passes exactly when the baselined keys are
      the keys of the gated, unguarded candidates, no more and no fewer. */
  lemma BaselineIsExact(sites: seq<Site>, b: Baseline, gated: set<Area>)
    requires DistinctKeys(sites)
    ensures GuardCoverageOk(sites, b, gated) <==> BaselinedKeys(b) == FailingKeys(sites, gated)
  {
    hide BaselinedKeys, IsFailing, ByKey, GuardCoverageOk;
    PassesExactly(sites, b, gated);
    forall k | k in FailingKeys(sites, gated) ensures k in ByKey(sites) && IsFailing(ByKey(sites)[k], gated) {
      var s :| s in sites && IsFailing(s, gated) && s.key == k;
      assert IsCandidate(s) by { FailingIsCandidate(s, gated); }
      assert ByKey(sites)[k] == s;
    }
  }

  lemma FailingIsCandidate(s: Site, gated: set<Area>)
    requires IsFailing(s, gated)
    ensures IsCandidate(s)
  {}

  /** Narrowing the gate cannot pass unnoticed: an entry whose site leaves the
      gate turns the check red. */
  lemma NarrowingIsNoticed(sites: seq<Site>, b: Baseline, wide: set<Area>, narrow: set<Area>)
    requires DistinctKeys(sites) && GuardCoverageOk(sites, b, wide) && narrow <= wide
    requires exists s :: s in sites && IsFailing(s, wide) && s.area !in narrow
    ensures !GuardCoverageOk(sites, b, narrow)
  {
    hide BaselinedKeys, ByKey, GuardCoverageOk;
    BaselineIsExact(sites, b, wide);
    BaselineIsExact(sites, b, narrow);
    var s :| s in sites && IsFailing(s, wide) && s.area !in narrow;
    assert s.key in FailingKeys(sites, wide);
    forall t | t in sites && IsFailing(t, narrow) ensures t.key != s.key {
      assert t.key == s.key ==> t == s;
    }
  }

  /** The sites of one file satisfy the condition on keys. */
  lemma OneFileIsExact(root: Node, o: Options, b: Baseline, gated: set<Area>)
    ensures GuardCoverageOk(MutationKeys.Collected(root, o), b, gated) <==>
              BaselinedKeys(b) == FailingKeys(MutationKeys.Collected(root, o), gated)
  {
    hide BaselinedKeys, FailingKeys, GuardCoverageOk, MutationKeys.Collected;
    MutationKeys.CollectedKeysDistinct(root, o);
    BaselineIsExact(MutationKeys.Collected(root, o), b, gated);
  }
}
