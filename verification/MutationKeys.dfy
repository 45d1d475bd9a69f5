/**
 Collecting the mutation sites of a file: which calls, in which order, under
 which keys (`src/lib/prismaMutationSites.ts`).
 */
module MutationKeys {
  import opened Addresses
  import opened Texts
  import opened MutationSites

  // ---------------------------------------------------------------------
  // Which calls, in which order
  // ---------------------------------------------------------------------

  /** The sites at and under `a`, in the order of the visit. */
  function SitesUnder(root: Node, a: Address, o: Options): seq<Address>
    requires Leads(root, a)
    decreases NodeAt(root, a), 1, 0
  {
    (if IsSite(root, a, o) then [a] else []) + SitesFrom(root, a, 0, o)
  }

  /** The sites under the children of `a` from the `i`-th on. */
  function SitesFrom(root: Node, a: Address, i: nat, o: Options): seq<Address>
    requires Leads(root, a) && i <= |Children(NodeAt(root, a))|
    decreases NodeAt(root, a), 0, |Children(NodeAt(root, a))| - i
  {
    if i == |Children(NodeAt(root, a))| then []
    else
      ChildLeads(root, a, i);
      SitesUnder(root, a + [i], o) + SitesFrom(root, a, i + 1, o)
  }

  lemma UnderSplits(root: Node, a: Address, o: Options)
    requires Leads(root, a)
    ensures SitesUnder(root, a, o) == (if IsSite(root, a, o) then [a] else []) + SitesFrom(root, a, 0, o)
  {}

  lemma FromSplits(root: Node, a: Address, i: nat, o: Options)
    requires Leads(root, a) && i < |Children(NodeAt(root, a))| && Leads(root, a + [i])
    ensures SitesFrom(root, a, i, o) == SitesUnder(root, a + [i], o) + SitesFrom(root, a, i + 1, o)
  {}

  lemma FromEnds(root: Node, a: Address, o: Options)
    requires Leads(root, a)
    ensures SitesFrom(root, a, |Children(NodeAt(root, a))|, o) == []
  {}

  lemma {:induction false} SitesUnderAre(root: Node, a: Address, o: Options, k: nat)
    requires Leads(root, a) && k < |SitesUnder(root, a, o)|
    ensures var s := SitesUnder(root, a, o)[k];
            IsSite(root, s, o) && a <= s && (s == a ==> k == 0)
    decreases NodeAt(root, a), 1, 0
  {
    hide ReadCall, Children;
    var own := if IsSite(root, a, o) then 1 else 0;
    if k >= own {
      SitesFromAre(root, a, 0, o, k - own);
      assert SitesUnder(root, a, o)[k] == SitesFrom(root, a, 0, o)[k - own];
    }
  }

  lemma {:induction false} SitesFromAre(root: Node, a: Address, i: nat, o: Options, k: nat)
    requires Leads(root, a) && i <= |Children(NodeAt(root, a))| && k < |SitesFrom(root, a, i, o)|
    ensures var s := SitesFrom(root, a, i, o)[k];
            IsSite(root, s, o) && a < s && i <= s[|a|]
    decreases NodeAt(root, a), 0, |Children(NodeAt(root, a))| - i
  {
    hide IsSite, Leads, NodeAt, Children, SitesFrom, SitesUnder;
    FromEnds(root, a, o);
    ChildLeads(root, a, i);
    FromSplits(root, a, i, o);
    var first, rest := SitesUnder(root, a + [i], o), SitesFrom(root, a, i + 1, o);
    var s := SitesFrom(root, a, i, o)[k];
    if k < |first| {
      SitesUnderAre(root, a + [i], o, k);
      assert s == first[k] && (a + [i])[|a|] == i;
    } else {
      SitesFromAre(root, a, i + 1, o, k - |first|);
      assert s == rest[k - |first|];
    }
  }

  /** Every mutation call of the tree is listed. */
  lemma {:induction false} EverySiteListed(root: Node, a: Address, o: Options, s: Address)
    requires Leads(root, a) && IsSite(root, s, o) && a <= s
    ensures s in SitesUnder(root, a, o)
    decreases NodeAt(root, a), 1, 0
  {
    hide ReadCall;
    if s != a {
      StepDown(root, a, s);
      EveryChildSiteListed(root, a, 0, o, s);
    }
  }

  lemma {:induction false} EveryChildSiteListed(root: Node, a: Address, i: nat, o: Options, s: Address)
    requires Leads(root, a) && IsSite(root, s, o) && a < s
    requires i <= s[|a|] < |Children(NodeAt(root, a))|
    ensures s in SitesFrom(root, a, i, o)
    decreases NodeAt(root, a), 0, |Children(NodeAt(root, a))| - i
  {
    hide ReadCall;
    ChildLeads(root, a, i);
    if s[|a|] == i {
      assert a + [i] <= s;
      EverySiteListed(root, a + [i], o, s);
    } else {
      EveryChildSiteListed(root, a, i + 1, o, s);
    }
  }

  lemma {:induction false} StepDown(root: Node, a: Address, s: Address)
    requires Leads(root, a) && Leads(root, s) && a < s
    ensures s[|a|] < |Children(NodeAt(root, a))|
    decreases |a|
  {
    hide Children;
    if a != [] {
      assert a[0] == s[0] && a[1..] < s[1..];
      StepDown(Children(root)[a[0]], a[1..], s[1..]);
    }
  }

  /** Sites come in document order: a call before the calls inside it. */
  lemma {:induction false} SitesInOrder(root: Node, a: Address, o: Options, j: nat, k: nat)
    requires Leads(root, a) && j < k < |SitesUnder(root, a, o)|
    ensures Earlier(SitesUnder(root, a, o)[j], SitesUnder(root, a, o)[k])
    decreases NodeAt(root, a), 1, 0
  {
    hide ReadCall, Children;
    var own := if IsSite(root, a, o) then 1 else 0;
    var all, inner := SitesUnder(root, a, o), SitesFrom(root, a, 0, o);
    assert all[k] == inner[k - own];
    if j < own {
      SitesFromAre(root, a, 0, o, k - own);
      PrefixIsEarlier(a, all[k]);
    } else {
      assert all[j] == inner[j - own];
      ChildSitesInOrder(root, a, 0, o, j - own, k - own);
    }
  }

  lemma {:induction false} ChildSitesInOrder(root: Node, a: Address, i: nat, o: Options, j: nat, k: nat)
    requires Leads(root, a) && i <= |Children(NodeAt(root, a))| && j < k < |SitesFrom(root, a, i, o)|
    ensures Earlier(SitesFrom(root, a, i, o)[j], SitesFrom(root, a, i, o)[k])
    decreases NodeAt(root, a), 0, |Children(NodeAt(root, a))| - i
  {
    hide IsSite, Leads, NodeAt, Children, SitesFrom, SitesUnder;
    FromEnds(root, a, o);
    ChildLeads(root, a, i);
    FromSplits(root, a, i, o);
    var first, rest, all := SitesUnder(root, a + [i], o), SitesFrom(root, a, i + 1, o), SitesFrom(root, a, i, o);
    assert all == first + rest;
    if j >= |first| {
      ChildSitesInOrder(root, a, i + 1, o, j - |first|, k - |first|);
    } else if k < |first| {
      SitesInOrder(root, a + [i], o, j, k);
    } else {
      SitesUnderAre(root, a + [i], o, j);
      SitesFromAre(root, a, i + 1, o, k - |first|);
      SiblingIsEarlier(a, i, all[j], all[k]);
    }
  }

  lemma PrefixIsEarlier(a: Address, b: Address)
    requires a < b
    ensures Earlier(a, b)
  {
    var rest := b[|a|..];
    assert a + [] == a && a + rest == b;
    EarlierUnder(a, [], rest);
  }

  lemma SiblingIsEarlier(a: Address, i: nat, b: Address, c: Address)
    requires a + [i] <= b && a < c && c[|a|] > i
    ensures Earlier(b, c)
  {
    var x, y := b[|a|..], c[|a|..];
    assert b[|a|] == (a + [i])[|a|];
    assert a + x == b && a + y == c;
    EarlierUnder(a, x, y);
  }

  // ---------------------------------------------------------------------
  // Under which keys
  // ---------------------------------------------------------------------

  /** How often `base` occurs in `bases`. */
  function Count(bases: seq<Text>, base: Text): nat {
    if bases == [] then 0
    else Count(bases[..|bases| - 1], base) + if bases[|bases| - 1] == base then 1 else 0
  }

  lemma CountOneMore(bases: seq<Text>, base: Text, b: Text)
    ensures Count(bases + [base], b) == Count(bases, b) + if b == base then 1 else 0
  {
    assert (bases + [base])[..|bases|] == bases;
  }

  /** The key of the last of some bases: its ordinal counts its own kind. */
  function LastKey(bases: seq<Text>): Text
    requires bases != []
  {
    KeyOf(bases[|bases| - 1], Count(bases, bases[|bases| - 1]))
  }

  /** The key of the `k`-th of some bases. */
  function KeyAt(bases: seq<Text>, k: nat): Text
    requires k < |bases|
  {
    LastKey(bases[..k + 1])
  }

  /** No base key ends in a digit. */
  ghost predicate EndsInLetter(base: Text) { base != [] && !IsDigit(base[|base| - 1]) }

  lemma MutationEndsInLetter(op: Text)
    requires IsMutation(op)
    ensures EndsInLetter(op)
  {}

  lemma BaseEndsInLetter(root: Node, a: Address, o: Options)
    requires IsSite(root, a, o)
    ensures EndsInLetter(BaseKey(root, a, o))
  {
    hide ReadCall, OwnerFor;
    var call := ReadCall(NodeAt(root, a), o.models).value;
    MutationEndsInLetter(call.1);
    var base := BaseKey(root, a, o);
    assert base[|base| - 1] == call.1[|call.1| - 1];
  }

  /** A key tells its base and its ordinal. */
  lemma KeyTellsAll(b1: Text, n1: nat, b2: Text, n2: nat)
    requires EndsInLetter(b1) && EndsInLetter(b2) && n1 > 0 && n2 > 0
    requires KeyOf(b1, n1) == KeyOf(b2, n2)
    ensures b1 == b2 && n1 == n2
  {
    hide Decimal;
    var k1, k2 := KeyOf(b1, n1), KeyOf(b2, n2);
    var d1, d2 := Decimal(n1), Decimal(n2);
    assert n1 > 1 ==> k1[|k1| - 1] == d1[|d1| - 1] && d1[|d1| - 1] in d1;
    assert n2 > 1 ==> k2[|k2| - 1] == d2[|d2| - 1] && d2[|d2| - 1] in d2;
    if n1 > 1 && n2 > 1 { SplitAtLastHash(b1, d1, b2, d2); DecimalReadsBack(n1); DecimalReadsBack(n2); }
  }

  lemma LastHash(b: Text, d: Text)
    requires forall u :: u in d ==> IsDigit(u)
    ensures var k := b + [HASH] + d;
            k[|b|] == HASH && forall i :: |b| < i < |k| ==> k[i] != HASH
  {
    var k := b + [HASH] + d;
    assert forall i :: |b| < i < |k| ==> k[i] == d[i - |b| - 1] && d[i - |b| - 1] in d;
  }

  lemma SplitAtLastHash(b1: Text, d1: Text, b2: Text, d2: Text)
    requires b1 + [HASH] + d1 == b2 + [HASH] + d2
    requires forall u :: u in d1 ==> IsDigit(u)
    requires forall u :: u in d2 ==> IsDigit(u)
    ensures b1 == b2 && d1 == d2
  {
    var k, l := b1 + [HASH] + d1, b2 + [HASH] + d2;
    LastHash(b1, d1);
    LastHash(b2, d2);
    assert |b1| == |b2|;
    assert k[..|b1|] == b1 && l[..|b2|] == b2 && k[|b1| + 1..] == d1 && l[|b2| + 1..] == d2;
  }

  lemma {:induction false} CountGrows(bases: seq<Text>, base: Text, m: nat, n: nat)
    requires m <= n <= |bases|
    ensures Count(bases[..m], base) <= Count(bases[..n], base)
    ensures m < n && bases[n - 1] == base ==> Count(bases[..m], base) < Count(bases[..n], base)
    decreases n - m
  {
    if m < n {
      CountGrows(bases, base, m, n - 1);
      assert bases[..n][..n - 1] == bases[..n - 1];
    }
  }

  /** Keys of one file are pairwise distinct, whatever the bases are: a repeated
      base gets a new ordinal each time, and no ordinal makes a key look like
      another base's. */
  lemma KeysDistinct(bases: seq<Text>, i: nat, j: nat)
    requires i < j < |bases|
    requires forall k :: 0 <= k < |bases| ==> EndsInLetter(bases[k])
    ensures LastKey(bases[..i + 1]) != LastKey(bases[..j + 1])
  {
    hide Count, KeyOf;
    var b1, b2 := bases[i], bases[j];
    assert bases[..i + 1][i] == b1 && bases[..j + 1][j] == b2;
    CountGrows(bases, b1, i, i + 1);
    CountGrows(bases, b2, j, j + 1);
    if b1 == b2 { CountGrows(bases, b1, i + 1, j + 1); }
    if LastKey(bases[..i + 1]) == LastKey(bases[..j + 1]) {
      KeyTellsAll(b1, Count(bases[..i + 1], b1), b2, Count(bases[..j + 1], b2));
    }
  }

  // ---------------------------------------------------------------------
  // The whole file
  // ---------------------------------------------------------------------

  /** The base keys of some sites. */
  function Bases(root: Node, sites: seq<Address>, o: Options): (r: seq<Text>)
    requires forall k :: 0 <= k < |sites| ==> IsSite(root, sites[k], o)
    ensures |r| == |sites|
    ensures forall k :: 0 <= k < |sites| ==> r[k] == BaseKey(root, sites[k], o)
  {
    seq(|sites|, k requires 0 <= k < |sites| => BaseKey(root, sites[k], o))
  }

  /** The site at `a` under a key. */
  function SiteOf(root: Node, a: Address, o: Options, key: Text): Site
    requires IsSite(root, a, o)
  {
    var call := ReadCall(NodeAt(root, a), o.models).value;
    Site(key, o.area, call.0, call.1, ArmFor(call.1, o.models, call.0), Inside(root, a, false))
  }

  /** The sites of a list of calls, the `k`-th with its ordinal among the first `k + 1`. */
  ghost function SitesOf(root: Node, sites: seq<Address>, o: Options): (r: seq<Site>)
    requires forall k :: 0 <= k < |sites| ==> IsSite(root, sites[k], o)
    ensures |r| == |sites|
    ensures forall k :: 0 <= k < |sites| ==> r[k] == SiteOf(root, sites[k], o, KeyAt(Bases(root, sites, o), k))
  {
    hide IsSite, BaseKey, KeyAt;
    seq(|sites|, k requires 0 <= k < |sites| => SiteOf(root, sites[k], o, KeyAt(Bases(root, sites, o), k)))
  }

  lemma FileSitesAreSites(root: Node, o: Options)
    ensures forall k :: 0 <= k < |SitesUnder(root, [], o)| ==> IsSite(root, SitesUnder(root, [], o)[k], o)
  {
    hide SitesUnder, IsSite;
    forall k | 0 <= k < |SitesUnder(root, [], o)| ensures IsSite(root, SitesUnder(root, [], o)[k], o) {
      SitesUnderAre(root, [], o, k);
    }
  }

  /** What `collectMutationSites` returns for a parsed file. */
  ghost function Collected(root: Node, o: Options): seq<Site> {
    FileSitesAreSites(root, o);
    SitesOf(root, SitesUnder(root, [], o), o)
  }

  /** The keys of one file are pairwise distinct. */
  lemma CollectedKeysDistinct(root: Node, o: Options)
    ensures forall i, j :: 0 <= i < j < |Collected(root, o)| ==> Collected(root, o)[i].key != Collected(root, o)[j].key
  {
    hide SitesUnder, IsSite, LastKey, BaseKey, EndsInLetter;
    FileSitesAreSites(root, o);
    var sites := SitesUnder(root, [], o);
    var bases := Bases(root, sites, o);
    forall k | 0 <= k < |bases| ensures EndsInLetter(bases[k]) { BaseEndsInLetter(root, sites[k], o); }
    forall i, j | 0 <= i < j < |Collected(root, o)| ensures Collected(root, o)[i].key != Collected(root, o)[j].key {
      KeysDistinct(bases, i, j);
    }
  }

  /** The earlier sites with the same base. */
  ghost function SameBefore(bases: seq<Text>, k: nat, base: Text): set<nat>
    requires k <= |bases|
  {
    set j: nat | j < k && bases[j] == base
  }

  lemma SameBeforeStep(bases: seq<Text>, k: nat, base: Text)
    requires 0 < k <= |bases|
    ensures |SameBefore(bases, k, base)| == |SameBefore(bases, k - 1, base)| + if bases[k - 1] == base then 1 else 0
  {
    var before, now := SameBefore(bases, k - 1, base), SameBefore(bases, k, base);
    assert now == if bases[k - 1] == base then before + {k - 1} else before;
  }

  lemma {:induction false} CountIsSize(bases: seq<Text>, k: nat, base: Text)
    requires k <= |bases|
    ensures Count(bases[..k], base) == |SameBefore(bases, k, base)|
    decreases k
  {
    if k == 0 {
      assert SameBefore(bases, 0, base) == {};
    } else {
      CountIsSize(bases, k - 1, base);
      CountOneMore(bases[..k - 1], bases[k - 1], base);
      assert bases[..k] == bases[..k - 1] + [bases[k - 1]];
      SameBeforeStep(bases, k, base);
      hide Count, SameBefore;
    }
  }

  lemma KeyIs(base: Text, n: nat)
    ensures KeyOf(base, n) == if n == 1 then base else base + Lit("#") + Decimal(n)
  {
    assert Lit("#") == [HASH];
    hide Decimal, Lit;
  }

  lemma KeyWithOrdinal(root: Node, o: Options, k: nat)
    requires k < |Collected(root, o)|
    ensures |SitesUnder(root, [], o)| == |Collected(root, o)|
    ensures forall j :: 0 <= j < |SitesUnder(root, [], o)| ==> IsSite(root, SitesUnder(root, [], o)[j], o)
    ensures var sites := SitesUnder(root, [], o);
            var base := BaseKey(root, sites[k], o);
            Collected(root, o)[k].key == KeyOf(base, 1 + |SameBefore(Bases(root, sites, o), k, base)|)
  {
    hide SitesUnder, IsSite, BaseKey, KeyOf, Count, SameBefore;
    FileSitesAreSites(root, o);
    var sites := SitesUnder(root, [], o);
    var bases := Bases(root, sites, o);
    var base := bases[k];
    CountIsSize(bases, k, base);
    CountOneMore(bases[..k], base, base);
    assert bases[..k + 1] == bases[..k] + [base];
  }

  /** The ordinal of a site is one more than the number of earlier sites, in
      document order, with the same base; the first has none. */
  lemma OrdinalsCountEarlier(root: Node, o: Options, k: nat)
    requires k < |Collected(root, o)|
    ensures |SitesUnder(root, [], o)| == |Collected(root, o)|
    ensures forall j :: 0 <= j < |SitesUnder(root, [], o)| ==> IsSite(root, SitesUnder(root, [], o)[j], o)
    ensures var sites := SitesUnder(root, [], o);
            var base := BaseKey(root, sites[k], o);
            var earlier := |SameBefore(Bases(root, sites, o), k, base)|;
            && Collected(root, o)[k].key == KeyOf(base, 1 + earlier)
            && KeyOf(base, 1 + earlier) == if earlier == 0 then base else base + Lit("#") + Decimal(1 + earlier)
  {
    hide SitesUnder, IsSite, BaseKey, KeyOf, SameBefore, Bases, Decimal, Lit, Collected;
    KeyWithOrdinal(root, o, k);
    var sites := SitesUnder(root, [], o);
    var base := BaseKey(root, sites[k], o);
    KeyIs(base, 1 + |SameBefore(Bases(root, sites, o), k, base)|);
  }

  /** The collected sites are those of the calls met so far, and the counters
      count their bases. */
  ghost predicate Collects(root: Node, o: Options, calls: seq<Address>, sites: seq<Site>, seen: map<Text, nat>) {
    && (forall k :: 0 <= k < |calls| ==> IsSite(root, calls[k], o))
    && sites == SitesOf(root, calls, o)
    && forall b :: Count(Bases(root, calls, o), b) == if b in seen then seen[b] else 0
  }

  /** The visitor: sites so far, and how often each base was seen. */
  class SiteCollector {
    const root: Node
    const o: Options
    var sites: seq<Site>
    var seen: map<Text, nat>
    ghost var calls: seq<Address>

    ghost predicate Valid()
      reads this
    {
      Collects(root, o, calls, sites, seen)
    }

    constructor (root: Node, o: Options)
      ensures Valid() && calls == [] && this.root == root && this.o == o
    {
      this.root, this.o, sites, seen, calls := root, o, [], map[], [];
    }

    /** Record one mutation call. */
    method Push(a: Address)
      requires Valid() && IsSite(root, a, o)
      modifies this
      ensures Valid() && calls == old(calls) + [a]
    {
      SiteParts(root, a, o);
      hide Collects, IsSite, Leads, NodeAt, ReadCall, RouteOwner, FunctionOwner, OwnerText, Inside, ArmFor, Lit;
      hide SiteOf, BaseKey, KeyOf;
      var call := ReadCall(NodeAt(root, a), o.models).value;
      var route := FindRouteOwner(root, a);
      var fn := FindFunctionOwner(root, a);
      var base := OwnerText(route, fn, o) + Lit("::") + call.0 + Lit(".") + call.1;
      var n := (if base in seen then seen[base] else 0) + 1;
      seen := seen[base := n];
      var guarded := IsGuarded(root, a);
      sites := sites + [Site(KeyOf(base, n), o.area, call.0, call.1, ArmFor(call.1, o.models, call.0), guarded)];
      PushedCollects(root, o, calls, old(sites), old(seen), a, n);
      calls := calls + [a];
    }

    /** Visit a node: itself first, then its children in order. */
    method Visit(a: Address)
      requires Valid() && Leads(root, a)
      modifies this
      ensures Valid() && calls == old(calls) + SitesUnder(root, a, o)
      decreases NodeAt(root, a), 1
    {
      hide *;
      UnderSplits(root, a, o);
      if CheckSite(root, a, o) { Push(a); }
      var i := 0;
      ghost var start := calls;
      while i < |Children(NodeAt(root, a))|
        invariant 0 <= i <= |Children(NodeAt(root, a))|
        invariant Valid() && calls + SitesFrom(root, a, i, o) == start + SitesFrom(root, a, 0, o)
        decreases |Children(NodeAt(root, a))| - i
      {
        ChildLeads(root, a, i);
        FromSplits(root, a, i, o);
        ghost var before := calls;
        Visit(a + [i]);
        Regroup(before, SitesUnder(root, a + [i], o), SitesFrom(root, a, i + 1, o));
        i := i + 1;
      }
      FromEnds(root, a, o);
      NothingMore(calls);
      Regroup(old(calls), if IsSite(root, a, o) then [a] else [], SitesFrom(root, a, 0, o));
      NothingMore(old(calls));
    }
  }

  lemma Regroup(a: seq<Address>, b: seq<Address>, c: seq<Address>)
    ensures a + (b + c) == a + b + c
  {}

  lemma NothingMore(a: seq<Address>)
    ensures a + [] == a
  {}

  function CheckSite(root: Node, a: Address, o: Options): (r: bool)
    requires Leads(root, a)
    ensures r == IsSite(root, a, o)
  {
    ReadCall(NodeAt(root, a), o.models).Some?
  }

  /** A site and its base key, in the parts they are made from. */
  lemma SiteParts(root: Node, a: Address, o: Options)
    requires IsSite(root, a, o)
    ensures Leads(root, a) && ReadCall(NodeAt(root, a), o.models).Some?
    ensures var call := ReadCall(NodeAt(root, a), o.models).value;
            && BaseKey(root, a, o)
               == OwnerText(RouteOwner(root, a), FunctionOwner(root, a), o) + Lit("::") + call.0 + Lit(".") + call.1
            && forall key :: SiteOf(root, a, o, key)
                          == Site(key, o.area, call.0, call.1, ArmFor(call.1, o.models, call.0), Inside(root, a, false))
  {
    hide Leads, NodeAt, ReadCall, RouteOwner, FunctionOwner, OwnerText, Inside, ArmFor, Lit;
  }

  lemma PushedSite(root: Node, calls: seq<Address>, a: Address, o: Options, base: Text, n: nat)
    requires forall k :: 0 <= k < |calls| ==> IsSite(root, calls[k], o)
    requires IsSite(root, a, o) && base == BaseKey(root, a, o)
    requires n == Count(Bases(root, calls, o), base) + 1
    ensures var more := calls + [a];
            && (forall k :: 0 <= k < |more| ==> IsSite(root, more[k], o))
            && SitesOf(root, more, o) == SitesOf(root, calls, o) + [SiteOf(root, a, o, KeyOf(base, n))]
            && forall b ::
                 Count(Bases(root, more, o), b) == Count(Bases(root, calls, o), b) + if b == base then 1 else 0
  {
    hide IsSite, BaseKey, Count, SiteOf, KeyOf;
    var more := calls + [a];
    var bases := Bases(root, calls, o);
    assert Bases(root, more, o) == bases + [base];
    forall b ensures Count(Bases(root, more, o), b) == Count(bases, b) + if b == base then 1 else 0 {
      CountOneMore(bases, base, b);
    }
    assert forall k :: 0 <= k <= |bases| ==> (bases + [base])[..k] == bases[..k];
    assert Bases(root, more, o)[..|calls| + 1] == bases + [base];
  }

  lemma PushedCollects(
    root: Node, o: Options, calls: seq<Address>, sites: seq<Site>, seen: map<Text, nat>, a: Address, n: nat)
    requires Collects(root, o, calls, sites, seen) && IsSite(root, a, o)
    requires var base := BaseKey(root, a, o); n == (if base in seen then seen[base] else 0) + 1
    ensures var base := BaseKey(root, a, o);
            Collects(root, o, calls + [a], sites + [SiteOf(root, a, o, KeyOf(base, n))], seen[base := n])
  {
    hide IsSite, BaseKey, Count, SiteOf, KeyOf, SitesOf, Bases;
    PushedSite(root, calls, a, o, BaseKey(root, a, o), n);
  }

  /** `collectMutationSites`, as the program runs it. */
  method CollectMutationSites(root: Node, o: Options) returns (sites: seq<Site>)
    ensures sites == Collected(root, o)
  {
    hide SitesUnder, IsSite;
    FileSitesAreSites(root, o);
    var collector := new SiteCollector(root, o);
    collector.Visit([]);
    sites := collector.sites;
    assert collector.calls == SitesUnder(root, [], o);
  }
}
