/**
 Gate stamps on middleware and the codes a chain of them can answer
 (`src/lib/routeGate.ts`).
 */
module RouteGates {
  import opened Texts

  datatype GateKind = Auth | Permission | Service | RateLimit | Validation | FeedToken | BodyLimit

  datatype Gate = Gate(
    kind: GateKind,
    permissions: Option<seq<Text>>,
    methods: Option<seq<Text>>,
    targets: Option<seq<Text>>)

  /** A middleware function: its name and the two marks it may carry. */
  datatype Handler = Handler(name: Text, gate: Option<Gate>, notGate: Option<Text>)

  /** Does the handler carry none of the two marks? */
  predicate IsUnmarked(h: Handler) { h.gate.None? && h.notGate.None? }

  /** Does the gate run for this method? */
  predicate Applies(gate: Gate, verb: Text) {
    gate.methods.None? || Upper(verb) in gate.methods.value
  }

  /** What one kind of gate can answer by itself. */
  function CodesOf(kind: GateKind): set<nat> {
    match kind
    case Auth => {401}
    case Permission => {401, 403}
    case Service => {401}
    case RateLimit => {429}
    case Validation => {400}
    case FeedToken => {404}
    case BodyLimit => {413}
  }

  /** A list of numbers in strictly ascending order. */
  predicate Ascending(ns: seq<nat>) { forall i, j :: 0 <= i < j < |ns| ==> ns[i] < ns[j] }

  lemma NothingAscends()
    ensures Ascending([])
  {}

  /** Put a code in its place in an ascending list, once. */
  method AddCode(codes: seq<nat>, code: nat) returns (r: seq<nat>)
    requires Ascending(codes)
    ensures Ascending(r) && forall c :: c in r <==> c in codes || c == code
  {
    var i := 0;
    while i < |codes| && codes[i] < code
      invariant 0 <= i <= |codes|
      invariant forall k :: 0 <= k < i ==> codes[k] < code
    {
      i := i + 1;
    }
    if i < |codes| && codes[i] == code { return codes; }
    r := codes[..i] + [code] + codes[i..];
    InsertedAscends(codes, i, code);
  }

  lemma InsertedAscends(codes: seq<nat>, i: nat, code: nat)
    requires Ascending(codes) && i <= |codes|
    requires (forall k :: 0 <= k < i ==> codes[k] < code) && (i < |codes| ==> code < codes[i])
    ensures var r := codes[..i] + [code] + codes[i..];
            Ascending(r) && forall c :: c in r <==> c in codes || c == code
  {
    var low, high := codes[..i], codes[i..];
    assert codes == low + high;
    assert forall k :: 0 <= k < |low| ==> low[k] < code;
    assert forall k :: 0 <= k < |high| ==> code < high[k];
    hide Ascending;
    SplitAscends(low, high);
    JoinAscends(low, code, high);
  }

  lemma SplitAscends(low: seq<nat>, high: seq<nat>)
    requires Ascending(low + high)
    ensures Ascending(low) && Ascending(high)
  {
    var r := low + high;
    assert forall k :: 0 <= k < |low| ==> low[k] == r[k];
    assert forall k :: 0 <= k < |high| ==> high[k] == r[|low| + k];
  }

  lemma JoinAscends(low: seq<nat>, code: nat, high: seq<nat>)
    requires Ascending(low) && Ascending(high)
    requires forall k :: 0 <= k < |low| ==> low[k] < code
    requires forall k :: 0 <= k < |high| ==> code < high[k]
    ensures Ascending(low + [code] + high)
  {
    var r := low + [code] + high;
    forall i, j | 0 <= i < j < |r| ensures r[i] < r[j] {
      assert i < |low| ==> r[i] == low[i];
      assert j > |low| ==> r[j] == high[j - |low| - 1];
    }
  }

  ghost predicate HasKind(gates: seq<Gate>, verb: Text, kind: GateKind) {
    exists i :: 0 <= i < |gates| && Applies(gates[i], verb) && gates[i].kind == kind
  }

  /** Some gate that runs for every method, or for this one, answers the code. */
  ghost predicate IsExpected(gates: seq<Gate>, verb: Text, code: nat) {
    exists i ::
      && 0 <= i < |gates|
      && (gates[i].methods.Some? ==> Upper(verb) in gates[i].methods.value)
      && code in CodesOf(gates[i].kind)
  }

  /** The codes a chain of gates can answer before its handler runs, in order. */
  method ExpectedCodes(gates: seq<Gate>, verb: Text) returns (codes: seq<nat>)
    ensures Ascending(codes)
    ensures forall c :: c in codes <==> IsExpected(gates, verb, c)
  {
    hide Applies, IsExpected, Ascending;
    var kinds := set i | 0 <= i < |gates| && Applies(gates[i], verb) :: gates[i].kind;
    assert forall k :: k in kinds <==> HasKind(gates, verb, k);
    hide HasKind;
    codes := [];
    NothingAscends();
    if Auth in kinds || Permission in kinds { codes := AddCode(codes, 401); }
    if Permission in kinds { codes := AddCode(codes, 403); }
    if Service in kinds { codes := AddCode(codes, 401); }
    if RateLimit in kinds { codes := AddCode(codes, 429); }
    if Validation in kinds { codes := AddCode(codes, 400); }
    if FeedToken in kinds { codes := AddCode(codes, 404); }
    if BodyLimit in kinds { codes := AddCode(codes, 413); }
    forall c ensures c in codes <==> IsExpected(gates, verb, c) {
      ExpectedByKind(gates, verb, c);
    }
  }

  /** A code is expected exactly when a kind that answers it is present. */
  lemma ExpectedByKind(gates: seq<Gate>, verb: Text, code: nat)
    ensures IsExpected(gates, verb, code) <==>
              || (code == 401 && HasKind(gates, verb, Auth))
              || (code == 401 && HasKind(gates, verb, Permission))
              || (code == 401 && HasKind(gates, verb, Service))
              || (code == 403 && HasKind(gates, verb, Permission))
              || (code == 429 && HasKind(gates, verb, RateLimit))
              || (code == 400 && HasKind(gates, verb, Validation))
              || (code == 404 && HasKind(gates, verb, FeedToken))
              || (code == 413 && HasKind(gates, verb, BodyLimit))
  {
    hide Upper;
    if IsExpected(gates, verb, code) {
      var i :| 0 <= i < |gates| && Applies(gates[i], verb) && code in CodesOf(gates[i].kind);
      assert HasKind(gates, verb, gates[i].kind);
    }
    forall k | HasKind(gates, verb, k) && code in CodesOf(k) ensures IsExpected(gates, verb, code) {
      var i :| 0 <= i < |gates| && Applies(gates[i], verb) && gates[i].kind == k;
      assert gates[i].methods.Some? ==> Upper(verb) in gates[i].methods.value;
    }
    assert code in CodesOf(Auth) <==> code == 401;
    assert code in CodesOf(Permission) <==> code == 401 || code == 403;
    assert code in CodesOf(Service) <==> code == 401;
  }
}
