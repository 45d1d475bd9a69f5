/**
 What every run of the remote fetch keeps, against any guard, network and clock
 (`src/lib/remoteFetch.ts`).
 */
module RemoteFetchSafety {
  import opened Texts
  import opened RemoteFetch

  // ---------------------------------------------------------------------
  // The record
  // ---------------------------------------------------------------------

  /** Where the latest dial stands in the record; -1 when there was none. */
  function LastDial(trace: seq<Action>): (i: int)
    ensures -1 <= i < |trace|
    ensures i >= 0 ==> trace[i].Dialed?
    ensures forall k :: i < k < |trace| ==> !trace[k].Dialed?
  {
    if trace == [] then -1
    else if trace[|trace| - 1].Dialed? then |trace| - 1
    else LastDial(trace[..|trace| - 1])
  }

  function Dials(trace: seq<Action>): nat {
    if trace == [] then 0 else Dials(trace[..|trace| - 1]) + if trace[|trace| - 1].Dialed? then 1 else 0
  }

  /** Is the last action of the record justified by what precedes it? A check is
      of the first target or of the target just redirected to; a dial follows a
      successful check of that same target and uses what it vetted; a pinned
      answer is of addresses vetted for the latest dial; a redirect resolves
      against the URL last dialed. */
  ghost predicate Justified(o: Options, raw: Text, before: seq<Action>, a: Action) {
    match a
    case Checked(target, _) =>
      if before == [] then target == raw
      else before[|before| - 1].Redirected? && before[|before| - 1].target == target
    case Dialed(target, url, addresses) =>
      before != [] && before[|before| - 1] == Checked(target, Allowed(url, addresses))
    case Pinned(addresses) =>
      LastDial(before) >= 0 && forall v :: v in addresses ==> v in before[LastDial(before)].addresses
    case Redirected(location, target) =>
      LastDial(before) >= 0 && o.resolve(location, before[LastDial(before)].url) == Some(target)
  }

  ghost predicate RecordOk(o: Options, raw: Text, trace: seq<Action>) {
    forall i :: 0 <= i < |trace| ==> Justified(o, raw, trace[..i], trace[i])
  }

  lemma RecordGrows(o: Options, raw: Text, trace: seq<Action>, a: Action)
    requires RecordOk(o, raw, trace) && Justified(o, raw, trace, a)
    ensures RecordOk(o, raw, trace + [a])
  {
    hide Justified;
    var longer := trace + [a];
    assert longer[..|trace|] == trace;
    forall i | 0 <= i < |longer| ensures Justified(o, raw, longer[..i], longer[i]) {
      assert longer[..i] == trace[..i];
    }
  }

  lemma LastDialOf(trace: seq<Action>, a: Action)
    ensures LastDial(trace + [a]) == if a.Dialed? then |trace| else LastDial(trace)
    ensures Dials(trace + [a]) == Dials(trace) + if a.Dialed? then 1 else 0
  {
    assert (trace + [a])[..|trace|] == trace;
  }

  // ---------------------------------------------------------------------
  // The invariant
  // ---------------------------------------------------------------------

  function Cap(o: Options): nat { if o.maxBytes < 0 then 0 else o.maxBytes }

  ghost predicate Dialing(s: State, url: Text) {
    var i := LastDial(s.trace);
    i >= 0 && s.trace[i].target == s.target && s.trace[i].url == url
  }

  ghost predicate ReasonFits(r: FetchResult) {
    r.Failure? ==>
      (r.retryable <==>
         r.reason.TimedOut? || r.reason.ConnectionFailed?
         || (r.reason.HostAnswered? && (r.reason.status >= 500 || r.reason.status == 429)))
  }

  /** What every reachable state keeps. */
  ghost predicate Inv(o: Options, raw: Text, s: State) {
    && RecordOk(o, raw, s.trace)
    && |Concat(s.chunks)| <= Cap(o)
    && (s.size <= o.maxBytes ==> |Concat(s.chunks)| == s.size)
    && (s.phase.Checking? ==>
          && Dials(s.trace) == s.hop <= o.maxRedirects
          && if s.trace == [] then s.target == raw
             else s.trace[|s.trace| - 1].Redirected? && s.trace[|s.trace| - 1].target == s.target)
    && (s.phase.Waiting? || s.phase.Reading? ==> Dials(s.trace) == s.hop + 1 <= o.maxRedirects + 1)
    && (s.phase.Waiting? ==>
          Dialing(s, s.phase.url) && s.trace[LastDial(s.trace)].addresses == s.phase.addresses
          && !s.listening && s.size == 0 && s.chunks == [])
    && (s.phase.Reading? ==> Dialing(s, s.phase.url) && s.listening && (s.size <= o.maxBytes || s.size == 0))
    && (s.phase.Done? ==>
          && Dials(s.trace) <= (if o.maxRedirects < 0 then 0 else o.maxRedirects + 1)
          && ReasonFits(s.phase.result))
    && (s.phase.Done? && s.phase.result.Success? ==>
          && |s.phase.result.data| <= Cap(o) && LastDial(s.trace) >= 0
          && s.trace[LastDial(s.trace)].url == s.phase.result.finalUrl)
  }

  lemma StartKeeps(o: Options, raw: Text)
    ensures Inv(o, raw, Start(o, raw))
  {}

  lemma GuardKeeps(o: Options, raw: Text, s: State, answer: Answer)
    requires Inv(o, raw, s) && s.phase == Checking
    ensures Inv(o, raw, OnGuard(s, answer))
  {
    hide RecordOk, LastDial, Dials;
    var a := Checked(s.target, answer);
    assert Justified(o, raw, s.trace, a);
    RecordGrows(o, raw, s.trace, a);
    LastDialOf(s.trace, a);
    if answer.Allowed? {
      var t1 := s.trace + [a];
      var d := Dialed(s.target, answer.url, answer.addresses);
      assert Justified(o, raw, t1, d);
      RecordGrows(o, raw, t1, d);
      LastDialOf(t1, d);
      assert Concat([]) == [];
    }
  }

  lemma LookupKeeps(o: Options, raw: Text, s: State, all: bool)
    requires Inv(o, raw, s) && s.phase.Waiting?
    ensures Inv(o, raw, OnLookup(s, all))
  {
    hide RecordOk, LastDial, Dials, Concat;
    var answer := PinnedLookup(s.phase.addresses, all);
    if answer.Some? {
      var a := Pinned(answer.value);
      assert Justified(o, raw, s.trace, a);
      RecordGrows(o, raw, s.trace, a);
      LastDialOf(s.trace, a);
    }
  }

  lemma ResponseKeeps(o: Options, raw: Text, s: State, status: nat, location: Option<Text>, declared: Option<int>)
    requires Inv(o, raw, s) && s.phase.Waiting?
    ensures Inv(o, raw, OnResponse(o, s, status, location, declared))
  {
    hide RecordOk, LastDial, Dials, Concat;
    if 300 <= status < 400 && location.Some? && o.resolve(location.value, s.phase.url).Some? {
      var a := Redirected(location.value, o.resolve(location.value, s.phase.url).value);
      assert Justified(o, raw, s.trace, a);
      RecordGrows(o, raw, s.trace, a);
      LastDialOf(s.trace, a);
    }
  }

  lemma ConcatOneMore(chunks: seq<Bytes>, chunk: Bytes)
    ensures Concat(chunks + [chunk]) == Concat(chunks) + chunk
  {
    assert (chunks + [chunk])[..|chunks|] == chunks;
  }

  lemma DataKeeps(o: Options, raw: Text, s: State, chunk: Bytes)
    requires Inv(o, raw, s) && s.listening
    ensures Inv(o, raw, OnData(o, s, chunk))
  {
    hide RecordOk, LastDial, Dials, Concat;
    ConcatOneMore(s.chunks, chunk);
  }

  /** Every event keeps the invariant, from every state that satisfies it. */
  lemma StepKeeps(o: Options, raw: Text, s: State, e: Event)
    requires Inv(o, raw, s)
    ensures Inv(o, raw, Step(o, s, e))
  {
    match e {
      case GuardAnswers(answer) => if s.phase.Checking? { GuardKeeps(o, raw, s, answer); }
      case Lookup(all) => if s.phase.Waiting? { LookupKeeps(o, raw, s, all); }
      case Response(status, location, declared) =>
        if s.phase.Waiting? { ResponseKeeps(o, raw, s, status, location, declared); }
      case Data(chunk) => if s.listening { DataKeeps(o, raw, s, chunk); }
      case End => SettlesKeep(o, raw, s, e);
      case Fault(_) => SettlesKeep(o, raw, s, e);
      case TimeUp => SettlesKeep(o, raw, s, e);
    }
  }

  lemma SettlesKeep(o: Options, raw: Text, s: State, e: Event)
    requires Inv(o, raw, s) && (e.End? || e.Fault? || e.TimeUp?)
    ensures Inv(o, raw, Step(o, s, e))
  {
    hide RecordOk, LastDial, Dials, Concat;
  }

  /** Every state of every run satisfies the invariant. */
  lemma {:induction false} RunKeeps(o: Options, raw: Text, es: seq<Event>)
    ensures Inv(o, raw, Run(o, raw, es))
    decreases |es|
  {
    hide Inv, Step, Start;
    if es == [] {
      StartKeeps(o, raw);
    } else {
      RunKeeps(o, raw, es[..|es| - 1]);
      StepKeeps(o, raw, Run(o, raw, es[..|es| - 1]), es[|es| - 1]);
    }
  }

  // ---------------------------------------------------------------------
  // What it means for a run
  // ---------------------------------------------------------------------

  lemma RecordMeans(o: Options, raw: Text, t: seq<Action>, i: nat)
    requires RecordOk(o, raw, t) && i < |t|
    ensures t[i].Dialed? ==> i > 0 && t[i - 1] == Checked(t[i].target, Allowed(t[i].url, t[i].addresses))
    ensures t[i].Checked? && i == 0 ==> t[i].target == raw
    ensures t[i].Checked? && i > 0 ==> t[i - 1].Redirected? && t[i - 1].target == t[i].target
    ensures t[i].Pinned? ==> PinnedFor(t, i)
  {
    hide LastDial;
    var before := t[..i];
    assert Justified(o, raw, before, t[i]);
    assert before == [] <==> i == 0;
    if t[i].Pinned? {
      var d := LastDial(before);
      assert forall k :: 0 <= k < i ==> before[k] == t[k];
    }
  }

  /** In every run each dial follows a successful check of that same target, on
      the very addresses the check vetted, and each lookup is answered with such
      addresses only. */
  lemma DialsAreVetted(o: Options, raw: Text, es: seq<Event>, i: nat)
    requires i < |Run(o, raw, es).trace|
    ensures var t := Run(o, raw, es).trace;
            && (t[i].Dialed? ==> i > 0 && t[i - 1] == Checked(t[i].target, Allowed(t[i].url, t[i].addresses)))
            && (t[i].Checked? && i == 0 ==> t[i].target == raw)
            && (t[i].Checked? && i > 0 ==> t[i - 1].Redirected? && t[i - 1].target == t[i].target)
            && (t[i].Pinned? ==> PinnedFor(t, i))
  {
    hide Run, RecordOk, PinnedFor;
    RunKeeps(o, raw, es);
    RecordMeans(o, raw, Run(o, raw, es).trace, i);
  }

  /** The answer recorded at `i` is of addresses vetted for the latest dial before it. */
  ghost predicate PinnedFor(t: seq<Action>, i: nat)
    requires i < |t| && t[i].Pinned?
  {
    exists d :: 0 <= d < i && t[d].Dialed?
      && (forall k :: d < k < i ==> !t[k].Dialed?)
      && forall v :: v in t[i].addresses ==> v in t[d].addresses
  }

  /** The budgets: at most `maxRedirects + 1` dials, and never more than
      `maxBytes` bytes held, settled or not. */
  lemma BudgetsHold(o: Options, raw: Text, es: seq<Event>)
    ensures var s := Run(o, raw, es);
            && Dials(s.trace) <= (if o.maxRedirects < 0 then 0 else o.maxRedirects + 1)
            && |Concat(s.chunks)| <= Cap(o)
  {
    hide Run;
    RunKeeps(o, raw, es);
  }

  /** A failure is marked retryable exactly for a timeout, a broken connection,
      a 5xx or a 429. */
  lemma {:induction false} RetryableExactly(o: Options, raw: Text, es: seq<Event>)
    requires Run(o, raw, es).phase.Done?
    ensures ReasonFits(Run(o, raw, es).phase.result)
  {
    hide Run;
    RunKeeps(o, raw, es);
  }

  lemma {:induction false} RunsOn(o: Options, raw: Text, es: seq<Event>, more: seq<Event>)
    ensures Run(o, raw, es).phase.Done? ==> Run(o, raw, es + more).phase == Run(o, raw, es).phase
    decreases |more|
  {
    if more == [] {
      assert es + more == es;
    } else {
      var front := more[..|more| - 1];
      RunsOn(o, raw, es, front);
      assert (es + more)[..|es + more| - 1] == es + front;
    }
  }

  /** Once the body passes the cap, the outcome is the cap failure, whatever
      events come later. */
  lemma OverCapIsFinal(o: Options, raw: Text, es: seq<Event>, chunk: Bytes, more: seq<Event>)
    requires Run(o, raw, es).phase.Reading? && Run(o, raw, es).size + |chunk| > o.maxBytes
    ensures Run(o, raw, es + [Data(chunk)] + more).phase == Done(CAP_OUTCOME)
  {
    var hit := es + [Data(chunk)];
    assert hit[..|es|] == es;
    RunKeeps(o, raw, es);
    assert Run(o, raw, hit).phase == Done(CAP_OUTCOME);
    RunsOn(o, raw, hit, more);
  }

  // ---------------------------------------------------------------------
  // Success returns exactly the final body
  // ---------------------------------------------------------------------

  /** The chunks among some events, in order. */
  function Chunks(es: seq<Event>): seq<Bytes> {
    if es == [] then []
    else Chunks(es[..|es| - 1]) + if es[|es| - 1].Data? then [es[|es| - 1].chunk] else []
  }

  /** The body being read is everything that came since the response of `url`. */
  ghost predicate ReadSince(o: Options, raw: Text, es: seq<Event>, i: nat, url: Text, chunks: seq<Bytes>) {
    && i < |es|
    && es[i].Response? && 200 <= es[i].status < 300
    && Run(o, raw, es[..i]).phase.Waiting? && Run(o, raw, es[..i]).phase.url == url
    && chunks == Chunks(es[i + 1..])
  }

  /** How a state comes to be reading: it was, or it accepts a 2xx response. */
  lemma ReadingStep(o: Options, s: State, e: Event)
    requires Step(o, s, e).phase.Reading? && (s.phase.Reading? ==> s.listening)
    ensures var t := Step(o, s, e);
            if s.phase.Reading? then t.phase == s.phase && t.chunks == s.chunks + (if e.Data? then [e.chunk] else [])
            else
              && s.phase.Waiting? && e.Response? && 200 <= e.status < 300
              && s.phase.url == t.phase.url && t.chunks == s.chunks
  {}

  /** How a state comes to have succeeded: it had, or it was reading and the body ended. */
  lemma SuccessStep(o: Options, s: State, e: Event)
    requires Step(o, s, e).phase.Done? && Step(o, s, e).phase.result.Success?
    ensures if s.phase.Done? then Step(o, s, e).phase == s.phase
            else s.phase.Reading? && e == End && Step(o, s, e).phase.result == Success(Concat(s.chunks), s.phase.url)
  {
    hide Concat;
  }

  lemma {:induction false} ReadingSinceResponse(o: Options, raw: Text, es: seq<Event>) returns (i: nat)
    requires Run(o, raw, es).phase.Reading?
    ensures ReadSince(o, raw, es, i, Run(o, raw, es).phase.url, Run(o, raw, es).chunks)
    decreases |es|
  {
    hide Inv, Step, Start, Chunks;
    StartsUndone(o, raw);
    var n := |es| - 1;
    var front, s, e := es[..n], Run(o, raw, es[..n]), es[n];
    RunKeeps(o, raw, front);
    BodyState(o, raw, s);
    ReadingStep(o, s, e);
    if s.phase.Reading? {
      i := ReadingSinceResponse(o, raw, front);
      assert front[..i] == es[..i] && front[i] == es[i];
      ChunksOneMore(front[i + 1..], e);
      assert es[i + 1..] == front[i + 1..] + [e];
    } else {
      i := n;
      assert es[i + 1..] == [];
      NoChunks();
    }
  }

  lemma NoChunks()
    ensures Chunks([]) == []
  {}

  lemma ChunksOneMore(es: seq<Event>, e: Event)
    ensures Chunks(es + [e]) == Chunks(es) + if e.Data? then [e.chunk] else []
  {
    assert (es + [e])[..|es|] == es;
  }

  lemma BodyState(o: Options, raw: Text, s: State)
    requires Inv(o, raw, s)
    ensures s.phase.Waiting? ==> s.chunks == []
    ensures s.phase.Reading? ==> s.listening
  {}

  /** When a run succeeds, it returns the concatenation, in order, of all the
      chunks that came between the accepted response of the final URL and its end,
      and that is within the cap. */
  lemma {:induction false} SuccessIsFinalBody(o: Options, raw: Text, es: seq<Event>) returns (i: nat, j: nat)
    requires Run(o, raw, es).phase.Done? && Run(o, raw, es).phase.result.Success?
    ensures var r := Run(o, raw, es).phase.result;
            && i < j < |es|
            && ReadSince(o, raw, es[..j], i, r.finalUrl, Chunks(es[i + 1..j]))
            && es[j] == End
            && r.data == Concat(Chunks(es[i + 1..j]))
            && |r.data| <= Cap(o)
    decreases |es|
  {
    hide Inv, Step, Start, Chunks, Concat;
    SuccessFits(o, raw, es);
    var n := |es| - 1;
    var front, s := es[..n], Run(o, raw, es[..n]);
    SuccessStep(o, s, es[n]);
    if s.phase.Done? {
      i, j := SuccessIsFinalBody(o, raw, front);
      assert front[..j] == es[..j] && front[i + 1..j] == es[i + 1..j];
    } else {
      RunKeeps(o, raw, front);
      i := ReadingSinceResponse(o, raw, front);
      j := n;
      assert front[i + 1..] == es[i + 1..j];
    }
  }

  lemma SuccessFits(o: Options, raw: Text, es: seq<Event>)
    requires Run(o, raw, es).phase.Done? && Run(o, raw, es).phase.result.Success?
    ensures |Run(o, raw, es).phase.result.data| <= Cap(o)
    ensures es != []
  {
    hide Run;
    RunKeeps(o, raw, es);
    StartsUndone(o, raw);
  }

  lemma StartsUndone(o: Options, raw: Text)
    ensures Run(o, raw, []).phase.Done? ==> !Run(o, raw, []).phase.result.Success?
    ensures !Run(o, raw, []).phase.Reading?
  {}
}
