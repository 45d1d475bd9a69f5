/**
 What a fetch comes to, for every course of redirects and every way in which the
 last hop can end (`src/lib/remoteFetch.ts`).
 */
module RemoteFetchOutcomes {
  import opened Texts
  import opened RemoteFetch
  import opened RemoteFetchSafety

  // ---------------------------------------------------------------------
  // Runs, told from the front
  // ---------------------------------------------------------------------

  /** The state after some events from `s` on. */
  function After(o: Options, s: State, es: seq<Event>): State
    decreases |es|
  {
    if es == [] then s else After(o, Step(o, s, es[0]), es[1..])
  }

  lemma AfterOne(o: Options, s: State, e: Event)
    ensures After(o, s, [e]) == Step(o, s, e)
  {
    assert [e][1..] == [];
  }

  lemma {:induction false} AfterBoth(o: Options, s: State, a: seq<Event>, b: seq<Event>)
    ensures After(o, s, a + b) == After(o, After(o, s, a), b)
    decreases |a|
  {
    hide Step;
    if a == [] {
      assert a + b == b;
    } else {
      assert (a + b)[1..] == a[1..] + b;
      AfterBoth(o, Step(o, s, a[0]), a[1..], b);
    }
  }

  lemma {:induction false} RunIsAfter(o: Options, raw: Text, es: seq<Event>)
    ensures Run(o, raw, es) == After(o, Start(o, raw), es)
    decreases |es|
  {
    hide Step, Start;
    if es == [] { return; }
    var front, e := es[..|es| - 1], es[|es| - 1];
    RunIsAfter(o, raw, front);
    assert es == front + [e];
    AfterBoth(o, Start(o, raw), front, [e]);
    AfterOne(o, After(o, Start(o, raw), front), e);
  }

  lemma {:induction false} SettledStays(o: Options, s: State, es: seq<Event>)
    requires s.phase.Done?
    ensures After(o, s, es).phase == s.phase
    decreases |es|
  {
    if es != [] { SettledStays(o, Step(o, s, es[0]), es[1..]); }
  }

  // ---------------------------------------------------------------------
  // Dialing
  // ---------------------------------------------------------------------

  /** A check that passes, and the name lookups of the dial. */
  datatype Dial = Dial(url: Text, addresses: seq<Vetted>, lookups: seq<bool>)

  /** No lookup is for one address when none was vetted. */
  predicate CanDial(d: Dial) { d.addresses != [] || forall i :: 0 <= i < |d.lookups| ==> d.lookups[i] }

  function Lookups(lookups: seq<bool>): seq<Event> {
    if lookups == [] then [] else [Lookup(lookups[0])] + Lookups(lookups[1..])
  }

  function DialEvents(d: Dial): seq<Event> { [GuardAnswers(Allowed(d.url, d.addresses))] + Lookups(d.lookups) }

  /** Ready for the next check, with this target and after that many redirects. */
  ghost predicate Ready(s: State, target: Text, hop: nat) {
    s.phase.Checking? && s.target == target && s.hop == hop && !s.aborted
  }

  /** Waiting for the answer to this dial, after that many redirects. */
  ghost predicate Awaits(s: State, d: Dial, hop: nat) {
    && s.phase == Waiting(d.url, d.addresses) && s.hop == hop && !s.aborted
    && !s.listening && s.size == 0 && s.chunks == []
  }

  lemma {:induction false} LookupsKeepWaiting(o: Options, s: State, lookups: seq<bool>, d: Dial, hop: nat)
    requires Awaits(s, d, hop)
    requires d.addresses != [] || forall i :: 0 <= i < |lookups| ==> lookups[i]
    ensures Awaits(After(o, s, Lookups(lookups)), d, hop)
    decreases |lookups|
  {
    if lookups != [] {
      var rest := Lookups(lookups[1..]);
      assert ([Lookup(lookups[0])] + rest)[1..] == rest;
      LookupsKeepWaiting(o, Step(o, s, Lookup(lookups[0])), lookups[1..], d, hop);
    }
  }

  lemma Dials(o: Options, s: State, d: Dial, target: Text, hop: nat)
    requires Ready(s, target, hop) && CanDial(d)
    ensures Awaits(After(o, s, DialEvents(d)), d, hop)
  {
    var checked := Step(o, s, GuardAnswers(Allowed(d.url, d.addresses)));
    assert Awaits(checked, d, hop);
    hide Step, Awaits;
    AfterBoth(o, s, [GuardAnswers(Allowed(d.url, d.addresses))], Lookups(d.lookups));
    AfterOne(o, s, GuardAnswers(Allowed(d.url, d.addresses)));
    LookupsKeepWaiting(o, checked, d.lookups, d, hop);
  }

  // ---------------------------------------------------------------------
  // Redirects
  // ---------------------------------------------------------------------

  /** A hop that is redirected: a 3xx with a location. */
  datatype Hop = Hop(dial: Dial, status: nat, location: Text, declared: Option<int>)

  function HopEvents(h: Hop): seq<Event> {
    DialEvents(h.dial) + [Response(h.status, Some(h.location), h.declared)]
  }

  function HopsEvents(hops: seq<Hop>): seq<Event> {
    if hops == [] then [] else HopsEvents(hops[..|hops| - 1]) + HopEvents(hops[|hops| - 1])
  }

  /** Every location resolves against the address that sent it. */
  predicate Redirects(o: Options, hops: seq<Hop>) {
    forall i :: 0 <= i < |hops| ==>
      && CanDial(hops[i].dial)
      && 300 <= hops[i].status < 400
      && o.resolve(hops[i].location, hops[i].dial.url).Some?
  }

  /** Where the redirects lead. */
  function LastTarget(o: Options, raw: Text, hops: seq<Hop>): Text
    requires Redirects(o, hops)
  {
    if hops == [] then raw else o.resolve(hops[|hops| - 1].location, hops[|hops| - 1].dial.url).value
  }

  lemma RedirectStep(o: Options, s: State, h: Hop, hop: nat)
    requires Awaits(s, h.dial, hop)
    requires 300 <= h.status < 400 && o.resolve(h.location, h.dial.url).Some?
    ensures var r := Step(o, s, Response(h.status, Some(h.location), h.declared));
            if hop < o.maxRedirects then Ready(r, o.resolve(h.location, h.dial.url).value, hop + 1)
            else r.phase == Done(Failure(TooManyRedirects, false))
  {}

  lemma HopRuns(o: Options, s: State, h: Hop, target: Text, hop: nat)
    requires Ready(s, target, hop) && CanDial(h.dial)
    requires 300 <= h.status < 400 && o.resolve(h.location, h.dial.url).Some?
    ensures var r := After(o, s, HopEvents(h));
            if hop < o.maxRedirects then Ready(r, o.resolve(h.location, h.dial.url).value, hop + 1)
            else r.phase == Done(Failure(TooManyRedirects, false))
  {
    hide *;
    Dials(o, s, h.dial, target, hop);
    var answer := Response(h.status, Some(h.location), h.declared);
    HopIs(h);
    AfterBoth(o, s, DialEvents(h.dial), [answer]);
    AfterOne(o, After(o, s, DialEvents(h.dial)), answer);
    RedirectStep(o, After(o, s, DialEvents(h.dial)), h, hop);
  }

  lemma HopIs(h: Hop)
    ensures HopEvents(h) == DialEvents(h.dial) + [Response(h.status, Some(h.location), h.declared)]
  {}

  lemma StartIsReady(o: Options, raw: Text)
    ensures if o.maxRedirects >= 0 then Ready(Start(o, raw), raw, 0)
            else Start(o, raw).phase == Done(Failure(TooManyRedirects, false))
  {}

  lemma FrontRedirects(o: Options, hops: seq<Hop>)
    requires Redirects(o, hops) && hops != []
    ensures Redirects(o, hops[..|hops| - 1])
    ensures var h := hops[|hops| - 1];
            CanDial(h.dial) && 300 <= h.status < 400 && o.resolve(h.location, h.dial.url).Some?
  {
    hide CanDial;
  }

  lemma HopsSplit(hops: seq<Hop>)
    requires hops != []
    ensures HopsEvents(hops) == HopsEvents(hops[..|hops| - 1]) + HopEvents(hops[|hops| - 1])
  {}

  /** Within the budget the redirects lead to the target of the last one; past it
      the fetch has failed. */
  lemma {:induction false} HopsRun(o: Options, raw: Text, hops: seq<Hop>)
    requires Redirects(o, hops)
    ensures var r := After(o, Start(o, raw), HopsEvents(hops));
            if |hops| <= o.maxRedirects then Ready(r, LastTarget(o, raw, hops), |hops|)
            else r.phase == Done(Failure(TooManyRedirects, false))
    decreases |hops|
  {
    if hops == [] {
      StartIsReady(o, raw);
    } else {
      hide After, Start, HopsEvents, HopEvents, Ready, CanDial;
      var front, h := hops[..|hops| - 1], hops[|hops| - 1];
      FrontRedirects(o, hops);
      HopsSplit(hops);
      HopsRun(o, raw, front);
      AfterBoth(o, Start(o, raw), HopsEvents(front), HopEvents(h));
      var s := After(o, Start(o, raw), HopsEvents(front));
      if |front| <= o.maxRedirects {
        HopRuns(o, s, h, LastTarget(o, raw, front), |front|);
      } else {
        SettledStays(o, s, HopEvents(h));
      }
    }
  }

  // ---------------------------------------------------------------------
  // The body
  // ---------------------------------------------------------------------

  function DataEvents(chunks: seq<Bytes>): seq<Event> {
    if chunks == [] then [] else DataEvents(chunks[..|chunks| - 1]) + [Data(chunks[|chunks| - 1])]
  }

  /** Reading the body of `url` with these chunks so far. */
  ghost predicate Reads(s: State, url: Text, chunks: seq<Bytes>) {
    && s.phase == Reading(url) && s.listening
    && s.chunks == chunks && s.size == |Concat(chunks)| && !s.aborted
  }

  /** Nothing came, or what came fits. */
  predicate Fits(o: Options, chunks: seq<Bytes>) { chunks == [] || |Concat(chunks)| <= o.maxBytes }

  lemma DataStep(o: Options, s: State, url: Text, chunks: seq<Bytes>, chunk: Bytes)
    requires Reads(s, url, chunks)
    ensures var r := Step(o, s, Data(chunk));
            if |Concat(chunks + [chunk])| <= o.maxBytes then Reads(r, url, chunks + [chunk])
            else r.phase == Done(Failure(TooLarge, false))
  {
    ConcatOneMore(chunks, chunk);
    hide Concat;
  }

  lemma DataSplit(chunks: seq<Bytes>)
    requires chunks != []
    ensures DataEvents(chunks) == DataEvents(chunks[..|chunks| - 1]) + [Data(chunks[|chunks| - 1])]
  {}

  lemma LastApart(chunks: seq<Bytes>)
    requires chunks != []
    ensures chunks == chunks[..|chunks| - 1] + [chunks[|chunks| - 1]]
  {}

  lemma FitsMeans(o: Options, chunks: seq<Bytes>)
    ensures Fits(o, chunks) <==> chunks == [] || |Concat(chunks)| <= o.maxBytes
  {
    hide Concat;
  }

  lemma LessThanAll(chunks: seq<Bytes>, chunk: Bytes)
    ensures |Concat(chunks)| <= |Concat(chunks + [chunk])|
  {
    ConcatOneMore(chunks, chunk);
    hide Concat;
  }

  lemma NoData(o: Options, s: State)
    ensures After(o, s, DataEvents([])) == s
  {}

  lemma {:induction false} DataRuns(o: Options, s: State, url: Text, chunks: seq<Bytes>)
    requires Reads(s, url, [])
    ensures var r := After(o, s, DataEvents(chunks));
            if Fits(o, chunks) then Reads(r, url, chunks) else r.phase == Done(Failure(TooLarge, false))
    decreases |chunks|
  {
    hide *;
    FitsMeans(o, chunks);
    if chunks == [] {
      NoData(o, s);
    } else {
      var front, chunk := chunks[..|chunks| - 1], chunks[|chunks| - 1];
      DataSplit(chunks);
      LastApart(chunks);
      DataRuns(o, s, url, front);
      FitsMeans(o, front);
      AfterBoth(o, s, DataEvents(front), [Data(chunk)]);
      var t := After(o, s, DataEvents(front));
      AfterOne(o, t, Data(chunk));
      if Fits(o, front) {
        DataStep(o, t, url, front, chunk);
      } else {
        LessThanAll(front, chunk);
        SettledStays(o, t, [Data(chunk)]);
      }
    }
  }

  // ---------------------------------------------------------------------
  // How a fetch ends
  // ---------------------------------------------------------------------

  /** What the redirects and the last dial come to, before its answer. */
  function Course(hops: seq<Hop>, last: Dial): seq<Event> { HopsEvents(hops) + DialEvents(last) }

  lemma CourseAwaits(o: Options, raw: Text, hops: seq<Hop>, last: Dial)
    requires Redirects(o, hops) && |hops| <= o.maxRedirects && CanDial(last)
    ensures Awaits(After(o, Start(o, raw), Course(hops, last)), last, |hops|)
  {
    HopsRun(o, raw, hops);
    hide Redirects, After, Start, HopsEvents, DialEvents, Ready, Awaits, LastTarget;
    AfterBoth(o, Start(o, raw), HopsEvents(hops), DialEvents(last));
    Dials(o, After(o, Start(o, raw), HopsEvents(hops)), last, LastTarget(o, raw, hops), |hops|);
  }

  /** Some events that settle the waiting state settle the whole run, for good. */
  lemma CourseSettles(o: Options, raw: Text, hops: seq<Hop>, last: Dial, end: seq<Event>, more: seq<Event>)
    requires After(o, After(o, Start(o, raw), Course(hops, last)), end).phase.Done?
    ensures Run(o, raw, Course(hops, last) + end + more).phase
         == After(o, After(o, Start(o, raw), Course(hops, last)), end).phase
  {
    hide *;
    var course := Course(hops, last);
    RunIsAfter(o, raw, course + end + more);
    AfterBoth(o, Start(o, raw), course + end, more);
    AfterBoth(o, Start(o, raw), course, end);
    SettledStays(o, After(o, Start(o, raw), course + end), more);
  }

  /** The answer of the last hop, on which everything else depends. */
  lemma AnswerRuns(o: Options, s: State, answer: Event, more: seq<Event>)
    ensures After(o, s, [answer] + more) == After(o, Step(o, s, answer), more)
  {
    hide Step;
    AfterBoth(o, s, [answer], more);
    AfterOne(o, s, answer);
  }

  lemma Accepts(o: Options, s: State, d: Dial, hop: nat, status: nat, location: Option<Text>, declared: Option<int>)
    requires Awaits(s, d, hop) && 200 <= status < 300
    ensures var r := Step(o, s, Response(status, location, declared));
            if declared.Some? && declared.value > o.maxBytes then r.phase == Done(Failure(TooLarge, false))
            else Reads(r, d.url, [])
  {}

  lemma EndStep(o: Options, s: State, url: Text, chunks: seq<Bytes>)
    requires Reads(s, url, chunks)
    ensures Step(o, s, End).phase == Done(Success(Concat(chunks), url))
  {
    hide Concat;
  }

  /** After any redirects within the budget, a 2xx answer whose declared length, if
      any, is within the cap gives success with the whole body when the body is
      within the cap, under the address that was checked last; and the size
      failure when it is not. Nothing that comes later changes it. */
  lemma BodyDecides(
    o: Options, raw: Text, hops: seq<Hop>, last: Dial, status: nat, location: Option<Text>, declared: Option<int>,
    chunks: seq<Bytes>, more: seq<Event>)
    requires Redirects(o, hops) && |hops| <= o.maxRedirects && CanDial(last)
    requires 200 <= status < 300 && (declared.Some? ==> declared.value <= o.maxBytes)
    ensures var body := [Response(status, location, declared)] + DataEvents(chunks) + [End];
            Run(o, raw, Course(hops, last) + body + more).phase
            == Done(if Fits(o, chunks) then Success(Concat(chunks), last.url) else Failure(TooLarge, false))
  {
    hide *;
    var s := After(o, Start(o, raw), Course(hops, last));
    CourseAwaits(o, raw, hops, last);
    var answer := Response(status, location, declared);
    Accepts(o, s, last, |hops|, status, location, declared);
    var t := Step(o, s, answer);
    var read := After(o, t, DataEvents(chunks));
    DataRuns(o, t, last.url, chunks);
    AfterBoth(o, t, DataEvents(chunks), [End]);
    AfterOne(o, read, End);
    AnswerRuns(o, s, answer, DataEvents(chunks) + [End]);
    assert [answer] + (DataEvents(chunks) + [End]) == [answer] + DataEvents(chunks) + [End];
    if Fits(o, chunks) {
      EndStep(o, read, last.url, chunks);
    } else {
      SettledStays(o, read, [End]);
    }
    CourseSettles(o, raw, hops, last, [answer] + DataEvents(chunks) + [End], more);
  }

  /** Why an answer without a body fails; None for an answer that is read. */
  function RefusalOf(
    o: Options, url: Text, status: nat, location: Option<Text>, declared: Option<int>): Option<FetchResult>
  {
    if status < 200 || status >= 400 then Some(Failure(HostAnswered(status), status >= 500 || status == 429))
    else if status >= 300 then
      if location.None? then Some(Failure(NoLocation(status), false))
      else if o.resolve(location.value, url).None?
      then Some(Failure(ConnectionFailed(Some(Lit("ERR_INVALID_URL"))), true))
      else None
    else if declared.Some? && declared.value > o.maxBytes then Some(Failure(TooLarge, false))
    else None
  }

  lemma Refuses(o: Options, s: State, d: Dial, hop: nat, status: nat, location: Option<Text>, declared: Option<int>)
    requires Awaits(s, d, hop) && RefusalOf(o, d.url, status, location, declared).Some?
    ensures Step(o, s, Response(status, location, declared)).phase
         == Done(RefusalOf(o, d.url, status, location, declared).value)
  {}

  /** After any redirects within the budget, an answer that has no body to read
      fails for its own reason, whatever comes later: a status outside 2xx and 3xx
      with that status, retryable for 429 and from 500 on; a 3xx without a location;
      a location that does not resolve; a declared length over the cap. */
  lemma AnswerRefused(
    o: Options, raw: Text, hops: seq<Hop>, last: Dial, status: nat, location: Option<Text>, declared: Option<int>,
    more: seq<Event>)
    requires Redirects(o, hops) && |hops| <= o.maxRedirects && CanDial(last)
    requires RefusalOf(o, last.url, status, location, declared).Some?
    ensures Run(o, raw, Course(hops, last) + [Response(status, location, declared)] + more).phase
         == Done(RefusalOf(o, last.url, status, location, declared).value)
  {
    hide *;
    var s := After(o, Start(o, raw), Course(hops, last));
    CourseAwaits(o, raw, hops, last);
    var answer := Response(status, location, declared);
    AfterOne(o, s, answer);
    Refuses(o, s, last, |hops|, status, location, declared);
    CourseSettles(o, raw, hops, last, [answer], more);
  }

  /** One redirect more than the budget allows fails, whatever comes later. */
  lemma RedirectsRunOut(o: Options, raw: Text, hops: seq<Hop>, more: seq<Event>)
    requires Redirects(o, hops) && |hops| > o.maxRedirects
    ensures Run(o, raw, HopsEvents(hops) + more).phase == Done(Failure(TooManyRedirects, false))
  {
    HopsRun(o, raw, hops);
    hide *;
    RunIsAfter(o, raw, HopsEvents(hops) + more);
    AfterBoth(o, Start(o, raw), HopsEvents(hops), more);
    SettledStays(o, After(o, Start(o, raw), HopsEvents(hops)), more);
  }

  /** Within the budget the next check is of the target of the last redirect. */
  lemma RedirectsLead(o: Options, raw: Text, hops: seq<Hop>)
    requires Redirects(o, hops) && |hops| <= o.maxRedirects
    ensures Run(o, raw, HopsEvents(hops)).phase == Checking
    ensures Run(o, raw, HopsEvents(hops)).target == LastTarget(o, raw, hops)
  {
    HopsRun(o, raw, hops);
    RunIsAfter(o, raw, HopsEvents(hops));
    hide After, HopsEvents, Run, LastTarget;
  }

  /** Why a check ends the fetch; None when it lets it go on. */
  function CheckFails(answer: Answer): Option<FetchResult> {
    match answer
    case Refused(reason) => Some(Failure(GuardReason(reason), false))
    case Threw(code) => Some(Failure(ConnectionFailed(code), true))
    case Allowed(_, _) => None
  }

  /** A check that does not pass ends the fetch, at any hop. */
  lemma CheckDecides(o: Options, raw: Text, hops: seq<Hop>, answer: Answer, more: seq<Event>)
    requires Redirects(o, hops) && |hops| <= o.maxRedirects && CheckFails(answer).Some?
    ensures Run(o, raw, HopsEvents(hops) + [GuardAnswers(answer)] + more).phase == Done(CheckFails(answer).value)
  {
    HopsRun(o, raw, hops);
    CheckStep(o, After(o, Start(o, raw), HopsEvents(hops)), LastTarget(o, raw, hops), |hops|, answer);
    hide *;
    var s := After(o, Start(o, raw), HopsEvents(hops));
    RunIsAfter(o, raw, HopsEvents(hops) + [GuardAnswers(answer)] + more);
    AfterBoth(o, Start(o, raw), HopsEvents(hops) + [GuardAnswers(answer)], more);
    AfterBoth(o, Start(o, raw), HopsEvents(hops), [GuardAnswers(answer)]);
    AfterOne(o, s, GuardAnswers(answer));
    SettledStays(o, Step(o, s, GuardAnswers(answer)), more);
  }

  lemma CheckStep(o: Options, s: State, target: Text, hop: nat, answer: Answer)
    requires Ready(s, target, hop) && CheckFails(answer).Some?
    ensures Step(o, s, GuardAnswers(answer)).phase == Done(CheckFails(answer).value)
  {}

  /** A lookup of the last hop is answered with all the addresses its check vetted, or
      with the first of them when one is asked for; with none to give it fails. */
  lemma LookupAnswers(o: Options, raw: Text, hops: seq<Hop>, last: Dial, all: bool)
    requires Redirects(o, hops) && |hops| <= o.maxRedirects && CanDial(last)
    ensures var before, after := Run(o, raw, Course(hops, last)), Run(o, raw, Course(hops, last) + [Lookup(all)]);
            if last.addresses == [] && !all then after.phase == Done(Failure(ConnectionFailed(None), true))
            else
              && after.trace == before.trace + [Pinned(if all then last.addresses else last.addresses[..1])]
              && after.phase == before.phase == Waiting(last.url, last.addresses)
  {
    CourseAwaits(o, raw, hops, last);
    var s := After(o, Start(o, raw), Course(hops, last));
    assert s.phase == Waiting(last.url, last.addresses) && !s.aborted;
    LookupStep(o, s, last, all);
    hide *;
    RunIsAfter(o, raw, Course(hops, last));
    RunIsAfter(o, raw, Course(hops, last) + [Lookup(all)]);
    AfterBoth(o, Start(o, raw), Course(hops, last), [Lookup(all)]);
    AfterOne(o, s, Lookup(all));
  }

  lemma LookupStep(o: Options, s: State, d: Dial, all: bool)
    requires s.phase == Waiting(d.url, d.addresses) && !s.aborted
    ensures var r := Step(o, s, Lookup(all));
            if d.addresses == [] && !all then r.phase == Done(Failure(ConnectionFailed(None), true))
            else
              && r.trace == s.trace + [Pinned(if all then d.addresses else d.addresses[..1])]
              && r.phase == s.phase
  {
    if d.addresses != [] { assert d.addresses[..1] == [d.addresses[0]]; }
  }

  /** A connection that breaks before the last hop has answered fails the fetch: as
      timed out when the time was up before, with its code otherwise. */
  lemma FaultDecides(
    o: Options, raw: Text, hops: seq<Hop>, last: Dial, timeUp: bool, code: Option<Text>, more: seq<Event>)
    requires Redirects(o, hops) && |hops| <= o.maxRedirects && CanDial(last)
    ensures Run(o, raw, Course(hops, last) + ((if timeUp then [TimeUp] else []) + [Fault(code)]) + more).phase
         == Done(Failure(if timeUp then TimedOut else ConnectionFailed(code), true))
  {
    CourseAwaits(o, raw, hops, last);
    FaultRuns(o, After(o, Start(o, raw), Course(hops, last)), last, |hops|, timeUp, code);
    hide *;
    CourseSettles(o, raw, hops, last, (if timeUp then [TimeUp] else []) + [Fault(code)], more);
  }

  lemma ReadingFault(o: Options, s: State, url: Text, chunks: seq<Bytes>, code: Option<Text>)
    requires Reads(s, url, chunks)
    ensures Step(o, s, Fault(code)).phase == Done(Failure(ConnectionFailed(code), true))
  {}

  /** A body that breaks off is never returned in part. */
  lemma BrokenBodyFails(
    o: Options, raw: Text, hops: seq<Hop>, last: Dial, status: nat, location: Option<Text>, declared: Option<int>,
    chunks: seq<Bytes>, code: Option<Text>, more: seq<Event>)
    requires Redirects(o, hops) && |hops| <= o.maxRedirects && CanDial(last)
    requires 200 <= status < 300 && (declared.Some? ==> declared.value <= o.maxBytes) && Fits(o, chunks)
    ensures var body := [Response(status, location, declared)] + DataEvents(chunks) + [Fault(code)];
            Run(o, raw, Course(hops, last) + body + more).phase == Done(Failure(ConnectionFailed(code), true))
  {
    hide *;
    var s := After(o, Start(o, raw), Course(hops, last));
    CourseAwaits(o, raw, hops, last);
    var answer := Response(status, location, declared);
    Accepts(o, s, last, |hops|, status, location, declared);
    var t := Step(o, s, answer);
    DataRuns(o, t, last.url, chunks);
    AfterBoth(o, t, DataEvents(chunks), [Fault(code)]);
    AfterOne(o, After(o, t, DataEvents(chunks)), Fault(code));
    AnswerRuns(o, s, answer, DataEvents(chunks) + [Fault(code)]);
    assert [answer] + (DataEvents(chunks) + [Fault(code)]) == [answer] + DataEvents(chunks) + [Fault(code)];
    ReadingFault(o, After(o, t, DataEvents(chunks)), last.url, chunks, code);
    CourseSettles(o, raw, hops, last, [answer] + DataEvents(chunks) + [Fault(code)], more);
  }

  lemma FaultRuns(o: Options, s: State, d: Dial, hop: nat, timeUp: bool, code: Option<Text>)
    requires Awaits(s, d, hop)
    ensures After(o, s, (if timeUp then [TimeUp] else []) + [Fault(code)]).phase
         == Done(Failure(if timeUp then TimedOut else ConnectionFailed(code), true))
  {
    AfterBoth(o, s, if timeUp then [TimeUp] else [], [Fault(code)]);
    AfterOne(o, s, TimeUp);
    AfterOne(o, After(o, s, if timeUp then [TimeUp] else []), Fault(code));
  }
}
