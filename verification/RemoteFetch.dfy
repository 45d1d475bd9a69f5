/**
 Fetching a member-supplied URL: the check, dial, redirect and stream loop as a
 machine over whatever the guard and the network answer
 (`src/lib/remoteFetch.ts`).
 */
module RemoteFetch {
  import opened Texts

  type Byte = b: int | 0 <= b < 256
  type Bytes = seq<Byte>

  datatype Vetted = Vetted(address: Text, family: nat)

  /** What the egress check answers, or that it threw. */
  datatype Answer = Refused(reason: Text) | Allowed(url: Text, addresses: seq<Vetted>) | Threw(code: Option<Text>)

  datatype Reason =
    | GuardReason(text: Text)
    | NoLocation(status: nat)
    | HostAnswered(status: nat)
    | TooLarge
    | TimedOut
    | ConnectionFailed(code: Option<Text>)
    | TooManyRedirects

  datatype FetchResult = Success(data: Bytes, finalUrl: Text) | Failure(reason: Reason, retryable: bool)

  /** `resolve` stands for `new URL(location, base).toString()`, None when it throws. */
  datatype Options = Options(maxBytes: int, maxRedirects: int, resolve: (Text, Text) -> Option<Text>)

  /** What can happen next, in any order the guard, the network and the clock choose. */
  datatype Event =
    | GuardAnswers(answer: Answer)
    | Lookup(all: bool)
    | Response(status: nat, location: Option<Text>, declared: Option<int>)
    | Data(chunk: Bytes)
    | End
    | Fault(code: Option<Text>)
    | TimeUp

  /** What the program did, for the record. */
  datatype Action =
    | Checked(target: Text, answer: Answer)
    | Dialed(target: Text, url: Text, addresses: seq<Vetted>)
    | Pinned(addresses: seq<Vetted>)
    | Redirected(location: Text, target: Text)

  datatype Phase =
    | Checking
    | Waiting(url: Text, addresses: seq<Vetted>)
    | Reading(url: Text)
    | Done(result: FetchResult)

  /** `size` and `chunks` belong to the body listeners of the latest hop, which
      stay attached (`listening`) after the hop has settled. */
  datatype State = State(
    phase: Phase,
    target: Text,
    hop: nat,
    listening: bool,
    size: nat,
    chunks: seq<Bytes>,
    aborted: bool,
    trace: seq<Action>)

  const INVALID_URL: Text := Lit("ERR_INVALID_URL")

  // ---------------------------------------------------------------------
  // Outcomes
  // ---------------------------------------------------------------------

  function Concat(chunks: seq<Bytes>): Bytes {
    if chunks == [] then [] else Concat(chunks[..|chunks| - 1]) + chunks[|chunks| - 1]
  }

  /** `hopOutcome` for a hop without a body. */
  function HopOutcome(status: nat): FetchResult {
    if 300 <= status < 400 then Failure(NoLocation(status), false)
    else Failure(HostAnswered(status), status >= 500 || status == 429)
  }

  /** `errorOutcome` for anything but the size cap. */
  function ErrorOutcome(code: Option<Text>, timedOut: bool): FetchResult {
    if timedOut then Failure(TimedOut, true) else Failure(ConnectionFailed(code), true)
  }

  const CAP_OUTCOME: FetchResult := Failure(TooLarge, false)

  /** The addresses `pinnedLookup` answers with; None when it throws. */
  function PinnedLookup(addresses: seq<Vetted>, all: bool): Option<seq<Vetted>> {
    if all then Some(addresses) else if addresses == [] then None else Some([addresses[0]])
  }

  // ---------------------------------------------------------------------
  // The machine
  // ---------------------------------------------------------------------

  function Start(o: Options, raw: Text): State {
    var phase := if o.maxRedirects >= 0 then Checking else Done(Failure(TooManyRedirects, false));
    State(phase, raw, 0, false, 0, [], false, [])
  }

  function Settle(s: State, r: FetchResult): State { s.(phase := Done(r)) }

  function OnGuard(s: State, answer: Answer): State
    requires s.phase == Checking
  {
    var s1 := s.(trace := s.trace + [Checked(s.target, answer)]);
    match answer
    case Refused(reason) => Settle(s1, Failure(GuardReason(reason), false))
    case Threw(code) => Settle(s1, ErrorOutcome(code, s.aborted))
    case Allowed(url, addresses) =>
      s1.(phase := Waiting(url, addresses), listening := false, size := 0, chunks := [],
          trace := s1.trace + [Dialed(s.target, url, addresses)])
  }

  function OnLookup(s: State, all: bool): State
    requires s.phase.Waiting?
  {
    match PinnedLookup(s.phase.addresses, all)
    case Some(answer) => s.(trace := s.trace + [Pinned(answer)])
    case None => Settle(s, ErrorOutcome(None, s.aborted))
  }

  /** A redirect with a location: resolve it, and go round the loop if the budget allows. */
  function OnRedirect(o: Options, s: State, url: Text, location: Text): State {
    match o.resolve(location, url)
    case None => Settle(s, ErrorOutcome(Some(INVALID_URL), s.aborted))
    case Some(target) =>
      var s1 := s.(target := target, hop := s.hop + 1, trace := s.trace + [Redirected(location, target)]);
      if s1.hop > o.maxRedirects then Settle(s1, Failure(TooManyRedirects, false)) else s1.(phase := Checking)
  }

  function OnResponse(o: Options, s: State, status: nat, location: Option<Text>, declared: Option<int>): State
    requires s.phase.Waiting?
  {
    if 300 <= status < 400 && location.Some? then OnRedirect(o, s, s.phase.url, location.value)
    else if status < 200 || status >= 300 then Settle(s, HopOutcome(status))
    else if declared.Some? && declared.value > o.maxBytes then Settle(s, CAP_OUTCOME)
    else s.(phase := Reading(s.phase.url), listening := true)
  }

  /** A body chunk: counted first, then kept only if the total fits. */
  function OnData(o: Options, s: State, chunk: Bytes): State
    requires s.listening
  {
    var s1 := s.(size := s.size + |chunk|);
    if s1.size > o.maxBytes then if s.phase.Reading? then Settle(s1, CAP_OUTCOME) else s1
    else s1.(chunks := s.chunks + [chunk])
  }

  function Step(o: Options, s: State, e: Event): State {
    match e
    case GuardAnswers(answer) => if s.phase.Checking? then OnGuard(s, answer) else s
    case Lookup(all) => if s.phase.Waiting? then OnLookup(s, all) else s
    case Response(status, location, declared) =>
      if s.phase.Waiting? then OnResponse(o, s, status, location, declared) else s
    case Data(chunk) => if s.listening then OnData(o, s, chunk) else s
    case End => if s.phase.Reading? then Settle(s, Success(Concat(s.chunks), s.phase.url)) else s
    case Fault(code) => if s.phase.Waiting? || s.phase.Reading? then Settle(s, ErrorOutcome(code, s.aborted)) else s
    case TimeUp => s.(aborted := true)
  }

  function Run(o: Options, raw: Text, es: seq<Event>): State {
    if es == [] then Start(o, raw) else Step(o, Run(o, raw, es[..|es| - 1]), es[|es| - 1])
  }

  // ---------------------------------------------------------------------
  // The program
  // ---------------------------------------------------------------------

  /** The variables of one fetch: the loop's target and counter, the body
      listeners' size and chunks, and the abort signal. */
  class Fetch {
    var phase: Phase
    var target: Text
    var hop: nat
    var listening: bool
    var size: nat
    var chunks: seq<Bytes>
    var aborted: bool
    ghost var trace: seq<Action>

    ghost function Now(): State
      reads this
    {
      State(phase, target, hop, listening, size, chunks, aborted, trace)
    }

    constructor (o: Options, raw: Text)
      ensures Now() == Start(o, raw)
    {
      phase := if o.maxRedirects >= 0 then Checking else Done(Failure(TooManyRedirects, false));
      target, hop, listening, size, chunks, aborted, trace := raw, 0, false, 0, [], false, [];
    }

    method GuardAnswered(answer: Answer)
      requires phase == Checking
      modifies this
      ensures Now() == OnGuard(old(Now()), answer)
    {
      trace := trace + [Checked(target, answer)];
      match answer {
        case Refused(reason) => phase := Done(Failure(GuardReason(reason), false));
        case Threw(code) => phase := Done(ErrorOutcome(code, aborted));
        case Allowed(url, addresses) =>
          phase := Waiting(url, addresses);
          listening, size, chunks := false, 0, [];
          trace := trace + [Dialed(target, url, addresses)];
      }
    }

    method LookedUp(all: bool)
      requires phase.Waiting?
      modifies this
      ensures Now() == OnLookup(old(Now()), all)
    {
      var answer := PinnedLookup(phase.addresses, all);
      if answer.Some? {
        trace := trace + [Pinned(answer.value)];
      } else {
        phase := Done(ErrorOutcome(None, aborted));
      }
    }

    method Responded(o: Options, status: nat, location: Option<Text>, declared: Option<int>)
      requires phase.Waiting?
      modifies this
      ensures Now() == OnResponse(o, old(Now()), status, location, declared)
    {
      if 300 <= status < 400 && location.Some? {
        var resolved := o.resolve(location.value, phase.url);
        if resolved.None? {
          phase := Done(ErrorOutcome(Some(INVALID_URL), aborted));
        } else {
          target := resolved.value;
          hop := hop + 1;
          trace := trace + [Redirected(location.value, target)];
          phase := if hop > o.maxRedirects then Done(Failure(TooManyRedirects, false)) else Checking;
        }
      } else if status < 200 || status >= 300 {
        phase := Done(HopOutcome(status));
      } else if declared.Some? && declared.value > o.maxBytes {
        phase := Done(CAP_OUTCOME);
      } else {
        phase := Reading(phase.url);
        listening := true;
      }
    }

    method GotData(o: Options, chunk: Bytes)
      requires listening
      modifies this
      ensures Now() == OnData(o, old(Now()), chunk)
    {
      size := size + |chunk|;
      if size > o.maxBytes {
        if phase.Reading? { phase := Done(CAP_OUTCOME); }
        return;
      }
      chunks := chunks + [chunk];
    }

    /** One event, whichever comes. */
    method Handle(o: Options, e: Event)
      modifies this
      ensures Now() == Step(o, old(Now()), e)
    {
      match e {
        case GuardAnswers(answer) => if phase.Checking? { GuardAnswered(answer); }
        case Lookup(all) => if phase.Waiting? { LookedUp(all); }
        case Response(status, location, declared) => if phase.Waiting? { Responded(o, status, location, declared); }
        case Data(chunk) => if listening { GotData(o, chunk); }
        case End => if phase.Reading? { phase := Done(Success(Concat(chunks), phase.url)); }
        case Fault(code) => if phase.Waiting? || phase.Reading? { phase := Done(ErrorOutcome(code, aborted)); }
        case TimeUp => aborted := true;
      }
    }
  }

  /** A whole fetch against a given course of events; None while it is not over. */
  method FetchRemote(o: Options, raw: Text, events: seq<Event>) returns (r: Option<FetchResult>)
    ensures var s := Run(o, raw, events);
            r == if s.phase.Done? then Some(s.phase.result) else None
  {
    hide Step, Start;
    var fetch := new Fetch(o, raw);
    var i := 0;
    assert events[..0] == [];
    while i < |events|
      invariant 0 <= i <= |events|
      invariant fetch.Now() == Run(o, raw, events[..i])
    {
      fetch.Handle(o, events[i]);
      i := i + 1;
      assert events[..i][..i - 1] == events[..i - 1];
    }
    assert events[..i] == events;
    r := if fetch.phase.Done? then Some(fetch.phase.result) else None;
  }
}
