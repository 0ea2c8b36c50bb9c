/**
  `Trigger`: one probe against the target and, only when that probe raised
  an `HttpRequestException`, exactly one more against the fallback target:
  the target with its port segment removed when it holds exactly two
  colons, and the target unchanged otherwise. Any other outcome ends it.
 */
module Trigger {
  import opened Common
  import opened Text
  import opened Decimal
  import opened Targets
  import opened Probe

  /**
    The fallback target: when the target holds exactly two colons, everything
    from the last colon on is removed; any other target is kept unchanged.
   */
  function StripPort(target: string): (r: string)
    ensures r <= target
    ensures Occurrences(target, ':') != 2 ==> r == target
    ensures Occurrences(target, ':') == 2 ==>
      && |r| < |target|
      && target[|r|] == ':'
      && ':' !in target[|r| + 1..]
      && Occurrences(r, ':') == 1
  {
    if ':' in target && Occurrences(target, ':') == 2 then
      var separator := LastIndexOf(target, ':');
      assert target == target[..separator] + [':'] + target[separator + 1..];
      assert multiset(target) == multiset(target[..separator]) + multiset{':'} + multiset(target[separator + 1..]) by {
        assert target == target[..separator] + ([':'] + target[separator + 1..]);
      }
      assert multiset(target[separator + 1..])[':'] == 0;
      target[..separator]
    else
      target
  }

  /** Stripping twice strips no more than stripping once. */
  lemma StripPortIdempotent(target: string)
    ensures StripPort(StripPort(target)) == StripPort(target)
  {
  }

  /** A target with one colon before its last segment falls back to what precedes that segment. */
  lemma StripPortOfSuffix(base: string, text: string)
    requires Occurrences(base, ':') == 1 && ':' !in text
    ensures StripPort(base + [':'] + text) == base
  {
    var t := base + [':'] + text;
    assert multiset(t) == multiset(base) + multiset{':'} + multiset(text);
    assert multiset(text)[':'] == 0;
    assert t[|base|] == ':';
    assert t[..|base|] == base;
  }

  /** `scheme://domain` holds exactly one colon when the host holds none. */
  lemma SchemeHostColons(scheme: string, domain: string)
    requires IsScheme(scheme) && ':' !in domain
    ensures Occurrences(scheme + "://" + domain, ':') == 1
  {
  }

  /** An expanded target `scheme://domain:port` falls back to `scheme://domain`. */
  lemma StripPortOfTarget(scheme: string, domain: string, port: int)
    requires IsScheme(scheme) && ':' !in domain
    ensures StripPort(Target(scheme, domain, port)) == scheme + "://" + domain
  {
    var base := scheme + "://" + domain;
    var text := FormatInt(port);
    SchemeHostColons(scheme, domain);
    assert ':' !in text;
    assert Target(scheme, domain, port) == base + [':'] + text;
    StripPortOfSuffix(base, text);
  }

  /**
    The fallback of an expanded target reads as the same host on port 80
    for both schemes, when read as the program does.
   */
  lemma ParseFallbackAsWritten(scheme: string, domain: string, port: int)
    requires IsScheme(scheme) && ':' !in domain
    ensures ParseTargetAsWritten(StripPort(Target(scheme, domain, port))) == Ok((domain, DefaultPort))
  {
    StripPortOfTarget(scheme, domain, port);
    ParsePortlessAsWritten(scheme, domain);
  }

  /** Where the two-attempt protocol stands. */
  datatype Phase =
    | Initial(target: string)
    | Fallback(target: string)
    | Alive(message: Message)
    | Dead
  {
    predicate Finished()
    {
      Alive? || Dead?
    }

    /** Probe attempts that may still follow. */
    function AttemptsLeft(): (n: nat)
    {
      match this
      case Initial(_) => 2
      case Fallback(_) => 1
      case _ => 0
    }
  }

  /** One probe attempt and the transition it causes. */
  function Step(phase: Phase, probe: (string, Try) -> Attempt): (next: Phase)
    requires !phase.Finished()
    ensures next.AttemptsLeft() < phase.AttemptsLeft()
    ensures next.Initial? == false
  {
    match phase
    case Initial(t) =>
      (match probe(t, First)
       case Answered(m) => Alive(m)
       case HttpRequestFault => Fallback(StripPort(t))
       case OtherFault => Dead)
    case Fallback(t) =>
      (match probe(t, Retry)
       case Answered(m) => Alive(m)
       case _ => Dead)
  }

  /**
    The nested `try`/`catch` of the program as a value: the message of the
    first attempt; on `HttpRequestException` the message of the fallback
    attempt, or `null`; on any other exception `null`.
   */
  function NestedTry(target: string, probe: (string, Try) -> Attempt): (outcome: Option<Message>)
  {
    match probe(target, First)
    case Answered(m) => Some(m)
    case OtherFault => None
    case HttpRequestFault =>
      match probe(StripPort(target), Retry)
      case Answered(m) => Some(m)
      case _ => None
  }

  /** The attempt the `k`-th probe of one target is. */
  function AttemptOf(k: nat): (attempt: Try)
  {
    if k == 0 then First else Retry
  }

  /**
    Runs the protocol as a state machine and returns the target's message
    (`None` for a dead target) together with the targets probed, in order.
    At most two probes are made; the second is made only after an
    `HttpRequestException`, against the stripped target.
   */
  method Trigger(target: string, probe: (string, Try) -> Attempt) returns (result: Option<Message>, calls: seq<string>)
    ensures result == NestedTry(target, probe)
    ensures 1 <= |calls| <= 2 && calls[0] == target
    ensures |calls| == 2 <==> probe(target, First).HttpRequestFault?
    ensures |calls| == 2 ==> calls[1] == StripPort(target)
    ensures result.Some? ==> probe(calls[|calls| - 1], AttemptOf(|calls| - 1)) == Answered(result.value)
    ensures result.None? ==> forall k :: 0 <= k < |calls| ==> !probe(calls[k], AttemptOf(k)).Answered?
  {
    var phase := Initial(target);
    calls := [];
    while !phase.Finished()
      invariant phase.Initial? ==> phase == Initial(target) && calls == []
      invariant phase.Fallback? ==>
        phase.target == StripPort(target) && calls == [target] && probe(target, First).HttpRequestFault?
      invariant phase.Alive? ==>
        || (calls == [target] && probe(target, First) == Answered(phase.message))
        || (calls == [target, StripPort(target)] && probe(target, First).HttpRequestFault?
            && probe(StripPort(target), Retry) == Answered(phase.message))
      invariant phase.Dead? ==>
        || (calls == [target] && probe(target, First).OtherFault?)
        || (calls == [target, StripPort(target)] && probe(target, First).HttpRequestFault?
            && !probe(StripPort(target), Retry).Answered?)
      decreases phase.AttemptsLeft()
    {
      calls := calls + [phase.target];
      phase := Step(phase, probe);
    }
    result := if phase.Alive? then Some(phase.message) else None;
  }

  /**
    For an expanded target probed with `Flyover` as the program runs it: a
    message names the target's host; it carries the target's port when the
    first request got a response, and port 80 when only the fallback did,
    for both schemes.
   */
  lemma AliveMessageNamesItsTarget(net: Network, slot: nat, scheme: string, domain: string, port: Int32)
    requires IsScheme(scheme) && ':' !in domain
    ensures var target := Target(scheme, domain, port);
      var outcome := NestedTry(target, FlyoverProbe(net, slot));
      outcome.Some? ==>
        && outcome.value.domain == domain
        && (net.send(Request(slot, First, target)).Responded? ==> outcome.value.port == port)
        && (net.send(Request(slot, First, target)).HttpRequestFailure? ==> outcome.value.port == DefaultPort)
  {
    ParseExpandedTarget(scheme, domain, port);
    ParseFallbackAsWritten(scheme, domain, port);
  }

  /**
    The same with the corrected reading: after a fallback answer the message
    carries the scheme's implicit port, 443 for `https`.
   */
  lemma AliveMessageNamesItsTargetCorrected(net: Network, slot: nat, scheme: string, domain: string, port: Int32)
    requires IsScheme(scheme) && ':' !in domain
    ensures var target := Target(scheme, domain, port);
      var outcome := NestedTry(target, FlyoverCorrectedProbe(net, slot));
      outcome.Some? ==>
        && outcome.value.domain == domain
        && (net.send(Request(slot, First, target)).Responded? ==> outcome.value.port == port)
        && (net.send(Request(slot, First, target)).HttpRequestFailure? ==>
              outcome.value.port == if scheme == "https" then HttpsDefaultPort else DefaultPort)
  {
    ParseExpandedTarget(scheme, domain, port);
    StripPortOfTarget(scheme, domain, port);
    ParsePortless(scheme, domain);
  }

  /**
    A retry is not a replay: even when the fallback URL is the target itself
    (a target without exactly two colons, such as one of an IPv6 host), the
    second request may be answered after the first raised an
    `HttpRequestException`.
   */
  lemma UnchangedRetryMayAnswer(target: string, m: Message)
    requires Occurrences(target, ':') != 2
    ensures var probe := (t: string, k: Try) => if k == First then HttpRequestFault else Answered(m);
      && StripPort(target) == target
      && NestedTry(target, probe) == Some(m)
  {
  }
}
