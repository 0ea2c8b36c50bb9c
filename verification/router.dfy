/**
  `Router`: validate the options, sanitize the wordlist, expand the targets,
  run `Trigger` on every target, and keep the responses that are not `null`.
  The outcomes are collected in dispatch order, since `Task.WhenAll` returns
  the results in the order of its tasks.
 */
module Router {
  import opened Common
  import opened Config
  import opened Wordlist
  import opened Targets
  import opened Probe
  import opened Trigger

  /** The report handed to the writer: how many targets were tried and which answered. */
  datatype Report = Report(attempted: nat, alive: seq<Message>)

  /** `Where(f => f != null)`: the present values, in order. */
  function AliveOnly<T>(outcomes: seq<Option<T>>): (alive: seq<T>)
    ensures |alive| <= |outcomes|
  {
    if |outcomes| == 0 then []
    else
      var init := AliveOnly(outcomes[..|outcomes| - 1]);
      match outcomes[|outcomes| - 1]
      case None => init
      case Some(m) => init + [m]
  }

  /** The positions of the present values, in increasing order. */
  function AliveIndices<T>(outcomes: seq<Option<T>>): (indices: seq<nat>)
    ensures forall k :: 0 <= k < |indices| ==> indices[k] < |outcomes|
  {
    if |outcomes| == 0 then []
    else
      var init := AliveIndices(outcomes[..|outcomes| - 1]);
      if outcomes[|outcomes| - 1].Some? then init + [|outcomes| - 1] else init
  }

  /** The `k`-th kept value is the outcome at the `k`-th alive position. */
  lemma {:induction false} AliveOnlyAtAliveIndices<T>(outcomes: seq<Option<T>>)
    ensures |AliveIndices(outcomes)| == |AliveOnly(outcomes)|
    ensures forall k :: 0 <= k < |AliveOnly(outcomes)| ==>
      outcomes[AliveIndices(outcomes)[k]] == Some(AliveOnly(outcomes)[k])
  {
    if |outcomes| > 0 {
      var n := |outcomes| - 1;
      var init := outcomes[..n];
      AliveOnlyAtAliveIndices(init);
      var idx, alive := AliveIndices(init), AliveOnly(init);
      forall k | 0 <= k < |alive| ensures outcomes[idx[k]] == Some(alive[k]) {
        assert init[idx[k]] == outcomes[idx[k]];
      }
    }
  }

  /** The alive positions increase and include every position holding a value. */
  lemma {:induction false} AliveIndicesIncreaseAndCover<T>(outcomes: seq<Option<T>>)
    ensures forall k, l :: 0 <= k < l < |AliveIndices(outcomes)| ==>
      AliveIndices(outcomes)[k] < AliveIndices(outcomes)[l]
    ensures forall i :: 0 <= i < |outcomes| && outcomes[i].Some? ==> i in AliveIndices(outcomes)
  {
    if |outcomes| > 0 {
      var n := |outcomes| - 1;
      var init := outcomes[..n];
      AliveIndicesIncreaseAndCover(init);
      forall i | 0 <= i < n && outcomes[i].Some? ensures i in AliveIndices(outcomes) {
        assert init[i] == outcomes[i];
      }
    }
  }

  /**
    The filter keeps exactly the present outcomes, in their original
    relative order: the `k`-th kept value is the outcome at the `k`-th alive
    position, those positions increase, and every present outcome sits at
    one of them.
   */
  lemma AliveOnlyKeepsOrder<T>(outcomes: seq<Option<T>>)
    ensures |AliveIndices(outcomes)| == |AliveOnly(outcomes)|
    ensures forall k :: 0 <= k < |AliveOnly(outcomes)| ==>
      outcomes[AliveIndices(outcomes)[k]] == Some(AliveOnly(outcomes)[k])
    ensures forall k, l :: 0 <= k < l < |AliveIndices(outcomes)| ==>
      AliveIndices(outcomes)[k] < AliveIndices(outcomes)[l]
    ensures forall i :: 0 <= i < |outcomes| && outcomes[i].Some? ==> i in AliveIndices(outcomes)
  {
    AliveOnlyAtAliveIndices(outcomes);
    AliveIndicesIncreaseAndCover(outcomes);
  }

  /** Alive and dead targets together are all the targets. */
  lemma {:induction false} AliveAndDeadPartition<T>(outcomes: seq<Option<T>>)
    ensures |AliveOnly(outcomes)| + |set i | 0 <= i < |outcomes| && outcomes[i].None?| == |outcomes|
  {
    if |outcomes| > 0 {
      var n := |outcomes| - 1;
      var init := outcomes[..n];
      AliveAndDeadPartition(init);
      var deadInit := set i | 0 <= i < n && init[i].None?;
      var dead := set i | 0 <= i < |outcomes| && outcomes[i].None?;
      if outcomes[n].None? {
        assert dead == deadInit + {n};
      } else {
        assert dead == deadInit;
      }
    }
  }

  /** The probe of every dispatch position: `Flyover` against the network. */
  function SlotProbes(net: Network): (probes: nat -> (string, Try) -> Attempt)
  {
    slot => FlyoverProbe(net, slot)
  }

  /** The outcome of every target under `Trigger`, in dispatch order, each probed through its own slot. */
  function Outcomes(targets: seq<string>, probes: nat -> (string, Try) -> Attempt): (outcomes: seq<Option<Message>>)
    ensures |outcomes| == |targets|
  {
    seq(|targets|, i requires 0 <= i < |targets| => NestedTry(targets[i], probes(i)))
  }

  /**
    Launches `Trigger` on every target and waits for all of them: the
    `i`-th outcome is the outcome of the `i`-th target.
   */
  method Dispatch(targets: seq<string>, probes: nat -> (string, Try) -> Attempt) returns (outcomes: seq<Option<Message>>)
    ensures |outcomes| == |targets|
    ensures forall i :: 0 <= i < |targets| ==> outcomes[i] == NestedTry(targets[i], probes(i))
  {
    outcomes := [];
    var i := 0;
    while i < |targets|
      invariant 0 <= i <= |targets|
      invariant |outcomes| == i
      invariant forall k :: 0 <= k < i ==> outcomes[k] == NestedTry(targets[k], probes(k))
    {
      var outcome, _ := Trigger.Trigger(targets[i], probes(i));
      outcomes := outcomes + [outcome];
      i := i + 1;
    }
  }

  /**
    How a run ends: stopped by a failing check, thrown out by the throttle
    (`new SemaphoreSlim` of a negative count), stuck on the throttle (a count
    of zero never admits the first target), or with a report.
   */
  datatype Run =
    | Stopped(error: ConfigError)
    | ThrottleRejected
    | Stalled
    | Reported(report: Report)

  /**
    The whole run. It stops with the first failing option check, or with a
    useless wordlist; a thread count below one ends it without a report;
    otherwise every expanded target is tried once through `Trigger` and the
    report lists the alive ones in dispatch order.
   */
  method Router(options: Options, files: Files, lines: seq<string>,
                classify: string -> HostNameKind, net: Network)
    returns (run: Run)
    ensures Validate(options, files).Fail? ==> run == Stopped(Validate(options, files).error)
    ensures Validate(options, files) == Pass ==>
      (run.Stopped? <==> Sanitize(lines, classify).Err?)
    ensures run.Stopped? ==> Validate(options, files).Fail? || run.error == UselessWordList
    ensures run == ThrottleRejected <==>
      Validate(options, files) == Pass && Sanitize(lines, classify).Ok? && options.threads < 0
    ensures run == Stalled <==>
      Validate(options, files) == Pass && Sanitize(lines, classify).Ok? && options.threads == 0
    ensures run.Reported? ==>
      && Validate(options, files) == Pass
      && Sanitize(lines, classify).Ok?
      && options.threads > 0
      && var targets := Expand(Sanitize(lines, classify).value, options.ports);
         && run.report.attempted == |targets|
         && run.report.alive == AliveOnly(Outcomes(targets, SlotProbes(net)))
    ensures run.Reported? ==>
      && run.report.attempted == 2 * (|Sanitize(lines, classify).value| * |options.ports|)
      && run.report.attempted > 0
      && |run.report.alive| <= run.report.attempted
  {
    var checked := Validate(options, files);
    if checked.Fail? {
      return Stopped(checked.error);
    }
    var sanitized := Sanitize(lines, classify);
    if sanitized.Err? {
      return Stopped(sanitized.error);
    }
    var domains := sanitized.value;
    var targets := Expand(domains, options.ports);
    ExpandNonEmpty(domains, options.ports);
    ExpandCount(domains, options.ports);
    if options.threads < 0 {
      return ThrottleRejected;
    }
    if options.threads == 0 {
      return Stalled;
    }
    var outcomes := Dispatch(targets, SlotProbes(net));
    assert outcomes == Outcomes(targets, SlotProbes(net));
    var alive := AliveOnly(outcomes);
    return Reported(Report(|targets|, alive));
  }
}
