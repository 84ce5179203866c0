/** Polling a diagnostic pod until the cluster's answer is decisive. */
module NodePull {
  import opened Wrappers
  import opened PullClassifier

  const POLL_INTERVAL: real := 3.0
  const MAX_WAIT: real := 60.0
  const MAX_POLLS := 20

  datatype Pod = Pod(phase: string, containers: seq<Option<Waiting>>)

  /** The answer to a status request: a pod (empty when kubectl fails) or text that is not JSON, which raises. */
  datatype Observation = Seen(pod: Pod) | Malformed

  /** Everything the cluster and the clock will answer: the status at poll `k`, the events and the description when
      `k` polls have been made, and the clock at loop test `k`. */
  datatype Trace = Trace(
    status: nat -> Observation,
    events: nat -> Option<seq<Event>>,
    describe: nat -> string,
    clock: nat -> real)

  datatype NodePullResult = NodePullResult(
    podName: string,
    success: bool,
    failureClass: Option<FailureClass>,
    podPhase: string,
    waitingReason: string,
    waitingMessage: string,
    podEvents: seq<Event>,
    describeOutput: string)

  datatype Outcome = Returned(result: NodePullResult) | Raised

  predicate TicksAt(t: Trace, k: nat) {
    t.clock(k + 1) >= t.clock(k) + POLL_INTERVAL
  }

  /** Sleeping adds at least the poll interval. */
  ghost predicate Ticking(t: Trace, start: real) {
    t.clock(0) >= start && forall k: nat :: TicksAt(t, k)
  }

  predicate Timely(t: Trace, start: real, k: nat) {
    t.clock(k) - start < MAX_WAIT
  }

  /** The answers that end the loop. */
  predicate Decisive(o: Observation) {
    || o.Malformed?
    || WaitingReason(o.pod.containers).Some?
    || o.pod.phase in ["Succeeded", "Failed", "Error"]
  }

  /** The waiting reason is looked at before the phase. */
  predicate PullWorked(o: Observation) {
    o.Seen? && WaitingReason(o.pod.containers).None? && o.pod.phase == "Succeeded"
  }

  /** Poll `k` is made and its answer is the first that decides. */
  ghost predicate DecidedAt(t: Trace, start: real, k: nat) {
    && (forall j: nat :: j <= k ==> Timely(t, start, j))
    && (forall j: nat :: j < k ==> !Decisive(t.status(j)))
    && Decisive(t.status(k))
  }

  /** No answer decides before the time is up at loop test `n`. */
  ghost predicate TimedOutAt(t: Trace, start: real, n: nat) {
    && (forall j: nat :: j < n ==> Timely(t, start, j) && !Decisive(t.status(j)))
    && !Timely(t, start, n)
  }

  /** The run stops after `n` polls. */
  ghost predicate EndsAt(t: Trace, start: real, n: nat) {
    TimedOutAt(t, start, n) || (n > 0 && DecidedAt(t, start, n - 1))
  }

  // ----- the results

  /** The last five events that involve the pod. */
  function OwnEvents(events: seq<Event>, podName: string): seq<Event> {
    if events == [] then [] else
      var rest := OwnEvents(events[1..], podName);
      if events[0].podName == podName && |rest| < 5 then [events[0]] + rest else rest
  }

  function Shortened(s: string): string {
    if |s| <= 2000 then s else s[..2000]
  }

  /** The message of the pod's first container, whichever container the reason came from. */
  function FirstMessage(containers: seq<Option<Waiting>>): string {
    if containers != [] && containers[0].Some? then containers[0].value.message else ""
  }

  /** What a decisive answer becomes. */
  function Decision(pod: Pod, podName: string, events: seq<Event>, describe: string): NodePullResult {
    var waiting := WaitingReason(pod.containers);
    if waiting.Some? then
      NodePullResult(podName, false, Some(waiting.value.1), pod.phase, waiting.value.0, FirstMessage(pod.containers),
                     OwnEvents(events, podName), Shortened(describe))
    else if pod.phase == "Succeeded" then
      NodePullResult(podName, true, None, pod.phase, "", "", OwnEvents(events, podName), "")
    else
      var failure := ClassifyPullFailure(events, podName, describe);
      if failure.Some? then
        NodePullResult(podName, false, Some(failure.value.0), pod.phase, "ErrImagePull", failure.value.1,
                       OwnEvents(events, podName), Shortened(describe))
      else
        NodePullResult(podName, false, Some(Unknown), pod.phase, "", "",
                       OwnEvents(events, podName), Shortened(describe))
  }

  function TimeoutResult(phase: string, podName: string, events: seq<Event>, describe: string): NodePullResult {
    var failure := ClassifyPullFailure(events, podName, describe);
    NodePullResult(podName, false, Some(if failure.Some? then failure.value.0 else Unknown),
                   if phase == "" then "Timeout" else phase, "", "", OwnEvents(events, podName), Shortened(describe))
  }

  function PhaseAt(t: Trace, n: nat): string {
    if n == 0 || t.status(n - 1).Malformed? then "" else t.status(n - 1).pod.phase
  }

  /** How a run that made `n` polls ends; unreadable events raise. */
  function EndOfRun(t: Trace, podName: string, n: nat): Outcome {
    if n > 0 && t.status(n - 1).Malformed? then Raised
    else if t.events(n).None? then Raised
    else if n > 0 && Decisive(t.status(n - 1)) then
      Returned(Decision(t.status(n - 1).pod, podName, t.events(n).value, t.describe(n)))
    else Returned(TimeoutResult(PhaseAt(t, n), podName, t.events(n).value, t.describe(n)))
  }

  // ----- the code

  class Cluster {
    const trace: Trace
    var polls: nat
    var deleted: seq<string>

    constructor (trace: Trace)
      ensures this.trace == trace && polls == 0 && deleted == []
    {
      this.trace, polls, deleted := trace, 0, [];
    }

    method GetPodStatus() returns (o: Observation)
      modifies `polls
      ensures o == trace.status(old(polls)) && polls == old(polls) + 1
    {
      o := trace.status(polls);
      polls := polls + 1;
    }

    method DeletePod(podName: string)
      modifies `deleted
      ensures deleted == old(deleted) + [podName]
    {
      deleted := deleted + [podName];
    }
  }

  lemma {:induction false} ClockAdvances(t: Trace, start: real, k: nat)
    requires Ticking(t, start)
    ensures t.clock(k) - start >= POLL_INTERVAL * k as real
  {
    if k > 0 {
      var j: nat := k - 1;
      ClockAdvances(t, start, j);
      assert TicksAt(t, j);
    }
  }

  /** The body of the `try` block. */
  method PollPod(cluster: Cluster, podName: string, start: real) returns (out: Outcome)
    requires Ticking(cluster.trace, start) && cluster.polls == 0
    modifies cluster`polls
    ensures out == EndOfRun(cluster.trace, podName, cluster.polls)
    ensures cluster.polls <= MAX_POLLS
    ensures EndsAt(cluster.trace, start, cluster.polls)
  {
    ghost var t := cluster.trace;
    var podPhase := "";
    while cluster.trace.clock(cluster.polls) - start < MAX_WAIT
      invariant cluster.polls <= MAX_POLLS
      invariant forall j: nat :: j < cluster.polls ==> Timely(t, start, j) && !Decisive(t.status(j))
      invariant podPhase == PhaseAt(t, cluster.polls)
      decreases MAX_POLLS - cluster.polls
    {
      ClockAdvances(t, start, cluster.polls);
      assert Timely(t, start, cluster.polls);
      var o := cluster.GetPodStatus();
      if o.Malformed? {
        return Raised;
      }
      podPhase := o.pod.phase;
      var waiting := WaitingReason(o.pod.containers);
      if waiting.Some? {
        var events := cluster.trace.events(cluster.polls);
        if events.None? {
          return Raised;
        }
        return Returned(NodePullResult(podName, false, Some(waiting.value.1), podPhase, waiting.value.0,
                                       FirstMessage(o.pod.containers), OwnEvents(events.value, podName),
                                       Shortened(cluster.trace.describe(cluster.polls))));
      }
      if podPhase == "Succeeded" {
        var events := cluster.trace.events(cluster.polls);
        if events.None? {
          return Raised;
        }
        return Returned(NodePullResult(podName, true, None, podPhase, "", "", OwnEvents(events.value, podName), ""));
      }
      if podPhase in ["Failed", "Error"] {
        var events := cluster.trace.events(cluster.polls);
        if events.None? {
          return Raised;
        }
        var describe := cluster.trace.describe(cluster.polls);
        var failure := ClassifyPullFailure(events.value, podName, describe);
        if failure.Some? {
          return Returned(NodePullResult(podName, false, Some(failure.value.0), podPhase, "ErrImagePull",
                                         failure.value.1, OwnEvents(events.value, podName), Shortened(describe)));
        }
        return Returned(NodePullResult(podName, false, Some(Unknown), podPhase, "", "",
                                       OwnEvents(events.value, podName), Shortened(describe)));
      }
    }
    var events := cluster.trace.events(cluster.polls);
    if events.None? {
      return Raised;
    }
    var describe := cluster.trace.describe(cluster.polls);
    var failure := ClassifyPullFailure(events.value, podName, describe);
    var phase := if podPhase == "" then "Timeout" else podPhase;
    if failure.Some? {
      return Returned(NodePullResult(podName, false, Some(failure.value.0), phase, "", "",
                                     OwnEvents(events.value, podName), Shortened(describe)));
    }
    return Returned(NodePullResult(podName, false, Some(Unknown), phase, "", "",
                                   OwnEvents(events.value, podName), Shortened(describe)));
  }

  /** `created` is the pod's name, or nothing when kubectl refused. The pod is deleted on every way out. */
  method CheckNodePullability(cluster: Cluster, created: Option<string>, start: real) returns (out: Outcome)
    requires Ticking(cluster.trace, start) && cluster.polls == 0
    modifies cluster
    ensures created.None? ==>
      out == Returned(NodePullResult("", false, Some(Unknown), "", "", "", [], "")) && cluster.polls == 0
        && cluster.deleted == old(cluster.deleted)
    ensures created.Some? ==>
      && cluster.deleted == old(cluster.deleted) + [created.value]
      && cluster.polls <= MAX_POLLS
      && out == EndOfRun(cluster.trace, created.value, cluster.polls)
      && EndsAt(cluster.trace, start, cluster.polls)
  {
    if created.None? {
      return Returned(NodePullResult("", false, Some(Unknown), "", "", "", [], ""));
    }
    out := PollPod(cluster, created.value, start);
    cluster.DeletePod(created.value);
  }

  // ----- what a run means

  /** Every failure carries a class, every success none. */
  lemma FailuresAreClassified(t: Trace, podName: string, n: nat)
    ensures EndOfRun(t, podName, n).Returned? ==>
      (EndOfRun(t, podName, n).result.success <==> EndOfRun(t, podName, n).result.failureClass.None?)
  {
  }

  /** The number of polls is fixed by the trace. */
  lemma EndIsUnique(t: Trace, start: real, m: nat, n: nat)
    requires EndsAt(t, start, m)
    requires EndsAt(t, start, n)
    ensures m == n
  {
    if m < n {
      EndIsFirst(t, start, m, n);
    } else if n < m {
      EndIsFirst(t, start, n, m);
    }
  }

  lemma EndIsFirst(t: Trace, start: real, m: nat, n: nat)
    requires EndsAt(t, start, m)
    requires m < n
    ensures !EndsAt(t, start, n)
  {
    if TimedOutAt(t, start, m) {
      assert !Timely(t, start, m);
    } else {
      var k: nat := m - 1;
      assert Decisive(t.status(k));
    }
  }

  /** The run reports success exactly when the first decisive answer in time is a pod that succeeded with no container
      waiting on a pull, and the events can be read. */
  lemma SucceedsExactly(t: Trace, start: real, podName: string, n: nat)
    requires EndsAt(t, start, n)
    ensures EndOfRun(t, podName, n).Returned? && EndOfRun(t, podName, n).result.success <==>
            exists k: nat :: DecidedAt(t, start, k) && PullWorked(t.status(k)) && t.events(k + 1).Some?
  {
    if k: nat :| DecidedAt(t, start, k) && PullWorked(t.status(k)) && t.events(k + 1).Some? {
      EndIsUnique(t, start, k + 1, n);
    }
    if n > 0 {
      var k: nat := n - 1;
      assert EndOfRun(t, podName, n).Returned? && EndOfRun(t, podName, n).result.success ==> PullWorked(t.status(k));
      assert TimedOutAt(t, start, n) ==> !Decisive(t.status(k));
    }
  }

  /** With a ticking clock every trace ends within twenty polls, whatever the cluster answers. */
  lemma {:induction false} EveryRunEnds(t: Trace, start: real)
    requires Ticking(t, start)
    ensures exists n: nat :: n <= MAX_POLLS && EndsAt(t, start, n)
  {
    SearchEnd(t, start, 0);
  }

  lemma {:induction false} SearchEnd(t: Trace, start: real, n: nat)
    requires Ticking(t, start) && n <= MAX_POLLS
    requires forall j: nat :: j < n ==> Timely(t, start, j) && !Decisive(t.status(j))
    ensures exists m: nat :: m <= MAX_POLLS && EndsAt(t, start, m)
    decreases MAX_POLLS - n
  {
    ClockAdvances(t, start, n);
    if !Timely(t, start, n) {
      assert EndsAt(t, start, n);
    } else if Decisive(t.status(n)) {
      var m: nat := n + 1;
      assert m - 1 == n && DecidedAt(t, start, n);
      assert EndsAt(t, start, m);
    } else {
      SearchEnd(t, start, n + 1);
    }
  }

  /** Container `i` is the first that waits on a pull. */
  predicate FirstWaiting(containers: seq<Option<Waiting>>, i: nat) {
    && i < |containers| && containers[i].Some? && IsPullReason(containers[i].value.reason)
    && forall j :: 0 <= j < i && containers[j].Some? ==> !IsPullReason(containers[j].value.reason)
  }

  /** The reason reported is that of the first container waiting on a pull; the message is the one of the pod's first
      container, or empty when that one is not waiting. So the message is the failing container's own exactly when that
      container is the pod's first or has the first one's message; with one container it always is. */
  lemma MessageIsOwnExactly(pod: Pod, podName: string, events: seq<Event>, describe: string, i: nat)
    requires FirstWaiting(pod.containers, i)
    ensures Decision(pod, podName, events, describe).waitingReason == pod.containers[i].value.reason
    ensures pod.containers[0].Some? ==>
      Decision(pod, podName, events, describe).waitingMessage == pod.containers[0].value.message
    ensures pod.containers[0].None? ==> Decision(pod, podName, events, describe).waitingMessage == ""
    ensures Decision(pod, podName, events, describe).waitingMessage == pod.containers[i].value.message <==>
            i == 0 || pod.containers[i].value.message ==
              (if pod.containers[0].Some? then pod.containers[0].value.message else "")
    ensures |pod.containers| == 1 ==>
      Decision(pod, podName, events, describe).waitingMessage == pod.containers[i].value.message
  {
    ReasonOfFirst(pod.containers, i);
  }

  lemma {:induction false} ReasonOfFirst(containers: seq<Option<Waiting>>, i: nat)
    requires FirstWaiting(containers, i)
    ensures WaitingReason(containers).Some? && WaitingReason(containers).value.0 == containers[i].value.reason
  {
    if i > 0 {
      assert FirstWaiting(containers[1..], i - 1) by {
        forall j | 0 <= j < i - 1 && containers[1..][j].Some? ensures !IsPullReason(containers[1..][j].value.reason) {
          assert containers[j + 1] == containers[1..][j];
        }
      }
      ReasonOfFirst(containers[1..], i - 1);
    }
  }

  /** A container that is still being created lends its message to the failure of the next one. */
  lemma AnotherMessageIsReported(podName: string, events: seq<Event>, describe: string)
    ensures var pod := Pod("Pending", [Some(Waiting("ContainerCreating", "a")), Some(Waiting("ErrImagePull", "b"))]);
            && Decision(pod, podName, events, describe).waitingReason == "ErrImagePull"
            && Decision(pod, podName, events, describe).waitingMessage == "a"
  {
    var containers := [Some(Waiting("ContainerCreating", "a")), Some(Waiting("ErrImagePull", "b"))];
    assert "ContainerCreating"[0] == 'C' && "ImagePullBackOff"[0] == 'I' && "ErrImagePull"[0] == 'E';
    assert FirstWaiting(containers, 1);
    ReasonOfFirst(containers, 1);
  }
}
