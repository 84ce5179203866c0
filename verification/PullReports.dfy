/** What a pull report says about a pod, read off the pod's containers, its events and its description. */
module PullReports {
  import opened Wrappers
  import opened Text
  import opened PullClassifier
  import opened NodePull

  // ----- the events of a pod

  /** The events that involve the pod, in order. */
  function Involving(events: seq<Event>, podName: string): seq<Event> {
    if events == [] then [] else
    (if events[0].podName == podName then [events[0]] else []) + Involving(events[1..], podName)
  }

  lemma {:induction false} InvolvingExactly(events: seq<Event>, podName: string, e: Event)
    ensures e in Involving(events, podName) <==> e in events && e.podName == podName
  {
    if events != [] {
      InvolvingExactly(events[1..], podName, e);
      assert events == [events[0]] + events[1..];
    }
  }

  /** The last five of them are reported. */
  lemma {:induction false} LastFiveReported(events: seq<Event>, podName: string)
    ensures var own := Involving(events, podName);
            OwnEvents(events, podName) == if |own| <= 5 then own else own[|own| - 5..]
  {
    if events != [] {
      LastFiveReported(events[1..], podName);
    }
  }

  // ----- a decisive answer

  /** Every report names the pod and its phase, its last events, and at most 2000 characters of its description. */
  lemma ReportNamesPod(pod: Pod, podName: string, events: seq<Event>, describe: string)
    ensures var r := Decision(pod, podName, events, describe);
            && r.podName == podName && r.podPhase == pod.phase && r.podEvents == OwnEvents(events, podName)
            && r.describeOutput == if r.success then "" else if |describe| <= 2000 then describe else describe[..2000]
  {
  }

  /** A container that waits on a pull decides, whatever the phase: its reason is reported, its message classified. */
  lemma WaitingDecides(pod: Pod, podName: string, events: seq<Event>, describe: string, i: nat)
    requires FirstWaiting(pod.containers, i)
    ensures var r := Decision(pod, podName, events, describe);
            && !r.success && r.waitingReason == pod.containers[i].value.reason
            && r.failureClass == Some(Classify(pod.containers[i].value.message, WAITING_WORDS))
  {
    WaitingClass(pod.containers, i);
  }

  lemma {:induction false} WaitingClass(containers: seq<Option<Waiting>>, i: nat)
    requires FirstWaiting(containers, i)
    ensures WaitingReason(containers)
            == Some((containers[i].value.reason, Classify(containers[i].value.message, WAITING_WORDS)))
  {
    if i > 0 {
      assert FirstWaiting(containers[1..], i - 1) by {
        assert forall j :: 0 <= j < i - 1 ==> containers[1..][j] == containers[j + 1];
      }
      WaitingClass(containers[1..], i - 1);
    }
  }

  /** No container waits on a pull. */
  predicate NoneWaits(pod: Pod) {
    forall i :: 0 <= i < |pod.containers| && pod.containers[i].Some? ==> !IsPullReason(pod.containers[i].value.reason)
  }

  lemma NothingWaits(pod: Pod)
    requires NoneWaits(pod)
    ensures WaitingReason(pod.containers) == None
  {
    WaitingReasonIsFirst(pod.containers);
  }

  lemma SuccessIsReported(pod: Pod, podName: string, events: seq<Event>, describe: string)
    requires NoneWaits(pod) && pod.phase == "Succeeded"
    ensures var r := Decision(pod, podName, events, describe);
            r.success && r.failureClass == None && r.waitingReason == "" && r.waitingMessage == ""
  {
    NothingWaits(pod);
  }

  /** Otherwise the first pull event of the pod decides, with its message. */
  lemma EventDecides(pod: Pod, podName: string, events: seq<Event>, describe: string, k: nat)
    requires NoneWaits(pod) && pod.phase != "Succeeded"
    requires k < |events| && IsPullEvent(events[k], podName)
    requires forall j :: 0 <= j < k ==> !IsPullEvent(events[j], podName)
    ensures var r := Decision(pod, podName, events, describe);
            && !r.success && r.waitingReason == "ErrImagePull" && r.waitingMessage == events[k].message
            && r.failureClass == Some(Classify(events[k].message, EVENT_WORDS))
  {
    NothingWaits(pod);
    FirstEventDecides(events, podName, k);
  }

  /** Without such an event and without a pull error in the description, nothing is known. */
  lemma NothingDecides(pod: Pod, podName: string, events: seq<Event>, describe: string)
    requires NoneWaits(pod) && pod.phase != "Succeeded" && !HasPullMarker(describe)
    requires forall j :: 0 <= j < |events| ==> !IsPullEvent(events[j], podName)
    ensures var r := Decision(pod, podName, events, describe);
            !r.success && r.failureClass == Some(Unknown) && r.waitingReason == "" && r.waitingMessage == ""
  {
    NothingWaits(pod);
    ClassifiedExactly(events, podName, describe);
  }

  /** Which answers end the polling. */
  lemma DecisiveExactly(o: Observation)
    ensures Decisive(o) <==>
            o.Malformed? || !NoneWaits(o.pod) ||
            o.pod.phase == "Succeeded" || o.pod.phase == "Failed" || o.pod.phase == "Error"
  {
    if o.Seen? {
      WaitingReasonIsFirst(o.pod.containers);
    }
  }

  /** When the time is up the report gives the last phase, or says that there was none, and the class of an event or of
      the description, or that nothing is known. */
  lemma TimeoutIsReported(phase: string, podName: string, events: seq<Event>, describe: string)
    ensures var r := TimeoutResult(phase, podName, events, describe);
            && !r.success && r.podName == podName && r.podEvents == OwnEvents(events, podName)
            && r.podPhase == (if phase == "" then "Timeout" else phase)
            && (r.failureClass == Some(Unknown) <==>
                !HasPullMarker(describe) && forall i :: 0 <= i < |events| ==> !IsPullEvent(events[i], podName))
  {
    ClassifiedExactly(events, podName, describe);
  }
}
