/** Why a node could not pull an image: the two scans over what the cluster reports. */
module PullClassifier {
  import opened Wrappers
  import opened Text

  datatype FailureClass = Missing | Unauthorized | Tls | Network | PullBackoff | Unknown

  /** The `waiting` state of a container. */
  datatype Waiting = Waiting(reason: string, message: string)

  datatype Event = Event(podName: string, kind: string, reason: string, message: string)

  /** The words a scan looks for, in the order of the branches. */
  datatype Words = Words(missing: seq<string>, unauthorized: seq<string>, tls: seq<string>, network: seq<string>)

  const MISSING_WORDS := ["manifest unknown", "not found"]
  const WAITING_WORDS := Words(MISSING_WORDS, ["unauthorized", "forbidden", "denied"], ["certificate", "tls"],
                               ["network", "connect", "dns"])
  const EVENT_WORDS := Words(MISSING_WORDS, ["unauthorized", "authentication", "forbidden", "denied"],
                             ["certificate", "tls", "ssl"], ["dial tcp", "network", "connect", "dns", "no such host"])
  const DESCRIBE_WORDS := Words(MISSING_WORDS, ["unauthorized", "forbidden", "denied"], ["certificate", "tls"],
                                ["network", "connect"])

  predicate Mentions(text: string, words: seq<string>) {
    exists i | 0 <= i < |words| :: Contains(text, words[i])
  }

  function Classify(message: string, words: Words): FailureClass {
    var lowered := Lower(message);
    if Mentions(lowered, words.missing) then Missing
    else if Mentions(lowered, words.unauthorized) then Unauthorized
    else if Mentions(lowered, words.tls) then Tls
    else if Mentions(lowered, words.network) then Network
    else PullBackoff
  }

  predicate IsPullReason(reason: string) {
    reason == "ImagePullBackOff" || reason == "ErrImagePull"
  }

  /** The first container waiting on a pull: its reason and class. */
  function WaitingReason(containers: seq<Option<Waiting>>): Option<(string, FailureClass)> {
    if containers == [] then None
    else if containers[0].Some? && IsPullReason(containers[0].value.reason) then
      Some((containers[0].value.reason, Classify(containers[0].value.message, WAITING_WORDS)))
    else WaitingReason(containers[1..])
  }

  predicate HasPullMarker(text: string) {
    Contains(Lower(text), "imagepullbackoff") || Contains(Lower(text), "errimagepull")
  }

  /** `line.split(":", 1)[1].strip()`, when there is a colon. */
  function AfterColon(line: string): Option<string> {
    if line == "" then None else if line[0] == ':' then Some(Strip(line[1..])) else AfterColon(line[1..])
  }

  /** The first marked line with a colon decides. */
  function ClassifyLines(lines: seq<string>): (FailureClass, string) {
    if lines == [] then (PullBackoff, "ImagePullBackOff detected")
    else if HasPullMarker(lines[0]) && AfterColon(lines[0]).Some? then
      (Classify(AfterColon(lines[0]).value, DESCRIBE_WORDS), AfterColon(lines[0]).value)
    else ClassifyLines(lines[1..])
  }

  predicate IsPullEvent(e: Event, podName: string) {
    e.podName == podName && e.kind == "Pod" && IsPullReason(e.reason)
  }

  function ClassifyEvents(events: seq<Event>, podName: string): Option<(FailureClass, string)> {
    if events == [] then None
    else if IsPullEvent(events[0], podName) then Some((Classify(events[0].message, EVENT_WORDS), events[0].message))
    else ClassifyEvents(events[1..], podName)
  }

  function ClassifyPullFailure(events: seq<Event>, podName: string, describe: string): Option<(FailureClass, string)> {
    if ClassifyEvents(events, podName).Some? then ClassifyEvents(events, podName)
    else if HasPullMarker(describe) then Some(ClassifyLines(Split(describe, '\n')))
    else None
  }

  // ----- what the scans decide

  lemma ClassifyNeverUnknown(message: string, words: Words)
    ensures Classify(message, words) != Unknown
  {
  }

  /** A failure is classified exactly when the pod has a pull event or its description names a pull error; it is
      never classified as unknown. */
  lemma {:induction false} ClassifiedExactly(events: seq<Event>, podName: string, describe: string)
    ensures ClassifyPullFailure(events, podName, describe).Some? <==>
            HasPullMarker(describe) || exists i :: 0 <= i < |events| && IsPullEvent(events[i], podName)
    ensures ClassifyPullFailure(events, podName, describe).Some? ==>
            ClassifyPullFailure(events, podName, describe).value.0 != Unknown
  {
    EventsExactly(events, podName);
    LinesNeverUnknown(Split(describe, '\n'));
  }

  lemma {:induction false} EventsExactly(events: seq<Event>, podName: string)
    ensures ClassifyEvents(events, podName).Some? <==> exists i :: 0 <= i < |events| && IsPullEvent(events[i], podName)
    ensures ClassifyEvents(events, podName).Some? ==> ClassifyEvents(events, podName).value.0 != Unknown
  {
    if events != [] {
      EventsExactly(events[1..], podName);
      ClassifyNeverUnknown(events[0].message, EVENT_WORDS);
      forall i | 0 <= i < |events| && IsPullEvent(events[i], podName)
        ensures i == 0 || IsPullEvent(events[1..][i - 1], podName) {
      }
    }
  }

  lemma {:induction false} LinesNeverUnknown(lines: seq<string>)
    ensures ClassifyLines(lines).0 != Unknown
  {
    if lines != [] {
      LinesNeverUnknown(lines[1..]);
    }
  }

  /** A reason is found exactly when some container waits on a pull, and it is that of the first such container. */
  lemma {:induction false} WaitingReasonIsFirst(containers: seq<Option<Waiting>>)
    ensures WaitingReason(containers).None? ==>
      forall i :: 0 <= i < |containers| && containers[i].Some? ==> !IsPullReason(containers[i].value.reason)
    ensures WaitingReason(containers).Some? ==>
      exists i :: 0 <= i < |containers| && containers[i].Some? && IsPullReason(containers[i].value.reason)
        && WaitingReason(containers).value
          == (containers[i].value.reason, Classify(containers[i].value.message, WAITING_WORDS))
        && forall j :: 0 <= j < i && containers[j].Some? ==> !IsPullReason(containers[j].value.reason)
  {
    if containers != [] {
      var rest := containers[1..];
      WaitingReasonIsFirst(rest);
      assert forall i :: 0 < i < |containers| ==> containers[i] == rest[i - 1];
      if WaitingReason(containers).Some? && !(containers[0].Some? && IsPullReason(containers[0].value.reason)) {
        var k :| 0 <= k < |rest| && rest[k].Some? && IsPullReason(rest[k].value.reason)
          && WaitingReason(rest).value == (rest[k].value.reason, Classify(rest[k].value.message, WAITING_WORDS))
          && forall j :: 0 <= j < k && rest[j].Some? ==> !IsPullReason(rest[j].value.reason);
        assert containers[k + 1] == rest[k];
      }
    }
  }

  // ----- the two keyword lists

  lemma MentionsTwo(text: string, a: string, b: string)
    ensures Mentions(text, [a, b]) <==> Contains(text, a) || Contains(text, b)
  {
    assert [a, b][0] == a && [a, b][1] == b;
  }

  lemma MentionsThree(text: string, a: string, b: string, c: string)
    ensures Mentions(text, [a, b, c]) <==> Contains(text, a) || Contains(text, b) || Contains(text, c)
  {
    assert [a, b, c][0] == a && [a, b, c][1] == b && [a, b, c][2] == c;
  }

  lemma MentionsFour(text: string, a: string, b: string, c: string, d: string)
    ensures Mentions(text, [a, b, c, d]) <==> Mentions(text, [a, c, d]) || Contains(text, b)
  {
    assert [a, b, c, d][0] == a && [a, b, c, d][1] == b && [a, b, c, d][2] == c && [a, b, c, d][3] == d;
    MentionsThree(text, a, c, d);
  }

  lemma MentionsFive(text: string, a: string, b: string, c: string, d: string, e: string)
    ensures Mentions(text, [a, b, c, d, e]) <==> Mentions(text, [b, c, d]) || Contains(text, a) || Contains(text, e)
  {
    var all := [a, b, c, d, e];
    assert all[0] == a && all[1] == b && all[2] == c && all[3] == d && all[4] == e;
    MentionsThree(text, b, c, d);
  }

  /** The event scan knows four more phrases than the waiting scan; the same message gets two classes exactly when one
      of them is present and no earlier branch hides it. */
  lemma ScansDisagreeExactly(message: string)
    ensures Classify(message, WAITING_WORDS) != Classify(message, EVENT_WORDS) <==>
      && !Mentions(Lower(message), WAITING_WORDS.missing) && !Mentions(Lower(message), WAITING_WORDS.unauthorized)
      && (|| Contains(Lower(message), "authentication")
          || (&& !Mentions(Lower(message), WAITING_WORDS.tls)
              && (|| Contains(Lower(message), "ssl")
                  || (&& !Mentions(Lower(message), WAITING_WORDS.network)
                      && (Contains(Lower(message), "dial tcp") || Contains(Lower(message), "no such host"))))))
  {
    var text := Lower(message);
    MentionsFour(text, "unauthorized", "authentication", "forbidden", "denied");
    MentionsThree(text, "certificate", "tls", "ssl");
    MentionsTwo(text, "certificate", "tls");
    MentionsFive(text, "dial tcp", "network", "connect", "dns", "no such host");
  }

  // ----- which message gets which class

  /** The text holds the phrase somewhere. */
  ghost predicate Holds(s: string, p: string) {
    exists a, b :: s == a + p + b
  }

  lemma MentionsExactly(text: string, words: seq<string>)
    ensures Mentions(text, words) <==> exists w :: w in words && Holds(text, w)
  {
    if i :| 0 <= i < |words| && Contains(text, words[i]) {
      ContainsExactly(text, words[i]);
      assert words[i] in words && Holds(text, words[i]);
    }
    if w :| w in words && Holds(text, w) {
      var i :| 0 <= i < |words| && words[i] == w;
      ContainsExactly(text, w);
    }
  }

  /** A class is given for a phrase in the message, in any letter case, and the earlier kinds of phrase go first. */
  lemma ClassExactly(message: string, words: Words)
    ensures var text := Lower(message);
            var missing := exists w :: w in words.missing && Holds(text, w);
            var unauthorized := exists w :: w in words.unauthorized && Holds(text, w);
            var tls := exists w :: w in words.tls && Holds(text, w);
            var network := exists w :: w in words.network && Holds(text, w);
            && (Classify(message, words) == Missing <==> missing)
            && (Classify(message, words) == Unauthorized <==> !missing && unauthorized)
            && (Classify(message, words) == Tls <==> !missing && !unauthorized && tls)
            && (Classify(message, words) == Network <==> !missing && !unauthorized && !tls && network)
            && (Classify(message, words) == PullBackoff <==> !missing && !unauthorized && !tls && !network)
  {
    MentionsExactly(Lower(message), words.missing);
    MentionsExactly(Lower(message), words.unauthorized);
    MentionsExactly(Lower(message), words.tls);
    MentionsExactly(Lower(message), words.network);
  }

  /** The phrases of the three scans. */
  lemma PhrasesOfScans(w: string)
    ensures w in WAITING_WORDS.missing <==> w == "manifest unknown" || w == "not found"
    ensures EVENT_WORDS.missing == DESCRIBE_WORDS.missing == WAITING_WORDS.missing
    ensures w in WAITING_WORDS.unauthorized <==> w == "unauthorized" || w == "forbidden" || w == "denied"
    ensures w in EVENT_WORDS.unauthorized <==> w in WAITING_WORDS.unauthorized || w == "authentication"
    ensures DESCRIBE_WORDS.unauthorized == WAITING_WORDS.unauthorized
    ensures w in WAITING_WORDS.tls <==> w == "certificate" || w == "tls"
    ensures w in EVENT_WORDS.tls <==> w in WAITING_WORDS.tls || w == "ssl"
    ensures DESCRIBE_WORDS.tls == WAITING_WORDS.tls
    ensures w in DESCRIBE_WORDS.network <==> w == "network" || w == "connect"
    ensures w in WAITING_WORDS.network <==> w in DESCRIBE_WORDS.network || w == "dns"
    ensures w in EVENT_WORDS.network <==> w in WAITING_WORDS.network || w == "dial tcp" || w == "no such host"
  {
  }

  /** The first pull event of the pod decides, with its own message. */
  lemma {:induction false} FirstEventDecides(events: seq<Event>, podName: string, k: nat)
    requires k < |events| && IsPullEvent(events[k], podName)
    requires forall j :: 0 <= j < k ==> !IsPullEvent(events[j], podName)
    ensures ClassifyEvents(events, podName) == Some((Classify(events[k].message, EVENT_WORDS), events[k].message))
  {
    if k > 0 {
      FirstEventDecides(events[1..], podName, k - 1);
    }
  }

  lemma {:induction false} AfterColonExactly(before: string, after: string)
    requires ':' !in before
    ensures AfterColon(before + [':'] + after) == Some(Strip(after)) && AfterColon(before) == None
  {
    if before == "" {
      assert ([':'] + after)[1..] == after && before + [':'] + after == [':'] + after;
    } else {
      assert (before + [':'] + after)[1..] == before[1..] + [':'] + after;
      AfterColonExactly(before[1..], after);
    }
  }

  /** Without events the first line of the description that names a pull error and has a colon decides, with what
      stands after its first colon; without such a line the failure is a back-off. */
  lemma {:induction false} FirstLineDecides(lines: seq<string>, k: nat, before: string, after: string)
    requires k <= |lines| && forall j :: 0 <= j < k ==> !HasPullMarker(lines[j]) || ':' !in lines[j]
    requires k < |lines| ==> HasPullMarker(lines[k]) && lines[k] == before + [':'] + after && ':' !in before
    ensures ClassifyLines(lines) == if k < |lines| then (Classify(Strip(after), DESCRIBE_WORDS), Strip(after))
                                    else (PullBackoff, "ImagePullBackOff detected")
  {
    if lines != [] {
      if k == 0 {
        AfterColonExactly(before, after);
      } else {
        if ':' !in lines[0] {
          AfterColonExactly(lines[0], "");
        }
        FirstLineDecides(lines[1..], k - 1, before, after);
      }
    }
  }

  lemma MarkerExactly(text: string)
    ensures HasPullMarker(text) <==> Holds(Lower(text), "imagepullbackoff") || Holds(Lower(text), "errimagepull")
  {
    ContainsExactly(Lower(text), "imagepullbackoff");
    ContainsExactly(Lower(text), "errimagepull");
  }
}
