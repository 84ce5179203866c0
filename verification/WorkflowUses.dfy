/** The `uses:` actions of printed jobs. */
module WorkflowUses {
  import opened Text
  import opened WorkflowParser
  import opened WorkflowPrinter
  import opened PrintedLines
  import opened WorkflowRuns

  // ----- actions with their text on the same line

  /** The action of a line that has both the key and its text. */
  function ActionIn(line: string): seq<string> {
    match After(line, "uses:")
    case Some(tail) => if StripLeft(tail) != "" then ["uses: " + Strip(tail)] else []
    case None => []
  }

  function ActionsIn(lines: seq<string>): seq<string> {
    if lines == [] then [] else ActionIn(lines[0]) + ActionsIn(lines[1..])
  }

  /** The key without a text. */
  predicate IsBare(line: string) {
    After(line, "uses:").Some? && StripLeft(After(line, "uses:").value) == ""
  }

  predicate AllEmpty(lines: seq<string>) {
    forall i :: 0 <= i < |lines| ==> lines[i] == ""
  }

  /** Some bare key has something to take: blanks of its own, or a line that is not empty after it, where `more` says
      whether one follows these lines. */
  predicate Takes(lines: seq<string>, more: bool) {
    lines != [] &&
    (|| (IsBare(lines[0]) && (After(lines[0], "uses:").value != "" || more || !AllEmpty(lines[1..])))
     || Takes(lines[1..], more))
  }

  lemma {:induction false} ActionsInAppend(a: seq<string>, b: seq<string>)
    ensures ActionsIn(a + b) == ActionsIn(a) + ActionsIn(b)
  {
    if a == [] {
      assert a + b == b;
    } else {
      ActionsInAppend(a[1..], b);
      assert (a + b)[1..] == a[1..] + b && (a + b)[0] == a[0];
      Regrouped(ActionIn(a[0]), ActionsIn(a[1..]), ActionsIn(b));
    }
  }

  lemma AllEmptyAppend(a: seq<string>, b: seq<string>)
    ensures AllEmpty(a + b) <==> AllEmpty(a) && AllEmpty(b)
  {
    if AllEmpty(a + b) {
      forall i | 0 <= i < |a| ensures a[i] == "" {
        assert (a + b)[i] == a[i];
      }
      forall i | 0 <= i < |b| ensures b[i] == "" {
        assert (a + b)[|a| + i] == b[i];
      }
    }
  }

  lemma {:induction false} TakesAppend(a: seq<string>, b: seq<string>, more: bool)
    ensures Takes(a + b, more) <==> Takes(a, more || !AllEmpty(b)) || Takes(b, more)
  {
    if a == [] {
      assert a + b == b;
    } else {
      TakesAppend(a[1..], b, more);
      assert (a + b)[1..] == a[1..] + b;
      AllEmptyAppend(a[1..], b);
    }
  }

  lemma {:induction false} BlankLinesAreBlank(lines: seq<string>)
    ensures forall i :: 0 <= i < BlankLines(lines) ==> StripLeft(lines[i]) == ""
    ensures BlankLines(lines) < |lines| ==> StripLeft(lines[BlankLines(lines)]) != ""
  {
    if lines != [] && StripLeft(lines[0]) == "" {
      BlankLinesAreBlank(lines[1..]);
    }
  }

  lemma {:induction false} BlankLinesHaveNoAction(lines: seq<string>)
    requires forall i :: 0 <= i < |lines| ==> StripLeft(lines[i]) == ""
    ensures ActionsIn(lines) == []
  {
    if lines != [] {
      BlankLinesHaveNoAction(lines[1..]);
    }
  }

  lemma {:induction false} AfterBlankLines(lines: seq<string>, n: nat)
    requires n < |lines| && forall i :: 0 <= i < n ==> StripLeft(lines[i]) == ""
    ensures ActionsIn(lines) == ActionIn(lines[n]) + ActionsIn(lines[n + 1..])
  {
    if n > 0 {
      AfterBlankLines(lines[1..], n - 1);
      assert lines[1..][n - 1] == lines[n] && lines[1..][n..] == lines[n + 1..];
      assert ActionIn(lines[0]) == [];
    }
  }

  /** A line that a bare key takes gives a longer action than its own. */
  lemma TakenIsLonger(line: string)
    requires StripLeft(line) != ""
    ensures Size(["uses: " + Strip(line)]) > Size(ActionIn(line))
  {
    SizeOfOne("uses: " + Strip(line));
    if After(line, "uses:").Some? && StripLeft(After(line, "uses:").value) != "" {
      var tail := After(line, "uses:").value;
      assert StripLeft(line) == "uses:" + tail;
      StripRightAfter("uses:", tail);
      SizeOfOne("uses: " + Strip(tail));
      StripRightIsShorter(tail);
    }
  }

  lemma {:induction false} StripRightAfter(front: string, s: string)
    requires StripLeft(s) != ""
    ensures StripRight(front + s) == front + StripRight(s)
  {
    var k := |s| - 1;
    if IsSpace(s[k]) {
      assert (front + s)[..|front + s| - 1] == front + s[..k];
      StripLeftKeepsVisible(s, k);
      StripRightAfter(front, s[..k]);
    }
  }

  lemma {:induction false} StripLeftKeepsVisible(s: string, k: nat)
    requires k == |s| - 1 && IsSpace(s[k]) && StripLeft(s) != ""
    ensures StripLeft(s[..k]) != ""
  {
    if IsSpace(s[0]) && k > 0 {
      assert s[..k][1..] == s[1..][..k - 1];
      StripLeftKeepsVisible(s[1..], k - 1);
    }
  }

  lemma StripRightIsShorter(s: string)
    ensures |Strip(s)| <= |StripRight(s)|
  {
    StripLeftWindow(s);
    StripTail(s);
  }

  /** Stripping the right end of a text without its leading blanks leaves no more than stripping the whole. */
  lemma {:induction false} StripTail(s: string)
    ensures |StripRight(StripLeft(s))| <= |StripRight(s)|
  {
    if s != "" && IsSpace(s[0]) {
      StripTail(s[1..]);
      StripRightOfTail(s);
    }
  }

  lemma {:induction false} StripRightOfTail(s: string)
    requires s != ""
    ensures |StripRight(s[1..])| <= |StripRight(s)|
  {
    var k := |s| - 1;
    if IsSpace(s[k]) && k > 0 {
      StripRightOfTail(s[..k]);
      assert s[..k][1..] == s[1..][..k - 1];
      assert s[1..][k - 1] == s[k];
    }
  }

  // ----- what the pattern finds

  /** The pattern finds the actions on the lines, and something larger exactly when a bare key takes something. */
  lemma {:induction false} PatternFinds(lines: seq<string>)
    ensures if Takes(lines, false) then Size(UsesOf(lines)) > Size(ActionsIn(lines))
      else UsesOf(lines) == ActionsIn(lines)
    decreases |lines|
  {
    if lines != [] {
      if !IsBare(lines[0]) {
        PatternFinds(lines[1..]);
        SizeAppend(ActionIn(lines[0]), UsesOf(lines[1..]));
        SizeAppend(ActionIn(lines[0]), ActionsIn(lines[1..]));
      } else {
        BareKeyFinds(lines);
      }
    }
  }

  lemma {:induction false} BareKeyFinds(lines: seq<string>)
    requires lines != [] && IsBare(lines[0])
    ensures if Takes(lines, false) then Size(UsesOf(lines)) > Size(ActionsIn(lines))
      else UsesOf(lines) == ActionsIn(lines)
    decreases |lines|, 0
  {
    var n := BlankLines(lines[1..]);
    BlankLinesAreBlank(lines[1..]);
    if 1 + n < |lines| {
      var line, rest := lines[1 + n], lines[2 + n..];
      assert line != "" && !AllEmpty(lines[1..]) by {
        assert lines[1..][n] == line;
      }
      AfterBlankLines(lines[1..], n);
      assert lines[1..][n + 1..] == rest;
      PatternFinds(rest);
      TakenIsLonger(line);
      SizeAppend(["uses: " + Strip(line)], UsesOf(rest));
      SizeAppend(ActionIn(line), ActionsIn(rest));
      assert UsesOf(lines) == ["uses: " + Strip(line)] + UsesOf(rest);
      assert ActionsIn(lines) == ActionIn(line) + ActionsIn(rest);
    } else {
      BlankLinesHaveNoAction(lines[1..]);
      SizeOfOne("uses: ");
      LastKeyTakes(lines);
    }
  }

  /** A bare key with nothing visible after it takes something exactly when the pattern finds an empty action. */
  lemma LastKeyTakes(lines: seq<string>)
    requires lines != [] && IsBare(lines[0]) && forall i :: 0 < i < |lines| ==> StripLeft(lines[i]) == ""
    ensures Takes(lines, false) <==>
      After(lines[0], "uses:").value != "" || exists i | 0 < i < |lines| :: lines[i] != ""
  {
    assert AllEmpty(lines[1..]) <==> !exists i | 0 < i < |lines| :: lines[i] != "" by {
      forall i | 0 < i < |lines| ensures lines[i] == lines[1..][i - 1] {
      }
    }
    NoKeyTakesNothing(lines[1..]);
  }

  lemma {:induction false} NoKeyTakesNothing(lines: seq<string>)
    requires forall i :: 0 <= i < |lines| ==> StripLeft(lines[i]) == ""
    ensures !Takes(lines, false)
  {
    if lines != [] {
      NoKeyTakesNothing(lines[1..]);
    }
  }

  // ----- the lines of a script

  lemma {:induction false} EmptyBody(indent: nat, body: seq<BodyLine>)
    requires indent > 2 && ValidBody(body)
    ensures AllEmpty(PrintBody(indent, body)) <==> AllBlank(body)
  {
    if body != [] {
      BodyLineFacts(indent, body[0]);
      EmptyBody(indent, body[1..]);
      AllEmptyAppend([PrintBodyLine(indent, body[0])], PrintBody(indent, body[1..]));
      assert [PrintBodyLine(indent, body[0])][0] == PrintBodyLine(indent, body[0]);
      assert AllBlank(body) <==> body[0].Blank? && AllBlank(body[1..]) by {
        forall i | 0 < i < |body| ensures body[i] == body[1..][i - 1] {
        }
      }
    }
  }

  /** A script is quiet exactly when none of its lines is an action and none of its bare keys takes anything. */
  lemma {:induction false} QuietBodyExactly(indent: nat, body: seq<BodyLine>, more: bool)
    requires indent > 2 && ValidBody(body)
    ensures QuietBody(body, !more) <==>
            ActionsIn(PrintBody(indent, body)) == [] && !Takes(PrintBody(indent, body), more)
  {
    if body != [] {
      var line := PrintBodyLine(indent, body[0]);
      BodyLineSays(indent, body[0], "uses:");
      QuietBodyExactly(indent, body[1..], more);
      EmptyBody(indent, body[1..]);
      assert PrintBody(indent, body)[1..] == PrintBody(indent, body[1..]) && PrintBody(indent, body)[0] == line;
    }
  }

  // ----- the lines of a list of steps

  lemma EmptyStep(step: Step)
    requires ValidStep(step)
    ensures AllEmpty(PrintStep(step)) <==> step.Gap?
  {
    FirstLineFacts(step);
    assert PrintStep(step)[0] == FirstLine(step);
  }

  lemma {:induction false} EmptySteps(steps: seq<Step>)
    requires AllValid(steps)
    ensures AllEmpty(PrintSteps(steps)) <==> AllGaps(steps)
  {
    if steps != [] {
      EmptySteps(steps[1..]);
      EmptyStep(steps[0]);
      AllEmptyAppend(PrintStep(steps[0]), PrintSteps(steps[1..]));
      assert AllGaps(steps) <==> steps[0].Gap? && AllGaps(steps[1..]) by {
        forall i | 0 < i < |steps| ensures steps[i] == steps[1..][i - 1] {
        }
      }
    }
  }

  /** A step that is not quiet. */
  predicate QuietStep(step: Step, last: bool) {
    step.Block? ==> QuietBody(step.body, last)
  }

  lemma FirstLineUses(step: Step)
    requires ValidStep(step)
    ensures ActionIn(FirstLine(step)) == ActionOf(step) && !IsBare(FirstLine(step))
  {
    FirstLineFacts(step);
    if step.Uses? {
      UsesLine(step);
    }
  }

  /** A quiet step's lines give its action; another step's lines give more, or take something. */
  lemma StepUses(step: Step, more: bool)
    requires ValidStep(step)
    ensures Size(ActionsIn(PrintStep(step))) >= Size(ActionOf(step))
    ensures if QuietStep(step, !more) then ActionsIn(PrintStep(step)) == ActionOf(step) && !Takes(PrintStep(step), more)
            else Size(ActionsIn(PrintStep(step))) > Size(ActionOf(step)) || Takes(PrintStep(step), more)
  {
    var first, body := FirstLine(step), if step.Block? then PrintBody(step.indent, step.body) else [];
    FirstLineUses(step);
    assert PrintStep(step) == [first] + body && PrintStep(step)[1..] == body;
    SizeAppend(ActionIn(first), ActionsIn(body));
    if step.Block? {
      QuietBodyExactly(step.indent, step.body, more);
    }
  }

  lemma {:induction false} StepsUses(steps: seq<Step>)
    requires AllValid(steps)
    ensures Size(ActionsIn(PrintSteps(steps))) >= Size(Actions(steps))
    ensures if QuietSteps(steps) then ActionsIn(PrintSteps(steps)) == Actions(steps) && !Takes(PrintSteps(steps), false)
            else Size(ActionsIn(PrintSteps(steps))) > Size(Actions(steps)) || Takes(PrintSteps(steps), false)
  {
    if steps != [] {
      var first, rest := PrintStep(steps[0]), PrintSteps(steps[1..]);
      StepsUses(steps[1..]);
      EmptySteps(steps[1..]);
      StepUses(steps[0], !AllGaps(steps[1..]));
      ActionsInAppend(first, rest);
      TakesAppend(first, rest, false);
      SizeAppend(ActionsIn(first), ActionsIn(rest));
      SizeAppend(ActionOf(steps[0]), Actions(steps[1..]));
    }
  }

  // ----- a job

  lemma HeaderUses(job: Job)
    requires ValidJob(job)
    ensures ActionsIn(PrintJob(job)) == ActionsIn(PrintSteps(job.steps))
    ensures Takes(PrintJob(job), false) <==>
            (job.name == "uses" && !AllGaps(job.steps)) || Takes(PrintSteps(job.steps), false)
  {
    HeaderSays(job, "uses");
    assert "uses" + ":" == "uses:";
    EmptySteps(job.steps);
    assert PrintJob(job)[0] == Header(job) && PrintJob(job)[1..] == PrintSteps(job.steps);
  }

  /** The actions of a job are read as they are meant, or more is read than is there. */
  lemma JobUses(job: Job)
    requires ValidJob(job)
    ensures if ReadsUses(job) then UsesOf(PrintJob(job)) == Actions(job.steps)
            else Size(UsesOf(PrintJob(job))) > Size(Actions(job.steps))
  {
    HeaderUses(job);
    StepsUses(job.steps);
    PatternFinds(PrintJob(job));
  }
}
