/** The `run:` commands of printed jobs. */
module WorkflowRuns {
  import opened Wrappers
  import opened Text
  import opened WorkflowParser
  import opened WorkflowPrinter
  import opened PrintedLines

  // ----- sizes, to compare lists of commands

  /** The size of a list of texts: their lengths, and one for each. */
  function Size(texts: seq<string>): nat {
    if texts == [] then 0 else |texts[0]| + 1 + Size(texts[1..])
  }

  lemma {:induction false} SizeAppend(a: seq<string>, b: seq<string>)
    ensures Size(a + b) == Size(a) + Size(b)
  {
    if a == [] {
      assert a + b == b;
    } else {
      SizeAppend(a[1..], b);
      assert (a + b)[1..] == a[1..] + b;
    }
  }

  lemma SizeOfOne(text: string)
    ensures Size([text]) == |text| + 1
  {
    assert [text][1..] == [];
  }

  /** A block's command is as large as its lines. */
  lemma {:induction false} SizeOfBlock(texts: seq<string>)
    ensures Size(BlockCommand(texts)) == Size(texts)
  {
    if texts != [] {
      SizeOfOne(Join(texts, '\n'));
      if |texts| > 1 {
        SizeOfBlock(texts[1..]);
        SizeOfOne(Join(texts[1..], '\n'));
      } else {
        assert texts[1..] == [];
      }
    }
  }

  // ----- the commands of a list of steps

  lemma {:induction false} BlockStopsAtBody(indent: nat, body: seq<BodyLine>, rest: seq<string>)
    requires indent > 2 && ValidBody(body) && (rest == [] || !InBlock(rest[0], indent))
    ensures |PrintBody(indent, body)| == |body|
    ensures BlockLength(PrintBody(indent, body) + rest, indent) == |body|
  {
    var lines := PrintBody(indent, body) + rest;
    if body == [] {
      assert lines == rest;
    } else {
      BodyLineFacts(indent, body[0]);
      BlockStopsAtBody(indent, body[1..], rest);
      assert lines[1..] == PrintBody(indent, body[1..]) + rest;
    }
  }

  lemma {:induction false} BlockTextIsBody(indent: nat, body: seq<BodyLine>)
    requires indent > 2 && ValidBody(body)
    ensures BlockText(PrintBody(indent, body)) == BodyText(body)
  {
    if body != [] {
      BodyLineFacts(indent, body[0]);
      BlockTextIsBody(indent, body[1..]);
      assert PrintBody(indent, body)[1..] == PrintBody(indent, body[1..]);
    }
  }

  lemma {:induction false} StepsGiveRuns(steps: seq<Step>)
    requires ValidSteps(steps)
    ensures RunsOf(PrintSteps(steps)) == Runs(steps)
  {
    if steps != [] {
      ValidTail(steps);
      StepsGiveRuns(steps[1..]);
      var step, rest := steps[0], PrintSteps(steps[1..]);
      if step.Block? {
        BlockGivesRun(step, rest) by {
          assert |steps| > 1 ==> EndsBlock(steps[0], steps[1]);
        }
      } else {
        if step.Run? { RunLine(step); } else { QuietLine(step); }
        assert PrintSteps(steps)[1..] == rest;
      }
    }
  }

  lemma BlockGivesRun(step: Step, rest: seq<string>)
    requires step.Block? && ValidStep(step) && (rest == [] || !InBlock(rest[0], step.indent))
    ensures RunsOf(PrintStep(step) + rest) == BlockCommand(BodyText(step.body)) + RunsOf(rest)
  {
    var first, body := FirstLine(step), PrintBody(step.indent, step.body);
    BlockStarts(step, rest);
    BlockTextIsBody(step.indent, step.body);
    assert PrintStep(step) + rest == [first] + (body + rest);
    BlockAtFront(first, body, rest, PrintStep(step) + rest);
  }

  /** `first` opens a block that consists of `body`. */
  predicate OpensBlock(first: string, body: seq<string>, rest: seq<string>) {
    SingleRun(first) == None && IsBlockRun(first) && BlockLength(body + rest, Indent(first)) == |body|
  }

  lemma BlockStarts(step: Step, rest: seq<string>)
    requires step.Block? && ValidStep(step) && (rest == [] || !InBlock(rest[0], step.indent))
    ensures OpensBlock(FirstLine(step), PrintBody(step.indent, step.body), rest)
  {
    BlockLine(step);
    BlockStopsAtBody(step.indent, step.body, rest);
  }

  lemma BlockAtFront(first: string, body: seq<string>, rest: seq<string>, lines: seq<string>)
    requires OpensBlock(first, body, rest) && lines == [first] + (body + rest)
    ensures RunsOf(lines) == BlockCommand(BlockText(body)) + RunsOf(rest)
  {
    assert lines[1..] == body + rest;
    assert lines[1..1 + |body|] == body && lines[1 + |body|..] == rest;
  }

  // ----- a job

  /** How many steps come before the first shallow line. */
  function Deep(steps: seq<Step>): (n: nat)
    ensures n <= |steps|
  {
    if steps == [] || IsShallow(steps[0]) then 0 else 1 + Deep(steps[1..])
  }

  lemma DeepStep(step: Step)
    requires ValidStep(step) && !IsShallow(step)
    ensures forall i :: 0 <= i < |PrintStep(step)| ==> InBlock(PrintStep(step)[i], 2)
  {
    match step
    case Run(indent, gap, command, trail) => KeyLine(indent, "run:", gap + (command + trail));
    case Block(indent, marker, body) =>
      KeyLine(indent, "run:", marker);
      BodyLines(indent, body);
    case Uses(indent, gap, action, trail) => KeyLine(indent, "uses:", gap + (action + trail));
    case Needs(indent, text) => KeyLine(indent, "needs:", text);
    case Other(_) =>
    case Gap =>
  }

  lemma {:induction false} DeepLines(steps: seq<Step>)
    requires AllValid(steps)
    ensures forall i :: 0 <= i < |PrintSteps(steps[..Deep(steps)])| ==> InBlock(PrintSteps(steps[..Deep(steps)])[i], 2)
    ensures Deep(steps) < |steps| ==> IsShallow(steps[Deep(steps)])
  {
    if steps != [] && !IsShallow(steps[0]) {
      DeepStep(steps[0]);
      DeepLines(steps[1..]);
      assert steps[..Deep(steps)][1..] == steps[1..][..Deep(steps[1..])];
    }
  }

  lemma {:induction false} BlockStops(lines: seq<string>, rest: seq<string>, indent: int)
    requires forall i :: 0 <= i < |lines| ==> InBlock(lines[i], indent)
    requires rest == [] || !InBlock(rest[0], indent)
    ensures BlockLength(lines + rest, indent) == |lines|
  {
    if lines == [] {
      assert lines + rest == rest;
    } else {
      BlockStops(lines[1..], rest, indent);
      assert (lines + rest)[1..] == lines[1..] + rest;
    }
  }

  lemma {:induction false} ValidFrom(steps: seq<Step>, k: nat)
    requires ValidSteps(steps) && k <= |steps|
    ensures ValidSteps(steps[k..])
  {
    if k > 0 {
      ValidTail(steps);
      ValidFrom(steps[1..], k - 1);
      assert steps[1..][k - 1..] == steps[k..];
    } else {
      assert steps[0..] == steps;
    }
  }

  lemma {:induction false} RunsAppend(a: seq<Step>, b: seq<Step>)
    ensures Runs(a + b) == Runs(a) + Runs(b)
  {
    if a == [] {
      assert a + b == b;
    } else {
      RunsAppend(a[1..], b);
      assert (a + b)[1..] == a[1..] + b;
    }
  }

  /** The header of a job named `run` takes all lines up to the first shallow one for its block. */
  lemma RunHeaderTakesBlock(job: Job)
    requires ValidJob(job) && job.name == "run"
    ensures var k := Deep(job.steps);
            RunsOf(PrintJob(job)) == BlockCommand(BlockText(PrintSteps(job.steps[..k]))) + Runs(job.steps[k..])
  {
    var k := Deep(job.steps);
    var taken, rest := PrintSteps(job.steps[..k]), PrintSteps(job.steps[k..]);
    DeepLines(job.steps);
    BlockStops(taken, rest, 2) by {
      ShallowFirst(job.steps, k);
    }
    HeaderOpensBlock(job, taken, rest);
    assert job.steps[..k] + job.steps[k..] == job.steps;
    PrintStepsAppend(job.steps[..k], job.steps[k..]);
    BlockAtFront(Header(job), taken, rest, PrintJob(job));
    ValidFrom(job.steps, k);
    StepsGiveRuns(job.steps[k..]);
  }

  lemma ShallowFirst(steps: seq<Step>, k: nat)
    requires AllValid(steps) && k <= |steps| && (k < |steps| ==> IsShallow(steps[k]))
    ensures PrintSteps(steps[k..]) == [] || !InBlock(PrintSteps(steps[k..])[0], 2)
  {
    if k < |steps| {
      assert PrintSteps(steps[k..])[0] == FirstLine(steps[k]);
      assert ValidStep(steps[k]);
    }
  }

  lemma HeaderOpensBlock(job: Job, taken: seq<string>, rest: seq<string>)
    requires IsName(job.name) && job.name == "run" && BlockLength(taken + rest, 2) == |taken|
    ensures OpensBlock(Header(job), taken, rest)
  {
    HeaderSays(job, "run");
    assert "run" + ":" == "run:";
    HeaderIndent(job);
  }

  /** What one line adds to a block. */
  function LineText(line: string): seq<string> {
    if line == "" then [""] else if StripLeft(line) != "" then [StripLeft(line)] else []
  }

  lemma {:induction false} BlockTextJoined(a: seq<string>, b: seq<string>)
    ensures BlockText(a + b) == BlockText(a) + BlockText(b)
  {
    if a == [] {
      assert a + b == b;
    } else {
      BlockTextJoined(a[1..], b);
      assert (a + b)[1..] == a[1..] + b && (a + b)[0] == a[0];
      Regrouped(LineText(a[0]), BlockText(a[1..]), BlockText(b));
    }
  }

  /** A step's lines are larger than its commands. */
  lemma StepOutweighsRun(step: Step)
    requires ValidStep(step)
    ensures Size(BlockText(PrintStep(step))) > Size(RunOf(step))
  {
    var first := FirstLine(step);
    BlockTextJoined([first], if step.Block? then PrintBody(step.indent, step.body) else []);
    assert PrintStep(step) == [first] + (if step.Block? then PrintBody(step.indent, step.body) else []);
    FirstText(first);
    SizeAppend(BlockText([first]), BlockText(if step.Block? then PrintBody(step.indent, step.body) else []));
    match step
    case Run(indent, gap, command, trail) =>
      KeyLine(indent, "run:", gap + (command + trail));
      SizeOfOne(command);
    case Block(indent, marker, body) =>
      KeyLine(indent, "run:", marker);
      BlockTextIsBody(indent, body);
      SizeOfBlock(BodyText(body));
    case Uses(indent, gap, action, trail) => KeyLine(indent, "uses:", gap + (action + trail));
    case Needs(indent, text) => KeyLine(indent, "needs:", text);
    case Other(_) =>
    case Gap =>
  }

  lemma FirstText(line: string)
    ensures Size(BlockText([line])) ==
            if line == "" then 1 else if StripLeft(line) != "" then |StripLeft(line)| + 1 else 0
  {
    assert [line][1..] == [];
    SizeOfOne("");
    SizeOfOne(StripLeft(line));
  }

  lemma {:induction false} StepsOutweighRuns(steps: seq<Step>)
    requires AllValid(steps)
    ensures Size(BlockText(PrintSteps(steps))) >= Size(Runs(steps)) + |steps|
  {
    if steps != [] {
      StepsOutweighRuns(steps[1..]);
      StepOutweighsRun(steps[0]);
      BlockTextJoined(PrintStep(steps[0]), PrintSteps(steps[1..]));
      SizeAppend(BlockText(PrintStep(steps[0])), BlockText(PrintSteps(steps[1..])));
      SizeAppend(RunOf(steps[0]), Runs(steps[1..]));
    }
  }

  lemma BlockOutweighsRuns(steps: seq<Step>)
    requires AllValid(steps) && steps != []
    ensures Size(BlockCommand(BlockText(PrintSteps(steps)))) > Size(Runs(steps))
  {
    StepsOutweighRuns(steps);
    SizeOfBlock(BlockText(PrintSteps(steps)));
  }

  lemma Outweighs(a: seq<string>, b: seq<string>, rest: seq<string>)
    requires Size(a) > Size(b)
    ensures Size(a + rest) > Size(b + rest)
  {
    SizeAppend(a, rest);
    SizeAppend(b, rest);
  }

  /** The first steps go into the block of the header, and their commands with them. */
  lemma RunsSplit(front: seq<Step>, back: seq<Step>)
    requires AllValid(front) && front != []
    ensures Size(BlockCommand(BlockText(PrintSteps(front))) + Runs(back)) > Size(Runs(front + back))
  {
    BlockOutweighsRuns(front);
    Outweighs(BlockCommand(BlockText(PrintSteps(front))), Runs(front), Runs(back));
    RunsAppend(front, back);
  }

  lemma ValidFront(steps: seq<Step>, k: nat)
    requires AllValid(steps) && k <= |steps|
    ensures AllValid(steps[..k]) && steps[..k] + steps[k..] == steps
  {
  }

  lemma RunsSplitAt(steps: seq<Step>, k: nat)
    requires AllValid(steps) && 0 < k <= |steps|
    ensures Size(BlockCommand(BlockText(PrintSteps(steps[..k]))) + Runs(steps[k..])) > Size(Runs(steps))
  {
    ValidFront(steps, k);
    RunsSplit(steps[..k], steps[k..]);
  }

  lemma BlockJobRuns(job: Job)
    requires ValidJob(job) && job.name == "run"
    ensures if ReadsRuns(job) then RunsOf(PrintJob(job)) == Runs(job.steps)
            else Size(RunsOf(PrintJob(job))) > Size(Runs(job.steps))
  {
    var steps, k := job.steps, Deep(job.steps);
    RunHeaderTakesBlock(job);
    if k == 0 {
      assert steps[..0] == [] && steps[0..] == steps;
      assert BlockCommand(BlockText(PrintSteps([]))) == [];
    } else {
      RunsSplitAt(steps, k);
    }
  }

  /** The commands of a job are read as they are meant, or more is read than is there. */
  lemma JobRuns(job: Job)
    requires ValidJob(job)
    ensures if ReadsRuns(job) then RunsOf(PrintJob(job)) == Runs(job.steps)
            else Size(RunsOf(PrintJob(job))) > Size(Runs(job.steps))
  {
    if job.name == "run" {
      BlockJobRuns(job);
    } else {
      HeaderSays(job, "run");
      assert "run" + ":" == "run:";
      StepsGiveRuns(job.steps);
      assert ([Header(job)] + PrintSteps(job.steps))[1..] == PrintSteps(job.steps);
    }
  }
}
