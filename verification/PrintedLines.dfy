/** What the parser's line patterns make of printed lines. */
module PrintedLines {
  import opened Wrappers
  import opened Text
  import opened WorkflowParser
  import opened WorkflowPrinter

  // ----- one step's first line

  lemma RunLine(step: Step)
    requires step.Run? && ValidStep(step)
    ensures SingleRun(FirstLine(step)) == Some(step.command)
    ensures After(FirstLine(step), "uses:") == None && After(FirstLine(step), "needs:") == None
    ensures HeaderName(FirstLine(step)) == None && '\n' !in FirstLine(step)
  {
    var tail := step.gap + (step.command + step.trail);
    KeyLine(step.indent, "run:", tail);
    OtherKey(step.indent, "run:", tail, "uses:");
    OtherKey(step.indent, "run:", tail, "needs:");
    DeepLineIsNoHeader(step.indent, "run:" + tail);
    PaddedText(step.gap, step.command, step.trail);
  }

  lemma PaddedText(gap: string, text: string, trail: string)
    requires BlankText(gap) && BlankText(trail) && Solid(text)
    ensures StripLeft(gap + (text + trail)) == text + trail
    ensures Strip(text + trail) == text && Strip(gap + (text + trail)) == text
  {
    StripLeftPadded(gap, text + trail);
    StripRightPadded(text, trail);
  }

  lemma BlockLine(step: Step)
    requires step.Block? && ValidStep(step)
    ensures SingleRun(FirstLine(step)) == None && IsBlockRun(FirstLine(step)) && Indent(FirstLine(step)) == step.indent
    ensures After(FirstLine(step), "uses:") == None && After(FirstLine(step), "needs:") == None
    ensures HeaderName(FirstLine(step)) == None && '\n' !in FirstLine(step)
  {
    KeyLine(step.indent, "run:", step.marker);
    OtherKey(step.indent, "run:", step.marker, "uses:");
    OtherKey(step.indent, "run:", step.marker, "needs:");
    DeepLineIsNoHeader(step.indent, "run:" + step.marker);
    MarkerIsNoCommand(step.marker);
  }

  lemma MarkerIsNoCommand(marker: string)
    requires IsBlockMarker(Strip(marker))
    ensures var rest := StripLeft(marker); rest == "" || rest[0] == '|' || rest[0] == '>'
  {
    StripLeftWindow(marker);
    StripRightWindow(StripLeft(marker));
  }

  lemma UsesLine(step: Step)
    requires step.Uses? && ValidStep(step)
    ensures exists tail ::
              After(FirstLine(step), "uses:") == Some(tail) && StripLeft(tail) != "" && Strip(tail) == step.action
    ensures After(FirstLine(step), "run:") == None && After(FirstLine(step), "needs:") == None
    ensures HeaderName(FirstLine(step)) == None && '\n' !in FirstLine(step)
  {
    var tail := step.gap + (step.action + step.trail);
    KeyLine(step.indent, "uses:", tail);
    OtherKey(step.indent, "uses:", tail, "run:");
    OtherKey(step.indent, "uses:", tail, "needs:");
    DeepLineIsNoHeader(step.indent, "uses:" + tail);
    PaddedText(step.gap, step.action, step.trail);
    assert After(FirstLine(step), "uses:") == Some(tail);
  }

  lemma NeedsLine(step: Step)
    requires step.Needs? && ValidStep(step)
    ensures After(FirstLine(step), "needs:").Some?
    ensures After(FirstLine(step), "run:") == None && After(FirstLine(step), "uses:") == None
    ensures HeaderName(FirstLine(step)) == None && '\n' !in FirstLine(step)
  {
    KeyLine(step.indent, "needs:", step.text);
    OtherKey(step.indent, "needs:", step.text, "run:");
    OtherKey(step.indent, "needs:", step.text, "uses:");
    DeepLineIsNoHeader(step.indent, "needs:" + step.text);
  }

  /** First lines that carry no command: neither a command nor a block. */
  lemma QuietLine(step: Step)
    requires ValidStep(step) && !step.Run? && !step.Block?
    ensures SingleRun(FirstLine(step)) == None && !IsBlockRun(FirstLine(step))
  {
    match step
    case Uses(_, _, _, _) => UsesLine(step);
    case Needs(_, _) => NeedsLine(step);
    case Other(_) =>
    case Gap =>
  }

  /** Whatever the step, its first line is no header, has no line break, and carries `needs:` or `uses:` only if it
      should. */
  lemma FirstLineFacts(step: Step)
    requires ValidStep(step)
    ensures HeaderName(FirstLine(step)) == None && '\n' !in FirstLine(step)
    ensures After(FirstLine(step), "needs:").Some? <==> step.Needs?
    ensures !step.Uses? ==> After(FirstLine(step), "uses:") == None
    ensures FirstLine(step) == "" <==> step.Gap?
  {
    match step
    case Run(_, _, _, _) => RunLine(step);
    case Block(_, _, _) => BlockLine(step);
    case Uses(_, _, _, _) => UsesLine(step);
    case Needs(_, _) => NeedsLine(step);
    case Other(_) =>
    case Gap =>
  }

  // ----- the lines of a block

  lemma BodyLineFacts(indent: nat, b: BodyLine)
    requires indent > 2 && ValidBodyLine(b)
    ensures var line := PrintBodyLine(indent, b);
            && InBlock(line, indent) && InBlock(line, 2)
            && (if b.Blank? then line == "" else line != "" && StripLeft(line) == b.text != "")
            && HeaderName(line) == None && '\n' !in line
  {
    if b.Line? {
      StripLeftPadded(Spaces(indent + b.extra), b.text);
      DeepLineIsNoHeader(indent + b.extra, b.text);
    }
  }

  /** A script line says what its text says. */
  lemma BodyLineSays(indent: nat, b: BodyLine, key: string)
    requires indent > 2 && ValidBodyLine(b) && key != ""
    ensures After(PrintBodyLine(indent, b), key) == if Says(b, key) then Some(b.text[|key|..]) else None
  {
    BodyLineFacts(indent, b);
  }

  predicate ValidBody(body: seq<BodyLine>) {
    forall i :: 0 <= i < |body| ==> ValidBodyLine(body[i])
  }

  /** A line of a printed script: no header, no line break, deeper than a job's header. */
  predicate IsScriptLine(line: string) {
    HeaderName(line) == None && '\n' !in line && InBlock(line, 2)
  }

  lemma {:induction false} BodyLines(indent: nat, body: seq<BodyLine>)
    requires indent > 2 && ValidBody(body)
    ensures |PrintBody(indent, body)| == |body|
    ensures forall i :: 0 <= i < |body| ==> IsScriptLine(PrintBody(indent, body)[i])
  {
    if body != [] {
      BodyLineFacts(indent, body[0]);
      BodyLines(indent, body[1..]);
    }
  }

  // ----- the lines of a list of steps

  lemma ValidTail(steps: seq<Step>)
    requires steps != [] && ValidSteps(steps)
    ensures ValidSteps(steps[1..])
    ensures |steps| > 1 ==> PrintSteps(steps[1..])[0] == FirstLine(steps[1])
  {
    forall i | 0 < i < |steps| - 1 ensures EndsBlock(steps[1..][i - 1], steps[1..][i]) {
      assert EndsBlock(steps[i + 1 - 1], steps[i + 1]);
    }
  }

  predicate AllValid(steps: seq<Step>) {
    forall i :: 0 <= i < |steps| ==> ValidStep(steps[i])
  }

  predicate Headerless(lines: seq<string>) {
    forall i :: 0 <= i < |lines| ==> HeaderName(lines[i]) == None
  }

  lemma StepLines(step: Step)
    requires ValidStep(step)
    ensures Headerless(PrintStep(step)) && NoBreaks(PrintStep(step))
  {
    FirstLineFacts(step);
    if step.Block? {
      BodyLines(step.indent, step.body);
    }
  }

  lemma {:induction false} StepsLines(steps: seq<Step>)
    requires AllValid(steps)
    ensures Headerless(PrintSteps(steps)) && NoBreaks(PrintSteps(steps))
  {
    if steps != [] {
      StepsLines(steps[1..]);
      StepLines(steps[0]);
    }
  }

  lemma Regrouped(x: seq<string>, y: seq<string>, z: seq<string>)
    ensures (x + y) + z == x + (y + z)
  {
  }

  lemma {:induction false} PrintStepsAppend(a: seq<Step>, b: seq<Step>)
    ensures PrintSteps(a + b) == PrintSteps(a) + PrintSteps(b)
  {
    if a == [] {
      assert a + b == b;
    } else {
      PrintStepsAppend(a[1..], b);
      assert (a + b)[1..] == a[1..] + b && (a + b)[0] == a[0];
      Regrouped(PrintStep(a[0]), PrintSteps(a[1..]), PrintSteps(b));
    }
  }

  // ----- dependencies

  lemma HasNeedsAppend(a: seq<string>, b: seq<string>)
    ensures HasNeeds(a + b) <==> HasNeeds(a) || HasNeeds(b)
  {
    if i :| 0 <= i < |b| && After(b[i], "needs:").Some? {
      assert (a + b)[|a| + i] == b[i];
    }
    if i :| 0 <= i < |a| && After(a[i], "needs:").Some? {
      assert (a + b)[i] == a[i];
    }
  }

  lemma HasNeedsOne(line: string)
    ensures HasNeeds([line]) <==> After(line, "needs:").Some?
  {
    assert [line][0] == line;
  }

  predicate BodySaysNeeds(body: seq<BodyLine>) {
    exists k | 0 <= k < |body| :: Says(body[k], "needs:")
  }

  lemma {:induction false} BodyNeeds(indent: nat, body: seq<BodyLine>)
    requires indent > 2 && ValidBody(body)
    ensures HasNeeds(PrintBody(indent, body)) <==> BodySaysNeeds(body)
  {
    if body != [] {
      BodyNeeds(indent, body[1..]);
      BodyLineSays(indent, body[0], "needs:");
      HasNeedsOne(PrintBodyLine(indent, body[0]));
      HasNeedsAppend([PrintBodyLine(indent, body[0])], PrintBody(indent, body[1..]));
      SaysNeedsTail(body);
    }
  }

  lemma SaysNeedsTail(body: seq<BodyLine>)
    requires body != []
    ensures BodySaysNeeds(body) <==> Says(body[0], "needs:") || BodySaysNeeds(body[1..])
  {
    if k :| 0 <= k < |body[1..]| && Says(body[1..][k], "needs:") {
      assert Says(body[k + 1], "needs:");
    }
    if k :| 0 < k < |body| && Says(body[k], "needs:") {
      assert Says(body[1..][k - 1], "needs:");
    }
  }

  predicate StepSaysNeeds(step: Step) {
    step.Needs? || (step.Block? && BodySaysNeeds(step.body))
  }

  lemma StepNeeds(step: Step)
    requires ValidStep(step)
    ensures HasNeeds(PrintStep(step)) <==> StepSaysNeeds(step)
  {
    FirstLineFacts(step);
    HasNeedsOne(FirstLine(step));
    if step.Block? {
      BodyNeeds(step.indent, step.body);
      HasNeedsAppend([FirstLine(step)], PrintBody(step.indent, step.body));
    } else {
      assert PrintStep(step) == [FirstLine(step)];
    }
  }

  lemma {:induction false} StepsNeeds(steps: seq<Step>)
    requires AllValid(steps)
    ensures HasNeeds(PrintSteps(steps)) <==> exists i :: 0 <= i < |steps| && StepSaysNeeds(steps[i])
  {
    if steps != [] {
      StepsNeeds(steps[1..]);
      StepNeeds(steps[0]);
      HasNeedsAppend(PrintStep(steps[0]), PrintSteps(steps[1..]));
      if i :| 0 <= i < |steps[1..]| && StepSaysNeeds(steps[1..][i]) {
        assert StepSaysNeeds(steps[i + 1]);
      }
      if i :| 0 < i < |steps| && StepSaysNeeds(steps[i]) {
        assert StepSaysNeeds(steps[1..][i - 1]);
      }
    }
  }

  lemma NeedsOfSteps(steps: seq<Step>)
    requires AllValid(steps)
    ensures HasNeeds(PrintSteps(steps)) <==> HasNeedsStep(steps) || ScriptSaysNeeds(steps)
  {
    StepsNeeds(steps);
    if i :| 0 <= i < |steps| && StepSaysNeeds(steps[i]) {
      assert !steps[i].Needs? ==> ScriptSaysNeeds(steps);
    }
    if HasNeedsStep(steps) {
      var i :| 0 <= i < |steps| && steps[i].Needs?;
      assert StepSaysNeeds(steps[i]);
    }
    if ScriptSaysNeeds(steps) {
      var i :| 0 <= i < |steps| && steps[i].Block?
        && exists k :: 0 <= k < |steps[i].body| && Says(steps[i].body[k], "needs:");
      assert StepSaysNeeds(steps[i]);
    }
  }

  // ----- a job's header

  lemma NameIsNoKey(name: string, word: string)
    requires IsName(name) && word != name && ':' !in word
    ensures After("  " + (name + ":"), word + ":") == None
  {
    StripLeftPadded("  ", name + ":");
    if word + ":" <= name + ":" {
      KeyIsName(name, word);
    }
  }

  lemma KeyIsName(name: string, word: string)
    requires IsName(name) && ':' !in word && word + ":" <= name + ":"
    ensures word == name
  {
    var tail := (name + ":")[|word| + 1..];
    assert word + [':'] + tail == name + [':'] + "";
    FirstSeparator(word, tail, name, "", ':');
  }

  function Header(job: Job): string {
    "  " + (job.name + ":")
  }

  lemma HeaderFacts(job: Job)
    requires ValidName(job.name)
    ensures HeaderName(Header(job)) == Some(job.name) && '\n' !in Header(job)
  {
    HeaderLine(job.name);
    HeaderHasNoBreak(job.name);
  }

  lemma HeaderHasNoBreak(name: string)
    requires IsName(name)
    ensures '\n' !in "  " + (name + ":")
  {
  }

  /** A header is one of the parser's keys exactly when the job has the key's name, and then nothing follows it. */
  lemma HeaderSays(job: Job, word: string)
    requires IsName(job.name) && ':' !in word
    ensures After(Header(job), word + ":") == if job.name == word then Some("") else None
  {
    StripLeftPadded("  ", job.name + ":");
    if job.name == word {
      assert (word + ":")[|word| + 1..] == "";
    } else {
      NameIsNoKey(job.name, word);
    }
  }

  lemma HeaderIndent(job: Job)
    requires IsName(job.name)
    ensures Header(job) != "" && Indent(Header(job)) == 2
  {
    StripLeftPadded("  ", job.name + ":");
  }

  lemma JobLines(job: Job)
    requires ValidJob(job)
    ensures NoBreaks(PrintJob(job))
    ensures HeaderName(PrintJob(job)[0]) == Some(job.name) && Headerless(PrintJob(job)[1..])
  {
    HeaderFacts(job);
    StepsLines(job.steps);
    assert PrintJob(job)[0] == Header(job) && PrintJob(job)[1..] == PrintSteps(job.steps);
  }

  /** The flag is set by a dependency, by a script line that begins with `needs:`, and by the name `needs`. */
  lemma JobNeeds(job: Job)
    requires ValidJob(job)
    ensures HasNeeds(PrintJob(job)) <==> job.name == "needs" || HasNeedsStep(job.steps) || ScriptSaysNeeds(job.steps)
  {
    HeaderSays(job, "needs");
    assert "needs" + ":" == "needs:";
    HasNeedsOne(Header(job));
    HasNeedsAppend([Header(job)], PrintSteps(job.steps));
    NeedsOfSteps(job.steps);
  }
}
