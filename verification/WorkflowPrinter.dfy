/** Workflows as lists of jobs and steps, printed as text, and why the parser reads back what was printed. */
module WorkflowPrinter {
  import opened Wrappers
  import opened Text
  import opened WorkflowParser

  /** A line of a `run:` block: empty, or text indented `extra` deeper than the key. */
  datatype BodyLine = Blank | Line(extra: nat, text: string)

  /** What a step's lines can be. Each key stands on its own line, at its own indentation. */
  datatype Step =
    | Run(indent: nat, gap: string, command: string, trail: string)
    | Block(indent: nat, marker: string, body: seq<BodyLine>)
    | Uses(indent: nat, gap: string, action: string, trail: string)
    | Needs(indent: nat, text: string)
    | Other(line: string)
    | Gap

  datatype Job = Job(name: string, steps: seq<Step>)

  // ----- printing

  function Spaces(n: nat): (s: string)
    ensures |s| == n && forall i :: 0 <= i < n ==> s[i] == ' '
  {
    seq(n, _ => ' ')
  }

  function PrintBodyLine(indent: nat, b: BodyLine): string {
    match b
    case Blank => ""
    case Line(extra, text) => Spaces(indent + extra) + text
  }

  function PrintBody(indent: nat, body: seq<BodyLine>): seq<string> {
    if body == [] then [] else [PrintBodyLine(indent, body[0])] + PrintBody(indent, body[1..])
  }

  /** The first line of a step. */
  function FirstLine(step: Step): string {
    match step
    case Run(indent, gap, command, trail) => Spaces(indent) + ("run:" + (gap + (command + trail)))
    case Block(indent, marker, _) => Spaces(indent) + ("run:" + marker)
    case Uses(indent, gap, action, trail) => Spaces(indent) + ("uses:" + (gap + (action + trail)))
    case Needs(indent, text) => Spaces(indent) + ("needs:" + text)
    case Other(line) => line
    case Gap => ""
  }

  function PrintStep(step: Step): seq<string> {
    [FirstLine(step)] + (if step.Block? then PrintBody(step.indent, step.body) else [])
  }

  function PrintSteps(steps: seq<Step>): seq<string> {
    if steps == [] then [] else PrintStep(steps[0]) + PrintSteps(steps[1..])
  }

  function PrintJob(job: Job): (lines: seq<string>)
    ensures lines != []
  {
    ["  " + (job.name + ":")] + PrintSteps(job.steps)
  }

  function PrintJobs(jobs: seq<Job>): seq<string> {
    if jobs == [] then [] else PrintJob(jobs[0]) + PrintJobs(jobs[1..])
  }

  const JOBS_LINE := "jobs:"

  function WorkflowLines(preamble: seq<string>, jobs: seq<Job>): seq<string> {
    preamble + [JOBS_LINE] + PrintJobs(jobs)
  }

  function PrintWorkflow(preamble: seq<string>, jobs: seq<Job>): string {
    Join(WorkflowLines(preamble, jobs), '\n')
  }

  // ----- which workflows are meant

  /** Text that begins and ends with a visible character and has no line break. */
  predicate Solid(s: string) {
    s != "" && !IsSpace(s[0]) && !IsSpace(s[|s| - 1]) && '\n' !in s
  }

  predicate BlankText(s: string) {
    AllSpace(s) && '\n' !in s
  }

  predicate ValidBodyLine(b: BodyLine) {
    b.Line? ==> b.extra > 0 && b.text != "" && !IsSpace(b.text[0]) && '\n' !in b.text
  }

  /** A line that is no header and none of the keys. */
  predicate PlainLine(line: string) {
    && StripLeft(line) != "" && '\n' !in line && HeaderName(line) == None
    && After(line, "run:") == None && After(line, "uses:") == None && After(line, "needs:") == None
  }

  predicate ValidStep(step: Step) {
    match step
    case Run(indent, gap, command, trail) =>
      indent > 2 && BlankText(gap) && BlankText(trail) && Solid(command) && |command| >= 2 && command[0] != '|'
        && command[0] != '>'
    case Block(indent, marker, body) =>
      indent > 2 && '\n' !in marker && IsBlockMarker(Strip(marker))
      && forall i :: 0 <= i < |body| ==> ValidBodyLine(body[i])
    case Uses(indent, gap, action, trail) => indent > 2 && BlankText(gap) && BlankText(trail) && Solid(action)
    case Needs(indent, text) => indent > 2 && '\n' !in text
    case Other(line) => PlainLine(line)
    case Gap => true
  }

  /** A block ends where the next step begins: its first line is not empty and not indented deeper than the key. */
  predicate EndsBlock(step: Step, next: Step) {
    step.Block? ==> !InBlock(FirstLine(next), step.indent)
  }

  predicate ValidSteps(steps: seq<Step>) {
    && (forall i :: 0 <= i < |steps| ==> ValidStep(steps[i]))
    && (forall i :: 0 < i < |steps| ==> EndsBlock(steps[i - 1], steps[i]))
  }

  /** A job name that is no trigger event. */
  predicate ValidName(name: string) {
    IsName(name) && name !in TRIGGER_EVENTS
  }

  predicate ValidJob(job: Job) {
    ValidName(job.name) && ValidSteps(job.steps)
  }

  predicate ValidJobs(jobs: seq<Job>) {
    forall i :: 0 <= i < |jobs| ==> ValidJob(jobs[i])
  }

  predicate ValidPreamble(preamble: seq<string>) {
    forall i :: 0 <= i < |preamble| ==> '\n' !in preamble[i] && !IsJobsLine(preamble[i])
  }

  // ----- what a workflow means

  function BodyText(body: seq<BodyLine>): seq<string> {
    if body == [] then [] else [if body[0].Blank? then "" else body[0].text] + BodyText(body[1..])
  }

  function RunOf(step: Step): seq<string> {
    match step
    case Run(_, _, command, _) => [command]
    case Block(_, _, body) => BlockCommand(BodyText(body))
    case _ => []
  }

  function Runs(steps: seq<Step>): seq<string> {
    if steps == [] then [] else RunOf(steps[0]) + Runs(steps[1..])
  }

  function ActionOf(step: Step): seq<string> {
    if step.Uses? then ["uses: " + step.action] else []
  }

  function Actions(steps: seq<Step>): seq<string> {
    if steps == [] then [] else ActionOf(steps[0]) + Actions(steps[1..])
  }

  predicate HasNeedsStep(steps: seq<Step>) {
    exists i | 0 <= i < |steps| :: steps[i].Needs?
  }

  function Meaning(job: Job): JobData {
    JobData(Runs(job.steps) + Actions(job.steps), HasNeedsStep(job.steps), Join(PrintJob(job), '\n'))
  }

  /** The jobs' data under their names; a later job replaces an earlier one of the same name. */
  function ByName(jobs: seq<Job>, data: Job -> JobData): map<string, JobData> {
    if jobs == [] then map[] else ByName(jobs[..|jobs| - 1], data)[jobs[|jobs| - 1].name := data(jobs[|jobs| - 1])]
  }

  function MeaningOf(jobs: seq<Job>): map<string, JobData> {
    ByName(jobs, Meaning)
  }

  /** Job `k` is the last of its name. */
  predicate Shown(jobs: seq<Job>, k: nat)
    requires k < |jobs|
  {
    forall j | k < j < |jobs| :: jobs[j].name != jobs[k].name
  }

  // ----- which jobs the parser reads as they are meant

  predicate AllGaps(steps: seq<Step>) {
    forall i | 0 <= i < |steps| :: steps[i].Gap?
  }

  predicate AllBlank(body: seq<BodyLine>) {
    forall i | 0 <= i < |body| :: body[i].Blank?
  }

  predicate Says(b: BodyLine, key: string) {
    b.Line? && key <= b.text
  }

  /** Some script line of the job begins with `needs:`. */
  predicate ScriptSaysNeeds(steps: seq<Step>) {
    exists i | 0 <= i < |steps| ::
      steps[i].Block? && exists k | 0 <= k < |steps[i].body| :: Says(steps[i].body[k], "needs:")
  }

  /** The flag is right: a dependency is there, or nothing looks like one. */
  predicate ReadsNeeds(job: Job) {
    HasNeedsStep(job.steps) || (job.name != "needs" && !ScriptSaysNeeds(job.steps))
  }

  /** A script line that begins with `uses:` is the bare key, and nothing but empty lines follow it in the job. */
  predicate QuietBody(body: seq<BodyLine>, last: bool) {
    body != [] ==>
      && (Says(body[0], "uses:") ==> body[0].text == "uses:" && last && AllBlank(body[1..]))
      && QuietBody(body[1..], last)
  }

  predicate QuietSteps(steps: seq<Step>) {
    steps != [] ==>
      && (steps[0].Block? ==> QuietBody(steps[0].body, AllGaps(steps[1..])))
      && QuietSteps(steps[1..])
  }

  /** The actions are right: no script line is taken for one, and a job named `uses` has no lines. */
  predicate ReadsUses(job: Job) {
    QuietSteps(job.steps) && (job.name == "uses" ==> AllGaps(job.steps))
  }

  /** A line that is not indented deeper than a job's header. */
  predicate IsShallow(step: Step) {
    step.Other? && Indent(step.line) <= 2
  }

  /** The commands are right: the header of a job named `run` opens no block. */
  predicate ReadsRuns(job: Job) {
    job.name == "run" ==> job.steps == [] || IsShallow(job.steps[0])
  }

  /** The parser reads the job as it is meant. */
  predicate ReadsCleanly(job: Job) {
    ReadsRuns(job) && ReadsUses(job) && ReadsNeeds(job)
  }

  // ----- the patterns on printed lines

  lemma {:induction false} StripRightPadded(s: string, pad: string)
    requires AllSpace(pad) && (s == "" || !IsSpace(s[|s| - 1]))
    ensures StripRight(s + pad) == s
  {
    if pad == "" {
      assert s + pad == s;
    } else {
      assert (s + pad)[..|s + pad| - 1] == s + pad[..|pad| - 1];
      StripRightPadded(s, pad[..|pad| - 1]);
    }
  }

  /** A key at some indentation, with anything after it. */
  lemma KeyLine(indent: nat, key: string, tail: string)
    requires key != "" && !IsSpace(key[0])
    ensures var line := Spaces(indent) + (key + tail);
            StripLeft(line) == key + tail && Indent(line) == indent && After(line, key) == Some(tail)
  {
    StripLeftPadded(Spaces(indent), key + tail);
  }

  lemma OtherKey(indent: nat, key: string, tail: string, other: string)
    requires key != "" && !IsSpace(key[0]) && other != "" && key[0] != other[0]
    ensures After(Spaces(indent) + (key + tail), other) == None
  {
    KeyLine(indent, key, tail);
  }

  lemma DeepLineIsNoHeader(indent: nat, s: string)
    requires indent > 2
    ensures HeaderName(Spaces(indent) + s) == None
  {
    var line := Spaces(indent) + s;
    var rest := line[2..];
    StripRightWindow(rest);
    assert rest[0] == ' ';
  }

  lemma HeaderLine(name: string)
    requires IsName(name)
    ensures HeaderName("  " + (name + ":")) == Some(name)
  {
    var line := "  " + (name + ":");
    assert line[2..] == name + ":";
    StripUnchanged(name + ":");
    assert (name + ":")[..|name|] == name;
  }
}
