/** The line scanner that extracts jobs and their commands from a CI workflow. */
module WorkflowParser {
  import opened Wrappers
  import opened Text

  datatype JobData = JobData(commands: seq<string>, hasNeeds: bool, rawContent: string)

  const TRIGGER_EVENTS: set<string> := {
    "pull_request", "push", "schedule", "workflow_dispatch", "workflow_call", "repository_dispatch", "release",
    "issues", "pull_request_target", "fork", "page_build", "public"}

  /** `([|>][-+]?)?` */
  predicate IsBlockMarker(s: string) {
    s == "" || ((s[0] == '|' || s[0] == '>') && (|s| == 1 || (|s| == 2 && (s[1] == '-' || s[1] == '+'))))
  }

  // ----- the line patterns

  /** `\w`, for ASCII. */
  predicate IsWord(c: char) {
    'a' <= c <= 'z' || 'A' <= c <= 'Z' || '0' <= c <= '9' || c == '_'
  }

  predicate IsName(s: string) {
    s != "" && IsWord(s[0]) && forall i :: 0 <= i < |s| ==> IsWord(s[i]) || s[i] == '-'
  }

  /** `^\s*jobs:\s*$` */
  predicate IsJobsLine(line: string) {
    Strip(line) == "jobs:"
  }

  /** `^\s{2}(\w[\w-]*):\s*$` */
  function HeaderName(line: string): Option<string> {
    if |line| < 2 || !IsSpace(line[0]) || !IsSpace(line[1]) then None else
    var rest := StripRight(line[2..]);
    if rest != "" && rest[|rest| - 1] == ':' && IsName(rest[..|rest| - 1]) then Some(rest[..|rest| - 1]) else None
  }

  function Indent(line: string): int {
    |line| - |StripLeft(line)|
  }

  /** What follows a key at the start of a line, after any white space. */
  function After(line: string, key: string): Option<string> {
    var s := StripLeft(line);
    if key <= s then Some(s[|key|..]) else None
  }

  /** `^\s*run:\s*(?![|>])(\S.+?)\s*$`, stripped: a command of at least two characters on the line itself. */
  function SingleRun(line: string): Option<string> {
    match After(line, "run:")
    case None => None
    case Some(tail) =>
      var rest := StripLeft(tail);
      if |rest| >= 2 && rest[0] != '|' && rest[0] != '>' then Some(Strip(rest)) else None
  }

  /** `^(\s*)run:\s*([|>][-+]?)?\s*$` */
  predicate IsBlockRun(line: string) {
    match After(line, "run:")
    case None => false
    case Some(tail) => IsBlockMarker(Strip(tail))
  }

  // ----- the commands of a job

  predicate InBlock(line: string, indent: int) {
    line == "" || Indent(line) > indent
  }

  /** How many lines, from the first, belong to a block indented deeper than `indent`. */
  function BlockLength(lines: seq<string>, indent: int): (n: nat)
    ensures n <= |lines|
  {
    if lines == [] || !InBlock(lines[0], indent) then 0 else 1 + BlockLength(lines[1..], indent)
  }

  /** The block's lines without their indentation; lines of nothing but white space are dropped, empty ones kept. */
  function BlockText(lines: seq<string>): seq<string> {
    if lines == [] then [] else
    (if lines[0] == "" then [""] else if StripLeft(lines[0]) != "" then [StripLeft(lines[0])] else [])
      + BlockText(lines[1..])
  }

  function BlockCommand(text: seq<string>): seq<string> {
    if text == [] then [] else [Join(text, '\n')]
  }

  /** The line after the command at line `i`, and the commands found there: one, or none. */
  function NextAt(lines: seq<string>, i: nat): (next: nat)
    requires i < |lines|
    ensures i < next <= |lines|
  {
    if SingleRun(lines[i]).Some? || !IsBlockRun(lines[i]) then i + 1
    else i + 1 + BlockLength(lines[i + 1..], Indent(lines[i]))
  }

  function FoundAt(lines: seq<string>, i: nat): seq<string>
    requires i < |lines|
  {
    if SingleRun(lines[i]).Some? then [SingleRun(lines[i]).value]
    else if IsBlockRun(lines[i]) then BlockCommand(BlockText(lines[i + 1..NextAt(lines, i)]))
    else []
  }

  /** The `run:` commands of the lines, in order. */
  function RunsOf(lines: seq<string>): seq<string>
    decreases |lines|
  {
    if lines == [] then [] else FoundAt(lines, 0) + RunsOf(lines[NextAt(lines, 0)..])
  }

  function BlankLines(lines: seq<string>): (n: nat)
    ensures n <= |lines|
  {
    if lines == [] || StripLeft(lines[0]) != "" then 0 else 1 + BlankLines(lines[1..])
  }

  /** The `uses:` actions: all matches of `^\s*uses:\s*(.+)$`, whose `\s*` may run over line breaks. */
  function UsesOf(lines: seq<string>): seq<string>
    decreases |lines|
  {
    if lines == [] then [] else
    match After(lines[0], "uses:")
    case None => UsesOf(lines[1..])
    case Some(tail) =>
      if StripLeft(tail) != "" then ["uses: " + Strip(tail)] + UsesOf(lines[1..])
      else
        var n := BlankLines(lines[1..]);
        if 1 + n < |lines| then ["uses: " + Strip(lines[1 + n])] + UsesOf(lines[2 + n..])
        else if tail != "" || exists i | 0 < i < |lines| :: lines[i] != "" then ["uses: "]
        else []
  }

  predicate HasNeeds(lines: seq<string>) {
    exists i | 0 <= i < |lines| :: After(lines[i], "needs:").Some?
  }

  function JobOf(lines: seq<string>): JobData {
    JobData(RunsOf(lines) + UsesOf(lines), HasNeeds(lines), Join(lines, '\n'))
  }

  // ----- the lines of a workflow

  datatype Scan = Scan(jobs: map<string, JobData>, current: Option<string>, content: seq<string>, inJobs: bool)

  const START := Scan(map[], None, [], false)

  function Save(s: Scan): map<string, JobData> {
    match s.current
    case None => s.jobs
    case Some(name) => s.jobs[name := JobOf(s.content)]
  }

  function ScanLine(s: Scan, line: string): Scan {
    var inJobs := s.inJobs || IsJobsLine(line);
    match HeaderName(line)
    case Some(name) =>
      if !inJobs || name in TRIGGER_EVENTS then s.(inJobs := inJobs)
      else Scan(Save(s), Some(name), [line], inJobs)
    case None =>
      if s.current.Some? then s.(inJobs := inJobs, content := s.content + [line]) else s.(inJobs := inJobs)
  }

  function ScanLines(s: Scan, lines: seq<string>): Scan
    decreases |lines|
  {
    if lines == [] then s else ScanLines(ScanLine(s, lines[0]), lines[1..])
  }

  function JobsOfLines(lines: seq<string>): map<string, JobData> {
    Save(ScanLines(START, lines))
  }

  /** What `extract_jobs_from_workflow` returns. */
  function JobsOf(content: string): map<string, JobData> {
    JobsOfLines(Split(content, '\n'))
  }

  // ----- the code

  /** The inner loop: from line `i`, collect the lines of a block indented deeper than `indent`. */
  method ReadBlock(lines: seq<string>, start: nat, indent: int) returns (block: seq<string>, i: nat)
    requires start <= |lines|
    ensures i == start + BlockLength(lines[start..], indent)
    ensures i <= |lines| && block == BlockText(lines[start..i])
  {
    block := [];
    i := start;
    ghost var n := BlockLength(lines[start..], indent);
    while i < |lines|
      invariant start <= i <= |lines| && start + n == i + BlockLength(lines[i..], indent)
      invariant block == BlockText(lines[start..i])
    {
      var line := lines[i];
      assert lines[i..][1..] == lines[i + 1..];
      BlockTextAppend(lines[start..i], line);
      assert lines[start..i] + [line] == lines[start..i + 1];
      if line == "" {
        block := block + [""];
        i := i + 1;
        continue;
      }
      var stripped := StripLeft(line);
      if |line| - |stripped| <= indent {
        break;
      }
      if stripped != "" {
        block := block + [stripped];
      }
      i := i + 1;
    }
  }

  lemma {:induction false} BlockTextAppend(lines: seq<string>, line: string)
    ensures BlockText(lines + [line]) == BlockText(lines)
            + (if line == "" then [""] else if StripLeft(line) != "" then [StripLeft(line)] else [])
  {
    if lines != [] {
      BlockTextAppend(lines[1..], line);
      assert (lines + [line])[1..] == lines[1..] + [line];
    }
  }

  lemma RunsAt(lines: seq<string>, i: nat)
    requires i < |lines|
    ensures RunsOf(lines[i..]) == FoundAt(lines, i) + RunsOf(lines[NextAt(lines, i)..])
  {
    var n := NextAt(lines, i) - i - 1;
    Slices(lines, i, n);
    assert NextAt(lines[i..], 0) == 1 + n && FoundAt(lines[i..], 0) == FoundAt(lines, i);
  }

  lemma Slices<T>(s: seq<T>, i: nat, n: nat)
    requires i + 1 + n <= |s|
    ensures s[i..][0] == s[i] && s[i..][1..] == s[i + 1..]
    ensures s[i..][1..1 + n] == s[i + 1..i + 1 + n] && s[i..][1 + n..] == s[i + 1 + n..]
  {
  }

  /** The outer loop, from the first line to the last. */
  method ReadRuns(lines: seq<string>) returns (commands: seq<string>)
    ensures commands == RunsOf(lines)
  {
    commands := [];
    var i := 0;
    while i < |lines|
      invariant i <= |lines| && commands + RunsOf(lines[i..]) == RunsOf(lines)
    {
      ghost var before := commands;
      var found, next := ReadRound(lines, i);
      commands := commands + found;
      i := next;
      assert before + (found + RunsOf(lines[i..])) == commands + RunsOf(lines[i..]);
    }
  }

  /** One round of the outer loop takes its share of the commands off the front. */
  method ReadRound(lines: seq<string>, i: nat) returns (found: seq<string>, next: nat)
    requires i < |lines|
    ensures i < next <= |lines| && RunsOf(lines[i..]) == found + RunsOf(lines[next..])
  {
    found, next := ReadRunAt(lines, i);
    RunsAt(lines, i);
  }

  /** What a round finds: a command on the line itself, a block, or nothing. */
  method ReadRunAt(lines: seq<string>, i: nat) returns (found: seq<string>, next: nat)
    requires i < |lines|
    ensures found == FoundAt(lines, i) && next == NextAt(lines, i)
  {
    found, next := [], i + 1;
    var single := SingleRun(lines[i]);
    if single.Some? {
      found := [single.value];
    } else if IsBlockRun(lines[i]) {
      var block;
      block, next := ReadBlock(lines, i + 1, Indent(lines[i]));
      if block != [] {
        found := [Join(block, '\n')];
      }
    }
  }

  method ParseJobContent(content: string) returns (job: JobData)
    ensures job == JobOf(Split(content, '\n'))
  {
    var lines := Split(content, '\n');
    var runs := ReadRuns(lines);
    JoinSplit(content, '\n');
    job := JobData(runs + UsesOf(lines), HasNeeds(lines), content);
  }

  method ExtractJobsFromWorkflow(content: string) returns (jobs: map<string, JobData>)
    ensures jobs == JobsOf(content)
  {
    jobs := map[];
    var lines := Split(content, '\n');
    SplitParts(content, '\n');
    var currentJob: Option<string> := None;
    var currentContent: seq<string> := [];
    var inJobsSection := false;
    var i := 0;
    while i < |lines|
      invariant i <= |lines|
      invariant ScanLines(Scan(jobs, currentJob, currentContent, inJobsSection), lines[i..]) == ScanLines(START, lines)
      invariant NoBreaks(currentContent) && (currentJob.Some? ==> currentContent != [])
    {
      var line := lines[i];
      assert lines[i..][1..] == lines[i + 1..];
      i := i + 1;
      if IsJobsLine(line) {
        inJobsSection := true;
      }
      var header := HeaderName(line);
      if header.Some? {
        if !inJobsSection || header.value in TRIGGER_EVENTS {
          continue;
        }
        if currentJob.Some? {
          var job := ParseContent(currentContent);
          jobs := jobs[currentJob.value := job];
        }
        currentJob := Some(header.value);
        currentContent := [line];
      } else if currentJob.Some? {
        currentContent := currentContent + [line];
      }
    }
    if currentJob.Some? {
      var job := ParseContent(currentContent);
      jobs := jobs[currentJob.value := job];
    }
  }

  predicate NoBreaks(lines: seq<string>) {
    forall i :: 0 <= i < |lines| ==> '\n' !in lines[i]
  }

  /** Joining a job's lines and parsing the joined text is parsing the lines. */
  method ParseContent(lines: seq<string>) returns (job: JobData)
    requires lines != [] && NoBreaks(lines)
    ensures job == JobOf(lines)
  {
    SplitJoin(lines, '\n');
    job := ParseJobContent(Join(lines, '\n'));
  }
}
