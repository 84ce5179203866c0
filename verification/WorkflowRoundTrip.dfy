/** When the parser undoes the printer, job by job and for a whole workflow. */
module WorkflowRoundTrip {
  import opened Text
  import opened Wrappers
  import opened WorkflowParser
  import opened WorkflowPrinter
  import opened PrintedLines
  import opened WorkflowRuns
  import opened WorkflowUses

  // ----- a job

  /** Parsing a printed job gives what the job means exactly when the header opens no block, no script line is taken
      for an action, and nothing looks like a dependency that is not there. */
  lemma JobRoundTrip(job: Job)
    requires ValidJob(job)
    ensures JobOf(PrintJob(job)) == Meaning(job) <==> ReadsCleanly(job)
  {
    JobNeeds(job);
    JobRuns(job);
    JobUses(job);
    CommandsApart(RunsOf(PrintJob(job)), UsesOf(PrintJob(job)), Runs(job.steps), Actions(job.steps));
  }

  /** Two pairs of lists, each as large as its partner or equal to it, have equal concatenations only if equal. */
  lemma CommandsApart(a: seq<string>, b: seq<string>, c: seq<string>, d: seq<string>)
    requires (a == c || Size(a) > Size(c)) && (b == d || Size(b) > Size(d))
    ensures a + b == c + d <==> a == c && b == d
  {
    SizeAppend(a, b);
    SizeAppend(c, d);
  }

  // ----- a workflow

  lemma {:induction false} ScanLinesAppend(s: Scan, a: seq<string>, b: seq<string>)
    ensures ScanLines(s, a + b) == ScanLines(ScanLines(s, a), b)
    decreases |a|
  {
    if a == [] {
      assert a + b == b;
    } else {
      ScanLinesAppend(ScanLine(s, a[0]), a[1..], b);
      assert (a + b)[1..] == a[1..] + b;
    }
  }

  /** Before `jobs:`, nothing is collected. */
  lemma {:induction false} PreambleIsIgnored(lines: seq<string>)
    requires ValidPreamble(lines)
    ensures ScanLines(START, lines) == START
  {
    if lines != [] {
      PreambleIsIgnored(lines[1..]);
    }
  }

  /** Lines that are no headers are appended to the current job. */
  lemma {:induction false} BodyIsCollected(s: Scan, lines: seq<string>)
    requires s.current.Some? && s.inJobs && Headerless(lines)
    ensures ScanLines(s, lines) == s.(content := s.content + lines)
    decreases |lines|
  {
    if lines == [] {
      assert s.content + lines == s.content;
    } else {
      var t := ScanLine(s, lines[0]);
      BodyIsCollected(t, lines[1..]);
      assert t.content + lines[1..] == s.content + lines;
    }
  }

  lemma JobIsCollected(s: Scan, job: Job)
    requires s.inJobs && ValidJob(job)
    ensures ScanLines(s, PrintJob(job)) == Scan(Save(s), Some(job.name), PrintJob(job), true)
  {
    JobLines(job);
    var lines := PrintJob(job);
    var t := ScanLine(s, lines[0]);
    assert t == Scan(Save(s), Some(job.name), [lines[0]], true);
    BodyIsCollected(t, lines[1..]);
    assert [lines[0]] + lines[1..] == lines;
  }

  /** What the parser makes of a job's own lines. */
  function Reading(job: Job): JobData {
    JobOf(PrintJob(job))
  }

  lemma JobIsSaved(s: Scan, job: Job)
    requires s.inJobs && ValidJob(job)
    ensures ScanLines(s, PrintJob(job)).inJobs
    ensures Save(ScanLines(s, PrintJob(job))) == Save(s)[job.name := Reading(job)]
  {
    JobIsCollected(s, job);
  }

  /** Saving after each job's lines: what was saved before, with the jobs' readings added in order. */
  lemma {:induction false} JobsAreCollected(s: Scan, jobs: seq<Job>)
    requires s.inJobs && ValidJobs(jobs)
    ensures Save(ScanLines(s, PrintJobs(jobs))) == Save(s) + ByName(jobs, Reading)
    decreases |jobs|
  {
    if jobs == [] {
      assert Save(s) + map[] == Save(s);
    } else {
      JobIsSaved(s, jobs[0]);
      ScanLinesAppend(s, PrintJob(jobs[0]), PrintJobs(jobs[1..]));
      JobsAreCollected(ScanLines(s, PrintJob(jobs[0])), jobs[1..]);
      FirstByName(jobs, Reading);
      UpdateThenAdd(Save(s), jobs[0].name, Reading(jobs[0]), ByName(jobs[1..], Reading));
    }
  }

  lemma UpdateThenAdd<K, V>(m: map<K, V>, k: K, v: V, rest: map<K, V>)
    ensures m[k := v] + rest == m + (map[k := v] + rest)
  {
  }

  lemma {:induction false} FirstByName(jobs: seq<Job>, data: Job -> JobData)
    requires jobs != []
    ensures ByName(jobs, data) == map[jobs[0].name := data(jobs[0])] + ByName(jobs[1..], data)
  {
    var last := |jobs| - 1;
    if last > 0 {
      FirstByName(jobs[..last], data);
      assert jobs[..last][1..] == jobs[1..][..last - 1];
    } else {
      assert jobs[..0] == [] && jobs[1..] == [];
    }
  }

  lemma {:induction false} JobsHaveNoBreaks(jobs: seq<Job>)
    requires ValidJobs(jobs)
    ensures NoBreaks(PrintJobs(jobs))
  {
    if jobs != [] {
      JobLines(jobs[0]);
      JobsHaveNoBreaks(jobs[1..]);
    }
  }

  /** Extracting the jobs of a printed workflow gives each name the reading of its last job. */
  lemma ParsedText(preamble: seq<string>, jobs: seq<Job>)
    requires ValidPreamble(preamble) && ValidJobs(jobs)
    ensures JobsOf(PrintWorkflow(preamble, jobs)) == ByName(jobs, Reading)
  {
    PrintedNoBreaks(preamble, jobs);
    ScanOfPrinted(preamble, jobs);
    JobsOfJoined(WorkflowLines(preamble, jobs), ByName(jobs, Reading));
  }

  /** The parser undoes the printer exactly when it reads every job that is the last of its name as it is meant: then,
      and only then, each name gets the commands, the `needs` flag and the lines of the job of that name. */
  lemma ParseUndoesPrint(preamble: seq<string>, jobs: seq<Job>)
    requires ValidPreamble(preamble) && ValidJobs(jobs)
    ensures JobsOf(PrintWorkflow(preamble, jobs)) == MeaningOf(jobs) <==>
            forall k :: 0 <= k < |jobs| && Shown(jobs, k) ==> ReadsCleanly(jobs[k])
  {
    ParsedText(preamble, jobs);
    SameByName(jobs, Reading, Meaning);
    forall k | 0 <= k < |jobs| ensures Reading(jobs[k]) == Meaning(jobs[k]) <==> ReadsCleanly(jobs[k]) {
      JobRoundTrip(jobs[k]);
    }
  }

  /** Two tables are equal exactly when they agree on the jobs shown. */
  lemma SameByName(jobs: seq<Job>, data: Job -> JobData, other: Job -> JobData)
    ensures ByName(jobs, data) == ByName(jobs, other) <==>
            forall k :: 0 <= k < |jobs| && Shown(jobs, k) ==> data(jobs[k]) == other(jobs[k])
  {
    if ByName(jobs, data) == ByName(jobs, other) {
      forall k | 0 <= k < |jobs| && Shown(jobs, k) ensures data(jobs[k]) == other(jobs[k]) {
        ShownIsPresent(jobs, data, k);
        ShownIsPresent(jobs, other, k);
      }
    }
    if forall k :: 0 <= k < |jobs| && Shown(jobs, k) ==> data(jobs[k]) == other(jobs[k]) {
      forall name ensures name in ByName(jobs, data) <==> name in ByName(jobs, other) {
        PresentIsShown(jobs, data, name);
        PresentIsShown(jobs, other, name);
        BothPresent(jobs, data, other, name);
      }
      forall name | name in ByName(jobs, data) ensures ByName(jobs, data)[name] == ByName(jobs, other)[name] {
        PresentIsShown(jobs, data, name);
        var k :| 0 <= k < |jobs| && Shown(jobs, k) && jobs[k].name == name && ByName(jobs, data)[name] == data(jobs[k]);
        ShownIsPresent(jobs, other, k);
      }
    }
  }

  lemma {:induction false} BothPresent(jobs: seq<Job>, data: Job -> JobData, other: Job -> JobData, name: string)
    ensures name in ByName(jobs, data) <==> name in ByName(jobs, other)
  {
    if jobs != [] {
      BothPresent(jobs[..|jobs| - 1], data, other, name);
    }
  }

  /** A job that is the last of its name is in the table, with its own data. */
  lemma {:induction false} ShownIsPresent(jobs: seq<Job>, data: Job -> JobData, k: nat)
    requires k < |jobs| && Shown(jobs, k)
    ensures jobs[k].name in ByName(jobs, data) && ByName(jobs, data)[jobs[k].name] == data(jobs[k])
  {
    var last := |jobs| - 1;
    if k < last {
      assert jobs[last].name != jobs[k].name;
      ShownIsPresent(jobs[..last], data, k);
    }
  }

  /** And whatever is in the table is the data of such a job. */
  lemma {:induction false} PresentIsShown(jobs: seq<Job>, data: Job -> JobData, name: string)
    ensures name in ByName(jobs, data) ==>
      exists k :: 0 <= k < |jobs| && Shown(jobs, k) && jobs[k].name == name && ByName(jobs, data)[name] == data(jobs[k])
  {
    if jobs != [] && name in ByName(jobs, data) {
      var last: nat := |jobs| - 1;
      if jobs[last].name == name {
        assert Shown(jobs, last);
      } else {
        var front := jobs[..last];
        PresentIsShown(front, data, name);
        var k :| 0 <= k < |front| && Shown(front, k) && front[k].name == name
          && ByName(front, data)[name] == data(front[k]);
        assert Shown(jobs, k) by {
          forall j | k < j < |jobs| ensures jobs[j].name != jobs[k].name {
            assert j < last ==> jobs[j] == front[j];
          }
        }
      }
    }
  }

  lemma JobsOfJoined(lines: seq<string>, found: map<string, JobData>)
    requires lines != [] && NoBreaks(lines) && JobsOfLines(lines) == found
    ensures JobsOf(Join(lines, '\n')) == found
  {
    SplitJoin(lines, '\n');
  }

  lemma PrintedNoBreaks(preamble: seq<string>, jobs: seq<Job>)
    requires ValidPreamble(preamble) && ValidJobs(jobs)
    ensures NoBreaks(WorkflowLines(preamble, jobs)) && WorkflowLines(preamble, jobs) != []
  {
    JobsHaveNoBreaks(jobs);
    var lines := WorkflowLines(preamble, jobs);
    forall i | 0 <= i < |lines| ensures '\n' !in lines[i] {
      assert lines[i] ==
        if i < |preamble| then preamble[i] else if i == |preamble| then JOBS_LINE
        else PrintJobs(jobs)[i - |preamble| - 1];
    }
  }

  lemma ScanOfPrinted(preamble: seq<string>, jobs: seq<Job>)
    requires ValidPreamble(preamble) && ValidJobs(jobs)
    ensures JobsOfLines(WorkflowLines(preamble, jobs)) == ByName(jobs, Reading)
  {
    HeadOpensJobs(preamble);
    JobsAfterHead(preamble + [JOBS_LINE], jobs);
  }

  lemma JobsAfterHead(head: seq<string>, jobs: seq<Job>)
    requires ScanLines(START, head) == START.(inJobs := true) && ValidJobs(jobs)
    ensures JobsOfLines(head + PrintJobs(jobs)) == ByName(jobs, Reading)
  {
    var open := START.(inJobs := true);
    ScanLinesAppend(START, head, PrintJobs(jobs));
    JobsAreCollected(open, jobs);
    NothingSaved(ByName(jobs, Reading));
  }

  lemma NothingSaved(m: map<string, JobData>)
    ensures Save(START.(inJobs := true)) + m == m
  {
  }

  lemma HeadOpensJobs(preamble: seq<string>)
    requires ValidPreamble(preamble)
    ensures ScanLines(START, preamble + [JOBS_LINE]) == START.(inJobs := true)
  {
    PreambleIsIgnored(preamble);
    StripUnchanged(JOBS_LINE);
    ScanLinesAppend(START, preamble, [JOBS_LINE]);
    assert [JOBS_LINE][1..] == [];
  }

  /** With distinct names, no job hides another. */
  lemma DistinctNamesAllPresent(jobs: seq<Job>, i: nat)
    requires i < |jobs| && forall j, k :: 0 <= j < k < |jobs| ==> jobs[j].name != jobs[k].name
    ensures jobs[i].name in MeaningOf(jobs) && MeaningOf(jobs)[jobs[i].name] == Meaning(jobs[i])
  {
    ShownIsPresent(jobs, Meaning, i);
  }

  // ----- inputs that are misread

  /** A job that only runs one script line. */
  function OneLineJob(name: string, text: string): Job {
    Job(name, [Block(8, " |", [Line(2, text)])])
  }

  lemma OneLineIsValid(name: string, text: string)
    requires ValidName(name) && text != "" && !IsSpace(text[0]) && '\n' !in text
    ensures ValidJob(OneLineJob(name, text))
  {
    StripUnchanged("|");
    assert Strip(" |") == "|" by {
      assert " |"[1..] == "|";
    }
  }

  /** A script line that begins with `needs:` sets the flag of a job without dependencies. */
  lemma ScriptLineSetsNeeds(name: string, text: string)
    requires ValidName(name) && "needs:" <= text && '\n' !in text
    ensures JobOf(PrintJob(OneLineJob(name, text))).hasNeeds && !Meaning(OneLineJob(name, text)).hasNeeds
  {
    var job := OneLineJob(name, text);
    assert text[0] == 'n';
    OneLineIsValid(name, text);
    JobNeeds(job);
    assert job.steps[0].Block? && Says(job.steps[0].body[0], "needs:");
  }

  /** A script line that begins with `uses:` and says more is read as an action. */
  lemma ScriptLineAddsAction(name: string, text: string)
    requires ValidName(name) && "uses:" < text && '\n' !in text
    ensures JobOf(PrintJob(OneLineJob(name, text))) != Meaning(OneLineJob(name, text))
  {
    assert text[0] == 'u';
    OneLineIsValid(name, text);
    JobRoundTrip(OneLineJob(name, text));
    assert !QuietBody([Line(2, text)], true);
  }

  /** A job of a reserved name: `needs` is read as it is meant exactly when it has a dependency, `uses` when it has no
      lines, `run` when its header is followed by nothing or by a shallow line. */
  lemma ReservedNames(job: Job)
    requires ValidSteps(job.steps) && QuietSteps(job.steps) && !ScriptSaysNeeds(job.steps)
    ensures job.name == "needs" ==> (JobOf(PrintJob(job)) == Meaning(job) <==> HasNeedsStep(job.steps))
    ensures job.name == "uses" ==> (JobOf(PrintJob(job)) == Meaning(job) <==> AllGaps(job.steps))
    ensures job.name == "run" ==>
      (JobOf(PrintJob(job)) == Meaning(job) <==> job.steps == [] || IsShallow(job.steps[0]))
  {
    if job.name == "needs" || job.name == "uses" || job.name == "run" {
      JobRoundTrip(job);
    }
  }
}
