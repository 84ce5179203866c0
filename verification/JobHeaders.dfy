/** Which jobs the line scanner finds in any workflow text. */
module JobHeaders {
  import opened Wrappers
  import opened Text
  import opened WorkflowParser

  /** The line is two white-space characters, the name, a colon, and white space. */
  ghost predicate IsHeader(line: string, name: string) {
    && IsName(name) && |line| >= 2 && IsSpace(line[0]) && IsSpace(line[1])
    && exists blank :: AllSpace(blank) && line[2..] == name + ":" + blank
  }

  lemma HeaderExactly(line: string, name: string)
    ensures HeaderName(line) == Some(name) <==> IsHeader(line, name)
  {
    if HeaderName(line) == Some(name) {
      var rest := StripRight(line[2..]);
      StripRightWindow(line[2..]);
      var blank := line[2..][|rest|..];
      assert rest == name + ":" && line[2..] == rest + blank;
      assert AllSpace(blank);
    }
    if IsHeader(line, name) {
      var blank :| AllSpace(blank) && line[2..] == name + ":" + blank;
      ColonIsLast(name, blank);
    }
  }

  lemma ColonIsLast(name: string, blank: string)
    requires AllSpace(blank)
    ensures StripRight(name + ":" + blank) == name + ":"
    ensures (name + ":")[..|name + ":"| - 1] == name
  {
    StripRightBlank(name + ":", blank);
  }

  lemma {:induction false} StripRightBlank(s: string, blank: string)
    requires s != "" && !IsSpace(s[|s| - 1]) && AllSpace(blank)
    ensures StripRight(s + blank) == s
  {
    if blank == "" {
      assert s + blank == s;
    } else {
      assert (s + blank)[..|s + blank| - 1] == s + blank[..|blank| - 1];
      StripRightBlank(s, blank[..|blank| - 1]);
    }
  }

  /** The names under `on:` that are no jobs. */
  predicate IsTrigger(name: string) {
    || name == "pull_request" || name == "push" || name == "schedule" || name == "workflow_dispatch"
    || name == "workflow_call" || name == "repository_dispatch" || name == "release" || name == "issues"
    || name == "pull_request_target" || name == "fork" || name == "page_build" || name == "public"
  }

  /** Line `i` is a job's header: it is in or after the line that opens the jobs, and names no trigger event. */
  ghost predicate OpensJob(lines: seq<string>, inJobs: bool, i: nat, name: string) {
    && i < |lines| && IsHeader(lines[i], name) && !IsTrigger(name)
    && (inJobs || exists j :: 0 <= j <= i && Strip(lines[j]) == "jobs:")
  }

  lemma {:induction false} JobsFound(s: Scan, inJobs: bool, lines: seq<string>, name: string)
    requires inJobs == s.inJobs
    ensures name in Save(ScanLines(s, lines)) <==>
            name in Save(s) || exists i: nat :: OpensJob(lines, inJobs, i, name)
    decreases |lines|
  {
    if lines != [] {
      var next, now := ScanLine(s, lines[0]), inJobs || Strip(lines[0]) == "jobs:";
      FirstLine(s, lines[0], name);
      JobsFound(next, now, lines[1..], name);
      if i: nat :| OpensJob(lines, inJobs, i, name) {
        if i > 0 {
          LaterOpens(lines, inJobs, now, i, name);
        }
      }
      if i: nat :| OpensJob(lines[1..], now, i, name) {
        EarlierOpens(lines, inJobs, now, i, name);
      }
      if IsHeader(lines[0], name) && !IsTrigger(name) && now {
        assert OpensJob(lines, inJobs, 0, name);
      }
    }
  }

  lemma FirstLine(s: Scan, line: string, name: string)
    ensures ScanLine(s, line).inJobs <==> s.inJobs || Strip(line) == "jobs:"
    ensures name in Save(ScanLine(s, line)) <==>
            name in Save(s) || (IsHeader(line, name) && !IsTrigger(name) && (s.inJobs || Strip(line) == "jobs:"))
  {
    HeaderExactly(line, name);
    var header := HeaderName(line);
    if header.Some? {
      HeaderExactly(line, header.value);
    }
  }

  lemma LaterOpens(lines: seq<string>, inJobs: bool, now: bool, i: nat, name: string)
    requires lines != [] && (now <==> inJobs || Strip(lines[0]) == "jobs:")
    requires i > 0 && OpensJob(lines, inJobs, i, name)
    ensures OpensJob(lines[1..], now, i - 1, name)
  {
    if !now {
      var j :| 0 <= j <= i && Strip(lines[j]) == "jobs:";
      assert lines[1..][j - 1] == lines[j];
    }
  }

  lemma EarlierOpens(lines: seq<string>, inJobs: bool, now: bool, i: nat, name: string)
    requires lines != [] && (now <==> inJobs || Strip(lines[0]) == "jobs:")
    requires OpensJob(lines[1..], now, i, name)
    ensures OpensJob(lines, inJobs, i + 1, name)
  {
    if !inJobs {
      if Strip(lines[0]) != "jobs:" {
        var j :| 0 <= j <= i && Strip(lines[1..][j]) == "jobs:";
        assert lines[j + 1] == lines[1..][j];
      }
    }
  }

  /** Line `i` is the header of a job. */
  ghost predicate DefinesJob(lines: seq<string>, i: nat, name: string) {
    && i < |lines| && IsHeader(lines[i], name) && !IsTrigger(name)
    && exists j :: 0 <= j <= i && Strip(lines[j]) == "jobs:"
  }

  ghost predicate DefinesSomewhere(lines: seq<string>, name: string) {
    exists i: nat :: DefinesJob(lines, i, name)
  }

  lemma OpensAndDefines(lines: seq<string>, inJobs: bool, name: string)
    requires !inJobs
    ensures (exists i: nat :: OpensJob(lines, inJobs, i, name)) <==> DefinesSomewhere(lines, name)
  {
    if i: nat :| OpensJob(lines, inJobs, i, name) {
      assert DefinesJob(lines, i, name);
    }
    if i: nat :| DefinesJob(lines, i, name) {
      assert OpensJob(lines, inJobs, i, name);
    }
  }

  /** The jobs found in a text are exactly the names of its header lines, from the line that opens the jobs on, that are
      no trigger events. */
  lemma JobsExactly(content: string, name: string)
    ensures name in JobsOf(content) <==> DefinesSomewhere(Split(content, '\n'), name)
  {
    var lines, inJobs := Split(content, '\n'), START.inJobs;
    JobsFound(START, inJobs, lines, name);
    OpensAndDefines(lines, inJobs, name);
    assert name !in Save(START);
  }
}
