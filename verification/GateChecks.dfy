/** The gate check over parsed jobs, and its verdict on printed workflows. */
module GateChecks {
  import opened ShardMatrix
  import opened Text
  import opened WorkflowParser
  import opened PrintedLines
  import opened WorkflowPrinter
  import opened WorkflowRoundTrip

  datatype Gate = Gate(
    id: string,
    fragments: seq<string>,
    ciEquivalent: seq<string>,
    shardRequired: bool,
    shardUnionRequired: bool)

  datatype GateProblem =
    | NoMatchingJob(gate: string)
    | TooFewShards(gate: string)
    | NoShardMatrix(gate: string)
    | NoShardUnion(gate: string)
    | ShardUnionWithoutNeeds(gate: string)
    | FragmentMissing(gate: string, fragment: string)

  /** The errors found, or the exception that an index which is no number raises. */
  datatype Verdict = Errors(problems: seq<GateProblem>) | ValueError

  type Jobs = map<string, JobData>

  // ----- what the check looks for

  predicate InCommands(fragment: string, commands: seq<string>) {
    exists i | 0 <= i < |commands| :: Contains(commands[i], fragment)
  }

  predicate FragmentFound(fragment: string, jobs: Jobs) {
    exists name | name in jobs :: InCommands(fragment, jobs[name].commands)
  }

  predicate IsShardUnion(name: string) {
    Contains(Lower(name), "shard-union") || Contains(Lower(name), "shard_union")
  }

  predicate HasShardUnion(jobs: Jobs) {
    exists name | name in jobs :: IsShardUnion(name)
  }

  predicate ShardUnionDepends(jobs: Jobs) {
    exists name | name in jobs :: IsShardUnion(name) && jobs[name].hasNeeds
  }

  predicate HasMatchingJob(gate: Gate, jobs: Jobs) {
    exists i | 0 <= i < |gate.ciEquivalent| :: gate.ciEquivalent[i] in jobs
  }

  function MissingFragments(gate: Gate, jobs: Jobs, n: nat): seq<GateProblem>
    requires n <= |gate.fragments|
  {
    if n == 0 then [] else
    MissingFragments(gate, jobs, n - 1)
    + (if FragmentFound(gate.fragments[n - 1], jobs) then [] else [FragmentMissing(gate.id, gate.fragments[n - 1])])
  }

  function MatrixIn(job: JobData): Matrix {
    MatrixOf(job.rawContent)
  }

  /** How a job's matrix is read; the check uses `MatrixIn`. */
  type Reader = JobData -> Matrix

  predicate HasMatrix(jobs: Jobs, read: Reader) {
    exists name | name in jobs :: read(jobs[name]).Matrix?
  }

  predicate HasBadIndex(jobs: Jobs, read: Reader) {
    exists name | name in jobs :: read(jobs[name]).BadIndex?
  }

  predicate IsThin(m: Matrix) {
    m.Matrix? && |m.indices| < 2
  }

  /** The jobs whose matrix has fewer than two shards. */
  function ThinJobs(jobs: Jobs, read: Reader): set<string> {
    set name | name in jobs && IsThin(read(jobs[name]))
  }

  /** One problem for each thin matrix, or one when there is no matrix at all. */
  function MatrixProblems(gate: Gate, jobs: Jobs, read: Reader): seq<GateProblem> {
    if !HasMatrix(jobs, read) then [NoShardMatrix(gate.id)] else Repeated(TooFewShards(gate.id), |ThinJobs(jobs, read)|)
  }

  function Repeated(problem: GateProblem, n: nat): (problems: seq<GateProblem>)
    ensures |problems| == n
  {
    if n == 0 then [] else Repeated(problem, n - 1) + [problem]
  }

  function UnionProblems(gate: Gate, allJobs: Jobs): seq<GateProblem> {
    if !HasShardUnion(allJobs) then [NoShardUnion(gate.id)]
    else if !ShardUnionDepends(allJobs) then [ShardUnionWithoutNeeds(gate.id)]
    else []
  }

  function VerdictOf(gate: Gate, jobs: Jobs, allJobs: Jobs): Verdict {
    VerdictWith(gate, jobs, allJobs, MatrixIn)
  }

  function VerdictWith(gate: Gate, jobs: Jobs, allJobs: Jobs, read: Reader): Verdict {
    if !HasMatchingJob(gate, jobs) then Errors([NoMatchingJob(gate.id)])
    else if gate.shardRequired && HasBadIndex(jobs, read) then ValueError
    else Errors(
      (if gate.shardRequired then MatrixProblems(gate, jobs, read) else [])
      + (if gate.shardUnionRequired then UnionProblems(gate, allJobs) else [])
      + MissingFragments(gate, jobs, |gate.fragments|))
  }

  // ----- the code

  method SearchFragment(fragment: string, jobs: Jobs) returns (found: bool)
    ensures found <==> FragmentFound(fragment, jobs)
  {
    found := false;
    var names := jobs.Keys;
    while names != {}
      invariant names <= jobs.Keys
      invariant found <==> exists name :: name in jobs && name !in names && InCommands(fragment, jobs[name].commands)
      decreases names
    {
      var name :| name in names;
      var commands := jobs[name].commands;
      var here := false;
      for i := 0 to |commands|
        invariant !here && forall k :: 0 <= k < i ==> !Contains(commands[k], fragment)
      {
        if Contains(commands[i], fragment) {
          here := true;
          break;
        }
      }
      names := names - {name};
      found := found || here;
    }
  }

  method CheckShardUnion(jobs: Jobs) returns (hasJob: bool, depends: bool)
    ensures hasJob <==> HasShardUnion(jobs)
    ensures depends <==> ShardUnionDepends(jobs)
  {
    hasJob, depends := false, false;
    var names := jobs.Keys;
    while names != {}
      invariant names <= jobs.Keys
      invariant hasJob <==> exists name :: name in jobs && name !in names && IsShardUnion(name)
      invariant depends <==> exists name :: name in jobs && name !in names && IsShardUnion(name) && jobs[name].hasNeeds
      decreases names
    {
      var name :| name in names;
      names := names - {name};
      if IsShardUnion(name) {
        hasJob := true;
        if jobs[name].hasNeeds {
          depends := true;
        }
      }
    }
  }

  /** The loop over the jobs' matrices; `raised` when an index is no number. */
  method CheckMatrices(gate: Gate, jobs: Jobs, read: Reader) returns (raised: bool, errors: seq<GateProblem>)
    ensures raised <==> HasBadIndex(jobs, read)
    ensures !raised ==> errors == MatrixProblems(gate, jobs, read)
  {
    errors := [];
    var shardJobFound := false;
    var names := jobs.Keys;
    ThinAtStart(jobs, read);
    while names != {}
      invariant names <= jobs.Keys
      invariant forall name :: name in jobs && name !in names ==> !read(jobs[name]).BadIndex?
      invariant shardJobFound ==> HasMatrix(jobs, read)
      invariant !shardJobFound ==> forall name :: name in jobs && name !in names ==> !read(jobs[name]).Matrix?
      invariant errors == Repeated(TooFewShards(gate.id), ThinBeyond(jobs, read, names))
      decreases names
    {
      var name :| name in names;
      var matrix := read(jobs[name]);
      ThinStep(jobs, read, names, name);
      names := names - {name};
      if matrix.BadIndex? {
        return true, [];
      }
      if matrix.Matrix? {
        shardJobFound := true;
        if IsThin(matrix) {
          errors := errors + [TooFewShards(gate.id)];
        }
      }
    }
    ThinAtEnd(jobs, read);
    if !shardJobFound {
      NoMatrixNoThin(jobs, read);
      errors := errors + [NoShardMatrix(gate.id)];
    }
    raised := false;
  }

  /** The number of thin jobs outside `names`. */
  function ThinBeyond(jobs: Jobs, read: Reader, names: set<string>): nat {
    |ThinJobs(jobs, read) - names|
  }

  lemma ThinAtStart(jobs: Jobs, read: Reader)
    ensures ThinBeyond(jobs, read, jobs.Keys) == 0
  {
    assert ThinJobs(jobs, read) - jobs.Keys == {};
  }

  lemma ThinAtEnd(jobs: Jobs, read: Reader)
    ensures ThinBeyond(jobs, read, {}) == |ThinJobs(jobs, read)|
  {
    assert ThinJobs(jobs, read) - {} == ThinJobs(jobs, read);
  }

  lemma ThinStep(jobs: Jobs, read: Reader, names: set<string>, name: string)
    requires name in names && names <= jobs.Keys
    ensures ThinBeyond(jobs, read, names - {name})
            == ThinBeyond(jobs, read, names) + (if IsThin(read(jobs[name])) then 1 else 0)
  {
    var before, after := ThinJobs(jobs, read) - names, ThinJobs(jobs, read) - (names - {name});
    assert after == if IsThin(read(jobs[name])) then before + {name} else before;
  }

  lemma NoMatrixNoThin(jobs: Jobs, read: Reader)
    requires !HasMatrix(jobs, read)
    ensures ThinJobs(jobs, read) == {}
  {
  }

  /** The gate passes when the verdict is a list without errors. */
  method VerifyGateMapping(gate: Gate, jobs: Jobs, allJobs: Jobs) returns (verdict: Verdict)
    ensures verdict == VerdictOf(gate, jobs, allJobs)
  {
    verdict := RunChecks(gate, jobs, allJobs, MatrixIn);
  }

  method RunChecks(gate: Gate, jobs: Jobs, allJobs: Jobs, read: Reader) returns (verdict: Verdict)
    ensures verdict == VerdictWith(gate, jobs, allJobs, read)
  {
    var errors: seq<GateProblem> := [];
    var foundJobs := FindJobs(gate, jobs);
    if foundJobs == [] {
      return Errors([NoMatchingJob(gate.id)]);
    }
    if gate.shardRequired {
      var raised, problems := CheckMatrices(gate, jobs, read);
      if raised {
        return ValueError;
      }
      errors := errors + problems;
    }
    if gate.shardUnionRequired {
      var hasJob, depends := CheckShardUnion(allJobs);
      if !hasJob {
        errors := errors + [NoShardUnion(gate.id)];
      } else if !depends {
        errors := errors + [ShardUnionWithoutNeeds(gate.id)];
      }
    }
    var missing := SearchFragments(gate, jobs);
    verdict := Errors(errors + missing);
  }

  method FindJobs(gate: Gate, jobs: Jobs) returns (foundJobs: seq<string>)
    ensures foundJobs != [] <==> HasMatchingJob(gate, jobs)
  {
    foundJobs := [];
    for i := 0 to |gate.ciEquivalent|
      invariant foundJobs != [] <==> exists k :: 0 <= k < i && gate.ciEquivalent[k] in jobs
    {
      if gate.ciEquivalent[i] in jobs {
        foundJobs := foundJobs + [gate.ciEquivalent[i]];
      }
    }
  }

  method SearchFragments(gate: Gate, jobs: Jobs) returns (errors: seq<GateProblem>)
    ensures errors == MissingFragments(gate, jobs, |gate.fragments|)
  {
    errors := [];
    for n := 0 to |gate.fragments|
      invariant errors == MissingFragments(gate, jobs, n)
    {
      var found := SearchFragment(gate.fragments[n], jobs);
      if !found {
        errors := errors + [FragmentMissing(gate.id, gate.fragments[n])];
      }
    }
  }

  // ----- the verdict

  lemma {:induction false} NoFragmentMissing(gate: Gate, jobs: Jobs, n: nat)
    requires n <= |gate.fragments|
    ensures MissingFragments(gate, jobs, n) == [] <==> forall k :: 0 <= k < n ==> FragmentFound(gate.fragments[k], jobs)
  {
    if n > 0 {
      NoFragmentMissing(gate, jobs, n - 1);
    }
  }

  function CommandsOf(job: Job): seq<string> {
    Runs(job.steps) + Actions(job.steps)
  }

  /** A shard matrix is there, and every one can be read and has at least two shards. */
  predicate ShardsSuffice(jobs: seq<Job>, read: Reader) {
    && (exists k | 0 <= k < |jobs| :: Shown(jobs, k) && read(Meaning(jobs[k])).Matrix?)
    && (forall k | 0 <= k < |jobs| :: Shown(jobs, k) ==>
      !read(Meaning(jobs[k])).BadIndex? && !IsThin(read(Meaning(jobs[k]))))
  }

  predicate Offers(jobs: seq<Job>, fragment: string) {
    exists k | 0 <= k < |jobs| :: Shown(jobs, k) && InCommands(fragment, CommandsOf(jobs[k]))
  }

  predicate Matches(gate: Gate, jobs: seq<Job>) {
    exists i, k | 0 <= i < |gate.ciEquivalent| && 0 <= k < |jobs| :: gate.ciEquivalent[i] == jobs[k].name
  }

  predicate HasUnionJob(all: seq<Job>) {
    exists k | 0 <= k < |all| :: Shown(all, k) && IsShardUnion(all[k].name) && HasNeedsStep(all[k].steps)
  }

  /** What the gate asks of the job lists themselves, where a job counts when it is the last of its name: a job of a
      wanted name; every fragment in some job's commands; where asked for, a matrix, and none with fewer than two
      shards; where asked for, a shard-union job with dependencies in some workflow. */
  predicate Satisfies(gate: Gate, jobs: seq<Job>, all: seq<Job>) {
    && Matches(gate, jobs)
    && (forall f | 0 <= f < |gate.fragments| :: Offers(jobs, gate.fragments[f]))
    && (gate.shardRequired ==> ShardsSuffice(jobs, MatrixIn))
    && (gate.shardUnionRequired ==> HasUnionJob(all))
  }

  lemma MatchInList(gate: Gate, jobs: seq<Job>)
    ensures HasMatchingJob(gate, MeaningOf(jobs)) <==> Matches(gate, jobs)
  {
    if i :| 0 <= i < |gate.ciEquivalent| && gate.ciEquivalent[i] in MeaningOf(jobs) {
      PresentIsShown(jobs, Meaning, gate.ciEquivalent[i]);
    }
    if i, k :| 0 <= i < |gate.ciEquivalent| && 0 <= k < |jobs| && gate.ciEquivalent[i] == jobs[k].name {
      NameIsPresent(jobs, Meaning, k);
      assert gate.ciEquivalent[i] in MeaningOf(jobs);
    }
  }

  lemma {:induction false} NameIsPresent(jobs: seq<Job>, data: Job -> JobData, k: nat)
    requires k < |jobs|
    ensures jobs[k].name in ByName(jobs, data)
  {
    if k < |jobs| - 1 {
      NameIsPresent(jobs[..|jobs| - 1], data, k);
    }
  }

  lemma FragmentInList(fragment: string, jobs: seq<Job>)
    ensures FragmentFound(fragment, MeaningOf(jobs)) <==> Offers(jobs, fragment)
  {
    var m := MeaningOf(jobs);
    if name :| name in m && InCommands(fragment, m[name].commands) {
      PresentIsShown(jobs, Meaning, name);
    }
    if k :| 0 <= k < |jobs| && Shown(jobs, k) && InCommands(fragment, CommandsOf(jobs[k])) {
      ShownIsPresent(jobs, Meaning, k);
      assert InCommands(fragment, m[jobs[k].name].commands);
    }
  }

  lemma UnionInList(all: seq<Job>)
    ensures ShardUnionDepends(MeaningOf(all)) <==> HasUnionJob(all)
  {
    var m := MeaningOf(all);
    if name :| name in m && IsShardUnion(name) && m[name].hasNeeds {
      PresentIsShown(all, Meaning, name);
    }
    if k :| 0 <= k < |all| && Shown(all, k) && IsShardUnion(all[k].name) && HasNeedsStep(all[k].steps) {
      ShownIsPresent(all, Meaning, k);
    }
  }

  lemma BadIndexInList(jobs: seq<Job>, read: Reader)
    ensures HasBadIndex(MeaningOf(jobs), read) <==>
            exists k :: 0 <= k < |jobs| && Shown(jobs, k) && read(Meaning(jobs[k])).BadIndex?
  {
    var m := MeaningOf(jobs);
    if name :| name in m && read(m[name]).BadIndex? {
      PresentIsShown(jobs, Meaning, name);
    }
    if k :| 0 <= k < |jobs| && Shown(jobs, k) && read(Meaning(jobs[k])).BadIndex? {
      ShownIsPresent(jobs, Meaning, k);
    }
  }

  lemma MatricesInList(gate: Gate, jobs: seq<Job>, read: Reader)
    ensures !HasBadIndex(MeaningOf(jobs), read) && MatrixProblems(gate, MeaningOf(jobs), read) == [] <==>
            ShardsSuffice(jobs, read)
  {
    var m := MeaningOf(jobs);
    BadIndexInList(jobs, read);
    if name :| name in m && read(m[name]).Matrix? {
      PresentIsShown(jobs, Meaning, name);
    }
    if k :| 0 <= k < |jobs| && Shown(jobs, k) && read(Meaning(jobs[k])).Matrix? {
      ShownIsPresent(jobs, Meaning, k);
    }
    if name :| name in ThinJobs(m, read) {
      PresentIsShown(jobs, Meaning, name);
    }
    forall k | 0 <= k < |jobs| && Shown(jobs, k) && IsThin(read(Meaning(jobs[k])))
      ensures jobs[k].name in ThinJobs(m, read)
    {
      ShownIsPresent(jobs, Meaning, k);
    }
  }

  /** On the meanings of job lists the check passes exactly when the lists satisfy the gate. */
  lemma VerdictOfMeaning(gate: Gate, jobs: seq<Job>, all: seq<Job>)
    ensures VerdictOf(gate, MeaningOf(jobs), MeaningOf(all)) == Errors([]) <==> Satisfies(gate, jobs, all)
  {
    var m := MeaningOf(jobs);
    MatchInList(gate, jobs);
    MatricesInList(gate, jobs, MatrixIn);
    UnionInList(all);
    NoFragmentMissing(gate, m, |gate.fragments|);
    forall f | 0 <= f < |gate.fragments|
      ensures FragmentFound(gate.fragments[f], m) <==> Offers(jobs, gate.fragments[f]) {
      FragmentInList(gate.fragments[f], jobs);
    }
    assert ShardUnionDepends(MeaningOf(all)) ==> HasShardUnion(MeaningOf(all));
    NothingAdded(
      if gate.shardRequired then MatrixProblems(gate, m, MatrixIn) else [],
      if gate.shardUnionRequired then UnionProblems(gate, MeaningOf(all)) else [],
      MissingFragments(gate, m, |gate.fragments|));
  }

  /** And it raises exactly when some job matches, a matrix is asked for, and an index in one is no number. */
  lemma RaisesExactly(gate: Gate, jobs: seq<Job>, all: seq<Job>)
    ensures VerdictOf(gate, MeaningOf(jobs), MeaningOf(all)) == ValueError <==>
            && Matches(gate, jobs) && gate.shardRequired
                 && exists k :: 0 <= k < |jobs| && Shown(jobs, k) && MatrixIn(Meaning(jobs[k])).BadIndex?
  {
    MatchInList(gate, jobs);
    BadIndexInList(jobs, MatrixIn);
  }

  lemma NothingAdded(a: seq<GateProblem>, b: seq<GateProblem>, c: seq<GateProblem>)
    ensures a + b + c == [] <==> a == [] && b == [] && c == []
  {
    assert |a + b + c| == |a| + |b| + |c|;
  }

  // ----- the verdict on texts

  datatype Workflow = Workflow(preamble: seq<string>, jobs: seq<Job>)

  /** A workflow that can be printed and whose jobs the parser reads as they are meant. */
  predicate ReadsBack(w: Workflow) {
    && ValidPreamble(w.preamble) && ValidJobs(w.jobs)
    && forall k | 0 <= k < |w.jobs| && Shown(w.jobs, k) :: ReadsCleanly(w.jobs[k])
  }

  function Parsed(w: Workflow): Jobs {
    JobsOf(PrintWorkflow(w.preamble, w.jobs))
  }

  /** `all_jobs.update(wf_jobs)` for every workflow. */
  function ParsedAll(ws: seq<Workflow>): Jobs {
    if ws == [] then map[] else ParsedAll(ws[..|ws| - 1]) + Parsed(ws[|ws| - 1])
  }

  function AllJobs(ws: seq<Workflow>): seq<Job> {
    if ws == [] then [] else AllJobs(ws[..|ws| - 1]) + ws[|ws| - 1].jobs
  }

  lemma {:induction false} ByNameAppend(a: seq<Job>, b: seq<Job>, data: Job -> JobData)
    ensures ByName(a + b, data) == ByName(a, data) + ByName(b, data)
  {
    if b == [] {
      assert a + b == a;
    } else {
      var last := |b| - 1;
      ByNameAppend(a, b[..last], data);
      assert (a + b)[..|a + b| - 1] == a + b[..last];
    }
  }

  lemma {:induction false} AllParsed(ws: seq<Workflow>)
    requires forall i :: 0 <= i < |ws| ==> ReadsBack(ws[i])
    ensures ParsedAll(ws) == MeaningOf(AllJobs(ws))
  {
    if ws != [] {
      var last := ws[|ws| - 1];
      AllParsed(ws[..|ws| - 1]);
      ParseUndoesPrint(last.preamble, last.jobs);
      ByNameAppend(AllJobs(ws[..|ws| - 1]), last.jobs, Meaning);
    }
  }

  /** Parsing does not change the verdict: on the printed texts of workflows that read back, the check of one workflow
      against all of them passes exactly when the job lists satisfy the gate. */
  lemma VerdictOnText(gate: Gate, ws: seq<Workflow>, i: nat)
    requires i < |ws| && forall j :: 0 <= j < |ws| ==> ReadsBack(ws[j])
    ensures VerdictOf(gate, Parsed(ws[i]), ParsedAll(ws)) == Errors([]) <==> Satisfies(gate, ws[i].jobs, AllJobs(ws))
  {
    ParseUndoesPrint(ws[i].preamble, ws[i].jobs);
    AllParsed(ws);
    VerdictOfMeaning(gate, ws[i].jobs, AllJobs(ws));
  }

  /** The matrix of a printed job is looked for on the job's own lines. */
  lemma MatrixOnLines(job: Job)
    requires ValidJob(job)
    ensures MatrixIn(Meaning(job)).NoMatrix? <==> !HasMatrixLine(PrintJob(job))
  {
    JobLines(job);
    SplitJoin(PrintJob(job), '\n');
  }
}
