/** Which problems the gate check reports, said of the jobs' names and commands themselves. */
module GateReports {
  import opened Text
  import opened WorkflowParser
  import opened ShardMatrix
  import opened GateChecks

  /** The text holds the pattern somewhere. */
  ghost predicate Holds(s: string, p: string) {
    exists a, b :: s == a + p + b
  }

  /** Some command of some job holds the fragment. */
  ghost predicate SomeCommandHolds(jobs: Jobs, fragment: string) {
    exists name, i :: name in jobs && 0 <= i < |jobs[name].commands| && Holds(jobs[name].commands[i], fragment)
  }

  ghost predicate IsUnionName(name: string) {
    Holds(Lower(name), "shard-union") || Holds(Lower(name), "shard_union")
  }

  predicate SomeJobMatches(gate: Gate, jobs: Jobs) {
    exists name | name in gate.ciEquivalent :: name in jobs
  }

  predicate SomeIndexRaises(jobs: Jobs) {
    exists name | name in jobs :: MatrixOf(jobs[name].rawContent).BadIndex?
  }

  /** When the check reports this problem. */
  ghost predicate IsDue(gate: Gate, jobs: Jobs, all: Jobs, p: GateProblem) {
    && p.gate == gate.id
    && (p.NoMatchingJob? <==> !SomeJobMatches(gate, jobs))
    && match p
       case NoMatchingJob(_) => true
       case TooFewShards(_) => gate.shardRequired &&
         exists name :: name in jobs && MatrixOf(jobs[name].rawContent).Matrix?
           && |MatrixOf(jobs[name].rawContent).indices| <= 1
       case NoShardMatrix(_) => gate.shardRequired &&
         forall name :: name in jobs ==> !MatrixOf(jobs[name].rawContent).Matrix?
       case NoShardUnion(_) => gate.shardUnionRequired && forall name :: name in all ==> !IsUnionName(name)
       case ShardUnionWithoutNeeds(_) => gate.shardUnionRequired && (exists name :: name in all && IsUnionName(name))
         && forall name :: name in all && IsUnionName(name) ==> !all[name].hasNeeds
       case FragmentMissing(_, fragment) => fragment in gate.fragments && !SomeCommandHolds(jobs, fragment)
  }

  lemma FoundExactly(fragment: string, jobs: Jobs)
    ensures FragmentFound(fragment, jobs) <==> SomeCommandHolds(jobs, fragment)
  {
    if FragmentFound(fragment, jobs) {
      var name :| name in jobs && InCommands(fragment, jobs[name].commands);
      var i :| 0 <= i < |jobs[name].commands| && Contains(jobs[name].commands[i], fragment);
      ContainsExactly(jobs[name].commands[i], fragment);
      assert Holds(jobs[name].commands[i], fragment);
    }
    if SomeCommandHolds(jobs, fragment) {
      var name, i :| name in jobs && 0 <= i < |jobs[name].commands| && Holds(jobs[name].commands[i], fragment);
      ContainsExactly(jobs[name].commands[i], fragment);
      assert InCommands(fragment, jobs[name].commands);
    }
  }

  lemma UnionNameExactly(name: string)
    ensures IsShardUnion(name) <==> IsUnionName(name)
  {
    ContainsExactly(Lower(name), "shard-union");
    ContainsExactly(Lower(name), "shard_union");
  }

  lemma MatchExactly(gate: Gate, jobs: Jobs)
    ensures HasMatchingJob(gate, jobs) <==> SomeJobMatches(gate, jobs)
  {
    if HasMatchingJob(gate, jobs) {
      var i :| 0 <= i < |gate.ciEquivalent| && gate.ciEquivalent[i] in jobs;
      assert gate.ciEquivalent[i] in gate.ciEquivalent;
    }
  }

  lemma {:induction false} MissingExactly(gate: Gate, jobs: Jobs, n: nat, p: GateProblem)
    requires n <= |gate.fragments|
    ensures p in MissingFragments(gate, jobs, n) <==>
            && p.FragmentMissing? && p.gate == gate.id
            && p.fragment in gate.fragments[..n] && !SomeCommandHolds(jobs, p.fragment)
  {
    if n > 0 {
      MissingExactly(gate, jobs, n - 1, p);
      FoundExactly(gate.fragments[n - 1], jobs);
      assert gate.fragments[..n] == gate.fragments[..n - 1] + [gate.fragments[n - 1]];
    }
  }

  lemma {:induction false} RepeatedExactly(problem: GateProblem, n: nat, p: GateProblem)
    ensures p in Repeated(problem, n) <==> n > 0 && p == problem
  {
    if n > 0 {
      RepeatedExactly(problem, n - 1, p);
    }
  }

  lemma MatrixExactly(gate: Gate, jobs: Jobs, p: GateProblem)
    requires SomeJobMatches(gate, jobs) && gate.shardRequired
    ensures p in MatrixProblems(gate, jobs, MatrixIn) <==>
            (p.TooFewShards? || p.NoShardMatrix?) && IsDue(gate, jobs, jobs, p)
  {
    var thin := ThinJobs(jobs, MatrixIn);
    RepeatedExactly(TooFewShards(gate.id), |thin|, p);
    NotEmpty(thin);
    assert HasMatrix(jobs, MatrixIn) <==> exists name :: name in jobs && MatrixOf(jobs[name].rawContent).Matrix?;
    if name :| name in thin {
      assert MatrixIn(jobs[name]) == MatrixOf(jobs[name].rawContent);
      assert HasMatrix(jobs, MatrixIn);
    } else {
      forall name | name in jobs && MatrixOf(jobs[name].rawContent).Matrix?
        ensures |MatrixOf(jobs[name].rawContent).indices| > 1
      {
        assert name !in thin;
      }
    }
  }

  lemma NotEmpty(names: set<string>)
    ensures |names| > 0 <==> exists name :: name in names
  {
    if |names| > 0 {
      var name :| name in names;
    }
  }

  lemma UnionExactly(gate: Gate, jobs: Jobs, all: Jobs, p: GateProblem)
    requires SomeJobMatches(gate, jobs) && gate.shardUnionRequired
    ensures p in UnionProblems(gate, all) <==>
            (p.NoShardUnion? || p.ShardUnionWithoutNeeds?) && IsDue(gate, jobs, all, p)
  {
    forall name | name in all ensures IsShardUnion(name) <==> IsUnionName(name) {
      UnionNameExactly(name);
    }
  }

  /** The check raises when a job matches, shards are asked for and an index is no number; otherwise it reports exactly
      the problems that are due, and without a matching job only that. */
  lemma ReportedExactly(gate: Gate, jobs: Jobs, all: Jobs)
    ensures VerdictOf(gate, jobs, all).ValueError? <==>
            SomeJobMatches(gate, jobs) && gate.shardRequired && SomeIndexRaises(jobs)
    ensures VerdictOf(gate, jobs, all).Errors? ==>
      forall p :: p in VerdictOf(gate, jobs, all).problems <==> IsDue(gate, jobs, all, p)
  {
    MatchExactly(gate, jobs);
    if SomeJobMatches(gate, jobs) && VerdictOf(gate, jobs, all).Errors? {
      forall p ensures p in VerdictOf(gate, jobs, all).problems <==> IsDue(gate, jobs, all, p) {
        ProblemExactly(gate, jobs, all, p);
      }
    }
  }

  lemma ProblemExactly(gate: Gate, jobs: Jobs, all: Jobs, p: GateProblem)
    requires SomeJobMatches(gate, jobs) && VerdictOf(gate, jobs, all).Errors?
    ensures p in VerdictOf(gate, jobs, all).problems <==> IsDue(gate, jobs, all, p)
  {
    MatchExactly(gate, jobs);
    if gate.shardRequired {
      MatrixExactly(gate, jobs, p);
    }
    if gate.shardUnionRequired {
      UnionExactly(gate, jobs, all, p);
    }
    MissingExactly(gate, jobs, |gate.fragments|, p);
    assert gate.fragments[..|gate.fragments|] == gate.fragments;
  }

  /** One error for each matrix that is too small. */
  lemma ThinCount(gate: Gate, jobs: Jobs, all: Jobs)
    requires VerdictOf(gate, jobs, all).Errors? && SomeJobMatches(gate, jobs) && gate.shardRequired
    ensures multiset(VerdictOf(gate, jobs, all).problems)[TooFewShards(gate.id)]
            == |set name | name in jobs && MatrixOf(jobs[name].rawContent).Matrix?
                              && |MatrixOf(jobs[name].rawContent).indices| <= 1|
  {
    MatchExactly(gate, jobs);
    SmallAreThin(jobs);
    MatrixCount(gate, jobs);
    NoneOther(gate, jobs, |gate.fragments|);
    var b := if gate.shardUnionRequired then UnionProblems(gate, all) else [];
    NoneInUnion(gate, all);
    CountsAdd(MatrixProblems(gate, jobs, MatrixIn), b, MissingFragments(gate, jobs, |gate.fragments|),
              TooFewShards(gate.id));
  }

  lemma SmallAreThin(jobs: Jobs)
    ensures ThinJobs(jobs, MatrixIn)
            == set name | name in jobs && MatrixOf(jobs[name].rawContent).Matrix?
                              && |MatrixOf(jobs[name].rawContent).indices| <= 1
  {
  }

  lemma NoneInUnion(gate: Gate, all: Jobs)
    ensures multiset(UnionProblems(gate, all))[TooFewShards(gate.id)] == 0
  {
  }

  lemma CountsAdd(a: seq<GateProblem>, b: seq<GateProblem>, c: seq<GateProblem>, p: GateProblem)
    ensures multiset(a + b + c)[p] == multiset(a)[p] + multiset(b)[p] + multiset(c)[p]
  {
    assert multiset(a + b + c) == multiset(a) + multiset(b) + multiset(c);
  }

  lemma MatrixCount(gate: Gate, jobs: Jobs)
    ensures multiset(MatrixProblems(gate, jobs, MatrixIn))[TooFewShards(gate.id)] == |ThinJobs(jobs, MatrixIn)|
  {
    RepeatedCount(TooFewShards(gate.id), |ThinJobs(jobs, MatrixIn)|);
    if !HasMatrix(jobs, MatrixIn) {
      NoMatrixNoThin(jobs, MatrixIn);
    }
  }

  lemma {:induction false} RepeatedCount(p: GateProblem, n: nat)
    ensures multiset(Repeated(p, n))[p] == n
  {
    if n > 0 {
      RepeatedCount(p, n - 1);
    }
  }

  lemma NoneOther(gate: Gate, jobs: Jobs, n: nat)
    requires n <= |gate.fragments|
    ensures multiset(MissingFragments(gate, jobs, n))[TooFewShards(gate.id)] == 0
  {
    MissingExactly(gate, jobs, n, TooFewShards(gate.id));
  }
}
