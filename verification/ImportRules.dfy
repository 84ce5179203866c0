/** What the import asks of an entry, what it writes, and what it counts, on the entry's fields and the files. */
module ImportRules {
  import opened Wrappers
  import opened Text
  import opened FeedbackImport

  // ----- which entries are accepted

  /** The file the path leads to: an absolute one, else below runs/health, else below runs. */
  predicate LeadsTo(runs: Runs, path: string, a: Artifact) {
    if path != "" && path[0] == '/' then path in runs.absolute && runs.absolute[path] == a
    else if path in runs.modern then runs.modern[path] == a
    else path in runs.legacy && runs.legacy[path] == a
  }

  predicate LeadsNowhere(runs: Runs, path: string) {
    if path != "" && path[0] == '/' then path !in runs.absolute
    else path !in runs.modern && path !in runs.legacy
  }

  predicate IsOneOf(field: Option<string>, values: set<string>) {
    field == None || exists v :: v in values && field == Some(v)
  }

  /** The class is known, and so is every context field that is given. */
  predicate IsKnown(s: Supported, e: Entry) {
    && e.usefulnessClass in s.classes && IsOneOf(e.reviewStage, s.stages) && IsOneOf(e.workstream, s.workstreams)
    && IsOneOf(e.problemClass, s.problems) && IsOneOf(e.judgmentScope, s.scopes)
    && IsOneOf(e.reviewerConfidence, s.confidences)
  }

  lemma ResolvesExactly(runs: Runs, path: string, a: Artifact)
    ensures Resolve(runs, path) == Some(a) <==> LeadsTo(runs, path, a)
    ensures Resolve(runs, path) == None <==> LeadsNowhere(runs, path)
  {
    assert StartsWith(path, "/") <==> path != "" && path[0] == '/';
  }

  /** An entry is accepted when its two required fields are given, all its values are known, and its path leads to an
      execution artifact; the run is that artifact's. */
  lemma AcceptedExactly(s: Supported, runs: Runs, e: Entry, runId: string)
    ensures Validate(s, runs, e) == Ok(runId) <==>
            && e.artifactPath != "" && e.usefulnessClass != "" && IsKnown(s, e)
            && LeadsTo(runs, e.artifactPath, Artifact("next-check-execution", runId))
  {
    ResolvesExactly(runs, e.artifactPath, Artifact("next-check-execution", runId));
  }

  /** The checks come in this order, and the first that fails gives the error. */
  lemma RejectedExactly(s: Supported, runs: Runs, e: Entry)
    ensures Validate(s, runs, e) == Err(MissingPath) <==> e.artifactPath == ""
    ensures Validate(s, runs, e) == Err(MissingClass) <==> e.artifactPath != "" && e.usefulnessClass == ""
    ensures Validate(s, runs, e) == Err(UnsupportedClass) <==>
            e.artifactPath != "" && e.usefulnessClass != "" && e.usefulnessClass !in s.classes
    ensures Validate(s, runs, e) == Err(UnsupportedContext) <==>
            && e.artifactPath != "" && e.usefulnessClass != "" && e.usefulnessClass in s.classes && !IsKnown(s, e)
    ensures Validate(s, runs, e) == Err(NotFound) <==>
            && e.artifactPath != "" && e.usefulnessClass != "" && IsKnown(s, e) && LeadsNowhere(runs, e.artifactPath)
    ensures Validate(s, runs, e) == Err(BadJson) <==>
            && e.artifactPath != "" && e.usefulnessClass != "" && IsKnown(s, e)
            && LeadsTo(runs, e.artifactPath, InvalidJson)
    ensures Validate(s, runs, e) == Err(WrongPurpose) <==>
            && e.artifactPath != "" && e.usefulnessClass != "" && IsKnown(s, e)
            && exists purpose, runId :: purpose != "next-check-execution"
                 && LeadsTo(runs, e.artifactPath, Artifact(purpose, runId))
  {
    var found := Resolve(runs, e.artifactPath);
    ResolvesExactly(runs, e.artifactPath, if found.Some? then found.value else InvalidJson);
    ResolvesExactly(runs, e.artifactPath, InvalidJson);
    forall purpose, runId
      ensures found == Some(Artifact(purpose, runId)) <==> LeadsTo(runs, e.artifactPath, Artifact(purpose, runId))
    {
      ResolvesExactly(runs, e.artifactPath, Artifact(purpose, runId));
    }
  }

  // ----- what is on record and what is written

  /** The file is a review of the run: any text may stand where the uuid does. */
  ghost predicate IsReviewFile(name: string, runId: string) {
    exists middle :: name == runId + "-next-check-execution-usefulness-review-" + middle + ".json"
  }

  lemma ReviewNamesExactly(name: string, runId: string)
    ensures IsReviewName(name, runId) <==> IsReviewFile(name, runId)
  {
    var prefix := runId + NAME_MIDDLE;
    if IsReviewName(name, runId) {
      var middle := name[|prefix|..|name| - |NAME_SUFFIX|];
      assert name == prefix + middle + NAME_SUFFIX;
    }
    if middle :| name == runId + "-next-check-execution-usefulness-review-" + middle + ".json" {
      assert name == prefix + middle + NAME_SUFFIX;
      assert name[|name| - |NAME_SUFFIX|..] == NAME_SUFFIX;
    }
  }

  /** An accepted entry is skipped when a review of its run already says the same of the same artifact. */
  ghost predicate IsOnRecord(files: Files, runId: string, e: Entry) {
    exists name :: name in files && IsReviewFile(name, runId)
                && files[name] == Review(e.artifactPath, e.usefulnessClass, e.summary)
  }

  lemma OnRecord(files: Files, runId: string, e: Entry)
    ensures AlreadyReviewed(files, runId, e) <==> IsOnRecord(files, runId, e)
  {
    forall name | name in files ensures IsReviewName(name, runId) <==> IsReviewFile(name, runId) {
      ReviewNamesExactly(name, runId);
    }
  }

  /** One entry, whatever the validation: rejected with its error, skipped, or written under a name of its run with its
      own artifact, class and summary; a dry run writes nothing. */
  lemma EntryExactly(validate: Validator, files: Files, e: Entry, uuid: string, dryRun: bool)
    ensures forall error :: OutcomeOf(validate, files, e) == Failed(error) <==> validate(e) == Err(error)
    ensures OutcomeOf(validate, files, e) == Skipped <==>
            validate(e).Ok? && IsOnRecord(files, validate(e).value, e)
    ensures OutcomeOf(validate, files, e) == Updated && !dryRun ==>
      After(validate, files, e, uuid, dryRun) ==
      files[validate(e).value + "-next-check-execution-usefulness-review-" + (uuid + ".json")
            := Review(e.artifactPath, e.usefulnessClass, e.summary)]
    ensures OutcomeOf(validate, files, e) != Updated || dryRun ==> After(validate, files, e, uuid, dryRun) == files
  {
    if validate(e).Ok? {
      OnRecord(files, validate(e).value, e);
    }
  }

  // ----- what is counted

  /** How many of the first `n` entries were accepted with this class. */
  function Accepted(entries: seq<Entry>, outcomes: seq<Outcome>, n: nat, kind: string): nat
    requires n <= |entries| == |outcomes|
  {
    if n == 0 then 0 else
    Accepted(entries, outcomes, n - 1, kind)
    + (if !outcomes[n - 1].Failed? && entries[n - 1].usefulnessClass == kind then 1 else 0)
  }

  lemma {:induction false} ClassCounts(entries: seq<Entry>, outcomes: seq<Outcome>, n: nat, kind: string)
    requires n <= |entries| == |outcomes|
    ensures TallyOf(entries, outcomes, n).classes[kind] == Accepted(entries, outcomes, n, kind)
  {
    if n > 0 {
      ClassCounts(entries, outcomes, n - 1, kind);
    }
  }

  /** The messages name the rejected entries by position, in order, each with its error. */
  lemma {:induction false} MessagesExactly(entries: seq<Entry>, outcomes: seq<Outcome>, n: nat, i: nat,
      error: ImportError)
    requires n <= |entries| == |outcomes|
    ensures (i, error) in TallyOf(entries, outcomes, n).messages <==> i < n && outcomes[i] == Failed(error)
  {
    if n > 0 {
      MessagesExactly(entries, outcomes, n - 1, i, error);
      CountOne(TallyOf(entries, outcomes, n - 1), n - 1, entries[n - 1], outcomes[n - 1]);
    }
  }
}
