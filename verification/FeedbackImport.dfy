/** Importing usefulness feedback into an append-only store of review artifacts. */
module FeedbackImport {
  import opened Wrappers
  import opened Text

  /** An entry of the feedback file; a missing or non-string required field reads as the empty string. */
  datatype Entry = Entry(
    artifactPath: string,
    usefulnessClass: string,
    summary: Option<string>,
    reviewStage: Option<string>,
    workstream: Option<string>,
    problemClass: Option<string>,
    judgmentScope: Option<string>,
    reviewerConfidence: Option<string>,
    runId: string,
    candidateIndex: string)

  /** The values each enumerated field may take. */
  datatype Supported = Supported(
    classes: set<string>,
    stages: set<string>,
    workstreams: set<string>,
    problems: set<string>,
    scopes: set<string>,
    confidences: set<string>)

  /** A file that an artifact path may resolve to. */
  datatype Artifact = Artifact(purpose: string, runId: string) | InvalidJson

  /** The files below the allowed roots by absolute path, below runs/health and below runs by relative path. */
  datatype Runs = Runs(absolute: map<string, Artifact>, modern: map<string, Artifact>, legacy: map<string, Artifact>)

  const EXECUTION_PURPOSE := "next-check-execution"
  const NAME_MIDDLE := "-next-check-execution-usefulness-review-"
  const NAME_SUFFIX := ".json"

  /** A review in the store, or a file that cannot be read as one. */
  datatype Review = Review(sourceArtifact: string, usefulnessClass: string, summary: Option<string>) | Unreadable

  /** File name to contents. */
  type Files = map<string, Review>

  datatype ImportError = MissingPath | MissingClass | UnsupportedClass | UnsupportedContext |
                         NotFound | BadJson | WrongPurpose

  // ----- validation and resolution

  function Resolve(runs: Runs, path: string): Option<Artifact> {
    if StartsWith(path, "/") then (if path in runs.absolute then Some(runs.absolute[path]) else None)
    else if path in runs.modern then Some(runs.modern[path])
    else if path in runs.legacy then Some(runs.legacy[path])
    else None
  }

  predicate Allowed(value: Option<string>, supported: set<string>) {
    value.Some? ==> value.value in supported
  }

  predicate ContextAllowed(s: Supported, e: Entry) {
    && Allowed(e.reviewStage, s.stages) && Allowed(e.workstream, s.workstreams) && Allowed(e.problemClass, s.problems)
    && Allowed(e.judgmentScope, s.scopes) && Allowed(e.reviewerConfidence, s.confidences)
  }

  /** The run of the artifact an entry speaks about, or why the entry is rejected. */
  function Validate(s: Supported, runs: Runs, e: Entry): Result<string, ImportError> {
    if e.artifactPath == "" then Err(MissingPath)
    else if e.usefulnessClass == "" then Err(MissingClass)
    else if e.usefulnessClass !in s.classes then Err(UnsupportedClass)
    else if !ContextAllowed(s, e) then Err(UnsupportedContext)
    else match Resolve(runs, e.artifactPath)
      case None => Err(NotFound)
      case Some(InvalidJson) => Err(BadJson)
      case Some(Artifact(purpose, runId)) => if purpose == EXECUTION_PURPOSE then Ok(runId) else Err(WrongPurpose)
  }

  // ----- the store

  /** The glob for the reviews of a run. */
  predicate IsReviewName(name: string, runId: string) {
    var prefix := runId + NAME_MIDDLE;
    |prefix| + |NAME_SUFFIX| <= |name| && prefix <= name && name[|name| - |NAME_SUFFIX|..] == NAME_SUFFIX
  }

  function ReviewName(runId: string, uuid: string): string {
    runId + NAME_MIDDLE + (uuid + NAME_SUFFIX)
  }

  type Key = (string, string, Option<string>)

  function KeyOf(e: Entry): Key {
    (e.artifactPath, e.usefulnessClass, e.summary)
  }

  predicate HasKey(r: Review, key: Key) {
    r.Review? && (r.sourceArtifact, r.usefulnessClass, r.summary) == key
  }

  /** The idempotency scan: a review of this run with the same source, class and summary. */
  predicate AlreadyReviewed(files: Files, runId: string, e: Entry) {
    exists name | name in files :: IsReviewName(name, runId) && HasKey(files[name], KeyOf(e))
  }

  datatype Outcome = Updated | Skipped | Failed(error: ImportError)

  /** How an entry is checked: the run of its artifact, or why it is rejected. */
  type Validator = Entry -> Result<string, ImportError>

  function OutcomeOf(validate: Validator, files: Files, e: Entry): Outcome {
    match validate(e)
    case Err(error) => Failed(error)
    case Ok(runId) => if AlreadyReviewed(files, runId, e) then Skipped else Updated
  }

  function ReviewOf(e: Entry): Review {
    Review(e.artifactPath, e.usefulnessClass, e.summary)
  }

  /** The store after one entry. */
  function After(validate: Validator, files: Files, e: Entry, uuid: string, dryRun: bool): Files {
    if OutcomeOf(validate, files, e) == Updated && !dryRun
    then files[ReviewName(validate(e).value, uuid) := ReviewOf(e)] else files
  }

  // ----- the import

  datatype Tally = Tally(
    success: nat,
    errors: nat,
    skipped: nat,
    updated: nat,
    messages: seq<(nat, ImportError)>,
    classes: multiset<string>,
    seen: set<string>,
    reimports: nat)

  const EMPTY := Tally(0, 0, 0, 0, [], multiset{}, {}, 0)

  /** The text whose hash is the key by which one file's entries are counted as repeated. */
  function DedupeKey(e: Entry): string {
    Join([e.runId, e.candidateIndex, e.artifactPath], '|')
  }

  /** What every accepted entry adds, written or skipped. */
  function Note(t: Tally, e: Entry): Tally {
    t.(classes := t.classes + multiset{e.usefulnessClass},
       seen := t.seen + {DedupeKey(e)},
       reimports := if DedupeKey(e) in t.seen then t.reimports + 1 else t.reimports)
  }

  /** The bookkeeping of entry `i`. */
  function Count(t: Tally, i: nat, e: Entry, outcome: Outcome): Tally {
    match outcome
    case Failed(error) => t.(errors := t.errors + 1, messages := t.messages + [(i, error)])
    case Updated => Note(t, e).(success := t.success + 1, updated := t.updated + 1)
    case Skipped => Note(t, e).(skipped := t.skipped + 1)
  }

  /** An import's fixed surroundings; what holds of imports holds for every way to validate entries. */
  datatype Setting = Setting(validate: Validator, dryRun: bool)

  /** The script's own validation. */
  function SettingOf(s: Supported, runs: Runs, dryRun: bool): Setting {
    Setting(e => Validate(s, runs, e), dryRun)
  }

  function FilesAfter(c: Setting, files: Files, entries: seq<Entry>, uuids: seq<string>, n: nat): Files
    requires n <= |entries| <= |uuids|
  {
    if n == 0 then files else
    After(c.validate, FilesAfter(c, files, entries, uuids, n - 1), entries[n - 1], uuids[n - 1], c.dryRun)
  }

  function OutcomeAt(c: Setting, files: Files, entries: seq<Entry>, uuids: seq<string>, i: nat): Outcome
    requires i < |entries| <= |uuids|
  {
    OutcomeOf(c.validate, FilesAfter(c, files, entries, uuids, i), entries[i])
  }

  function Outcomes(c: Setting, files: Files, entries: seq<Entry>, uuids: seq<string>): (outcomes: seq<Outcome>)
    requires |entries| <= |uuids|
    ensures |outcomes| == |entries|
    ensures forall i {:trigger outcomes[i]} :: 0 <= i < |entries| ==>
      outcomes[i] == OutcomeAt(c, files, entries, uuids, i)
  {
    seq(|entries|, i requires 0 <= i < |entries| => OutcomeAt(c, files, entries, uuids, i))
  }

  /** The counts after `n` entries with the given outcomes. */
  function TallyOf(entries: seq<Entry>, outcomes: seq<Outcome>, n: nat): Tally
    requires n <= |entries| == |outcomes|
  {
    if n == 0 then EMPTY else Count(TallyOf(entries, outcomes, n - 1), n - 1, entries[n - 1], outcomes[n - 1])
  }

  function TallyAfter(c: Setting, files: Files, entries: seq<Entry>, uuids: seq<string>, n: nat): Tally
    requires n <= |entries| <= |uuids|
  {
    TallyOf(entries, Outcomes(c, files, entries, uuids), n)
  }

  class ReviewStore {
    var files: Files

    /** `_process_entry`. */
    method ProcessEntry(c: Setting, e: Entry, uuid: string) returns (outcome: Outcome)
      modifies this
      ensures outcome == OutcomeOf(c.validate, old(files), e)
      ensures files == After(c.validate, old(files), e, uuid, c.dryRun)
    {
      var valid := c.validate(e);
      if valid.Err? {
        return Failed(valid.error);
      }
      if AlreadyReviewed(files, valid.value, e) {
        return Skipped;
      }
      if !c.dryRun {
        files := files[ReviewName(valid.value, uuid) := ReviewOf(e)];
      }
      return Updated;
    }

    method ImportFeedback(s: Supported, runs: Runs, dryRun: bool, entries: seq<Entry>, uuids: seq<string>)
        returns (tally: Tally)
      requires |entries| <= |uuids|
      modifies this
      ensures files == FilesAfter(SettingOf(s, runs, dryRun), old(files), entries, uuids, |entries|)
      ensures tally == TallyAfter(SettingOf(s, runs, dryRun), old(files), entries, uuids, |entries|)
    {
      tally := Import(SettingOf(s, runs, dryRun), entries, uuids);
    }

    /** The loop over the entries. */
    method Import(c: Setting, entries: seq<Entry>, uuids: seq<string>) returns (tally: Tally)
      requires |entries| <= |uuids|
      modifies this
      ensures files == FilesAfter(c, old(files), entries, uuids, |entries|)
      ensures tally == TallyAfter(c, old(files), entries, uuids, |entries|)
    {
      tally := EMPTY;
      ghost var outcomes := Outcomes(c, old(files), entries, uuids);
      for i := 0 to |entries|
        invariant files == FilesAfter(c, old(files), entries, uuids, i)
        invariant tally == TallyOf(entries, outcomes, i)
      {
        assert outcomes[i] == OutcomeAt(c, old(files), entries, uuids, i);
        var outcome := ProcessEntry(c, entries[i], uuids[i]);
        assert outcome == outcomes[i];
        assert files == FilesAfter(c, old(files), entries, uuids, i + 1);
        tally := Count(tally, i, entries[i], outcome);
      }
    }
  }

  // ----- fresh names

  /** The last 13 characters of a name: 8 of the uuid and the suffix. */
  function NameTail(name: string): string {
    if |name| < 13 then name else name[|name| - 13..]
  }

  /** The uuids are pairwise distinct, 8 characters long, and occur in no name of the store. */
  predicate FreshUuids(files: Files, uuids: seq<string>) {
    && (forall i :: 0 <= i < |uuids| ==> |uuids[i]| == 8)
    && (forall i, j :: 0 <= i < j < |uuids| ==> uuids[i] != uuids[j])
    && (forall name, i :: name in files && 0 <= i < |uuids| ==> NameTail(name) != uuids[i] + NAME_SUFFIX)
  }

  lemma TailOfReviewName(runId: string, uuid: string)
    requires |uuid| == 8
    ensures NameTail(ReviewName(runId, uuid)) == uuid + NAME_SUFFIX
    ensures IsReviewName(ReviewName(runId, uuid), runId)
  {
    var name := ReviewName(runId, uuid);
    assert name[|name| - 13..] == uuid + NAME_SUFFIX;
    assert name[|name| - 5..] == NAME_SUFFIX;
  }

  /** Names written so far end in uuids used so far, so the next name is new. */
  lemma {:induction false} NamesStayFresh(c: Setting, files: Files, entries: seq<Entry>, uuids: seq<string>, n: nat,
      name: string)
    requires n <= |entries| <= |uuids| && FreshUuids(files, uuids)
    requires name in FilesAfter(c, files, entries, uuids, n)
    ensures name in files || exists i :: 0 <= i < n && NameTail(name) == uuids[i] + NAME_SUFFIX
  {
    if n > 0 {
      if name in FilesAfter(c, files, entries, uuids, n - 1) {
        NamesStayFresh(c, files, entries, uuids, n - 1, name);
      } else {
        TailOfReviewName(c.validate(entries[n - 1]).value, uuids[n - 1]);
      }
    }
  }

  lemma SuffixesDiffer(u: string, v: string)
    requires u != v && |u| == |v| == 8
    ensures u + NAME_SUFFIX != v + NAME_SUFFIX
  {
    assert u == (u + NAME_SUFFIX)[..8] && v == (v + NAME_SUFFIX)[..8];
  }

  lemma NextNameIsNew(c: Setting, files: Files, entries: seq<Entry>, uuids: seq<string>, n: nat, runId: string)
    requires n < |entries| <= |uuids| && FreshUuids(files, uuids)
    ensures ReviewName(runId, uuids[n]) !in FilesAfter(c, files, entries, uuids, n)
  {
    var name := ReviewName(runId, uuids[n]);
    TailOfReviewName(runId, uuids[n]);
    forall i | 0 <= i < n ensures NameTail(name) != uuids[i] + NAME_SUFFIX {
      SuffixesDiffer(uuids[i], uuids[n]);
    }
    if name in FilesAfter(c, files, entries, uuids, n) {
      NamesStayFresh(c, files, entries, uuids, n, name);
    }
  }

  // ----- what an import does to the store

  ghost predicate Includes(files: Files, more: Files) {
    forall name :: name in files ==> name in more && more[name] == files[name]
  }

  lemma StepIncludes(c: Setting, files: Files, entries: seq<Entry>, uuids: seq<string>, n: nat)
    requires 0 < n <= |entries| <= |uuids| && FreshUuids(files, uuids) && !c.dryRun
    ensures var before, after := FilesAfter(c, files, entries, uuids, n - 1), FilesAfter(c, files, entries, uuids, n);
            && Includes(before, after)
            && |after| == |before| + (if OutcomeAt(c, files, entries, uuids, n - 1) == Updated then 1 else 0)
  {
    if OutcomeAt(c, files, entries, uuids, n - 1) == Updated {
      NextNameIsNew(c, files, entries, uuids, n - 1, c.validate(entries[n - 1]).value);
    }
  }

  /** Append-only: nothing is lost or changed. */
  lemma {:induction false} StoreOnlyGrows(c: Setting, files: Files, entries: seq<Entry>, uuids: seq<string>, n: nat)
    requires n <= |entries| <= |uuids| && FreshUuids(files, uuids) && !c.dryRun
    ensures Includes(files, FilesAfter(c, files, entries, uuids, n))
  {
    if n > 0 {
      var before, after := FilesAfter(c, files, entries, uuids, n - 1), FilesAfter(c, files, entries, uuids, n);
      StoreOnlyGrows(c, files, entries, uuids, n - 1);
      assert Includes(before, after) by {
        StepIncludes(c, files, entries, uuids, n);
      }
      IncludesTransitive(files, before, after);
    }
  }

  lemma IncludesTransitive(a: Files, b: Files, c: Files)
    requires Includes(a, b) && Includes(b, c)
    ensures Includes(a, c)
  {
  }

  /** How many of the first `n` outcomes are updates. */
  function Updates(outcomes: seq<Outcome>, n: nat): nat
    requires n <= |outcomes|
  {
    if n == 0 then 0 else Updates(outcomes, n - 1) + (if outcomes[n - 1] == Updated then 1 else 0)
  }

  lemma CountUpdate(t: Tally, i: nat, e: Entry, outcome: Outcome)
    requires t.updated == t.success
    ensures Count(t, i, e, outcome).updated == Count(t, i, e, outcome).success
      == t.success + (if outcome == Updated then 1 else 0)
  {
  }

  lemma {:induction false} UpdatesAreSuccesses(entries: seq<Entry>, outcomes: seq<Outcome>, n: nat)
    requires n <= |entries| == |outcomes|
    ensures TallyOf(entries, outcomes, n).success == TallyOf(entries, outcomes, n).updated == Updates(outcomes, n)
  {
    if n > 0 {
      UpdatesAreSuccesses(entries, outcomes, n - 1);
      CountUpdate(TallyOf(entries, outcomes, n - 1), n - 1, entries[n - 1], outcomes[n - 1]);
    }
  }

  lemma FileOfUpdate(c: Setting, files: Files, entries: seq<Entry>, uuids: seq<string>, n: nat)
    requires 0 < n <= |entries| <= |uuids| && FreshUuids(files, uuids) && !c.dryRun
    ensures |FilesAfter(c, files, entries, uuids, n)| == |FilesAfter(c, files, entries, uuids, n - 1)|
            + (if OutcomeAt(c, files, entries, uuids, n - 1) == Updated then 1 else 0)
  {
    StepIncludes(c, files, entries, uuids, n);
  }

  lemma UpdatesStep(c: Setting, files: Files, entries: seq<Entry>, uuids: seq<string>, n: nat)
    requires 0 < n <= |entries| <= |uuids|
    ensures var outcomes := Outcomes(c, files, entries, uuids);
            Updates(outcomes, n) == Updates(outcomes, n - 1)
            + (if OutcomeAt(c, files, entries, uuids, n - 1) == Updated then 1 else 0)
  {
    assert Outcomes(c, files, entries, uuids)[n - 1] == OutcomeAt(c, files, entries, uuids, n - 1);
  }

  /** With entry `k` the store and the number of updates grow alike. */
  ghost predicate GrowAlike(c: Setting, files: Files, entries: seq<Entry>, uuids: seq<string>, outcomes: seq<Outcome>,
      k: nat)
    requires 0 < k <= |entries| <= |uuids| && k <= |outcomes|
  {
    |FilesAfter(c, files, entries, uuids, k)| - |FilesAfter(c, files, entries, uuids, k - 1)|
    == Updates(outcomes, k) - Updates(outcomes, k - 1)
  }

  lemma EntryGrowsAlike(c: Setting, files: Files, entries: seq<Entry>, uuids: seq<string>, k: nat)
    requires 0 < k <= |entries| <= |uuids| && FreshUuids(files, uuids) && !c.dryRun
    ensures GrowAlike(c, files, entries, uuids, Outcomes(c, files, entries, uuids), k)
  {
    FileOfUpdate(c, files, entries, uuids, k);
    UpdatesStep(c, files, entries, uuids, k);
  }

  lemma {:induction false} AllGrowAlike(c: Setting, files: Files, entries: seq<Entry>, uuids: seq<string>,
      outcomes: seq<Outcome>, n: nat)
    requires n <= |entries| <= |uuids| && |outcomes| == |entries|
    requires forall k :: 0 < k <= |entries| ==> GrowAlike(c, files, entries, uuids, outcomes, k)
    ensures |FilesAfter(c, files, entries, uuids, n)| == |files| + Updates(outcomes, n)
  {
    if n > 0 {
      AllGrowAlike(c, files, entries, uuids, outcomes, n - 1);
      OneMoreAlike(c, files, entries, uuids, outcomes, n);
    }
  }

  lemma OneMoreAlike(c: Setting, files: Files, entries: seq<Entry>, uuids: seq<string>, outcomes: seq<Outcome>, n: nat)
    requires 0 < n <= |entries| <= |uuids| && n <= |outcomes| && GrowAlike(c, files, entries, uuids, outcomes, n)
    requires |FilesAfter(c, files, entries, uuids, n - 1)| == |files| + Updates(outcomes, n - 1)
    ensures |FilesAfter(c, files, entries, uuids, n)| == |files| + Updates(outcomes, n)
  {
  }

  lemma OneFilePerUpdate(c: Setting, files: Files, entries: seq<Entry>, uuids: seq<string>, n: nat)
    requires n <= |entries| <= |uuids| && FreshUuids(files, uuids) && !c.dryRun
    ensures |FilesAfter(c, files, entries, uuids, n)| == |files| + Updates(Outcomes(c, files, entries, uuids), n)
  {
    var outcomes := Outcomes(c, files, entries, uuids);
    forall k | 0 < k <= |entries| ensures GrowAlike(c, files, entries, uuids, outcomes, k) {
      EntryGrowsAlike(c, files, entries, uuids, k);
    }
    AllGrowAlike(c, files, entries, uuids, outcomes, n);
  }

  /** One file is written per success. */
  lemma OneFilePerSuccess(c: Setting, files: Files, entries: seq<Entry>, uuids: seq<string>, n: nat)
    requires n <= |entries| <= |uuids| && FreshUuids(files, uuids) && !c.dryRun
    ensures |FilesAfter(c, files, entries, uuids, n)| == |files| + TallyAfter(c, files, entries, uuids, n).success
  {
    var outcomes := Outcomes(c, files, entries, uuids);
    OneFilePerUpdate(c, files, entries, uuids, n);
    UpdatesAreSuccesses(entries, outcomes, n);
  }

  ghost function Keys(files: Files): set<Key> {
    set name | name in files && files[name].Review? ::
      (files[name].sourceArtifact, files[name].usefulnessClass, files[name].summary)
  }

  predicate IsValid(c: Setting, e: Entry) {
    c.validate(e).Ok?
  }

  ghost function ValidKeys(c: Setting, entries: seq<Entry>): set<Key> {
    set i | 0 <= i < |entries| && IsValid(c, entries[i]) :: KeyOf(entries[i])
  }

  lemma OneMoreKey(files: Files, name: string, e: Entry)
    requires name !in files
    ensures Keys(files[name := ReviewOf(e)]) == Keys(files) + {KeyOf(e)}
  {
    var more := files[name := ReviewOf(e)];
    forall key ensures key in Keys(more) <==> key in Keys(files) + {KeyOf(e)} {
      if key in Keys(files) {
        var n :| n in files && HasKey(files[n], key);
        assert HasKey(more[n], key);
      }
      if key == KeyOf(e) {
        assert HasKey(more[name], key);
      }
    }
  }

  lemma {:induction false} ImportAddsKeys(c: Setting, files: Files, entries: seq<Entry>, uuids: seq<string>, n: nat)
    requires n <= |entries| <= |uuids| && FreshUuids(files, uuids) && !c.dryRun
    ensures Keys(FilesAfter(c, files, entries, uuids, n)) == Keys(files) + ValidKeys(c, entries[..n])
  {
    if n > 0 {
      var before, e := FilesAfter(c, files, entries, uuids, n - 1), entries[n - 1];
      ImportAddsKeys(c, files, entries, uuids, n - 1);
      ValidKeysStep(c, entries, n);
      match OutcomeAt(c, files, entries, uuids, n - 1)
      case Failed(_) =>
      case Skipped =>
        var name :| name in before && HasKey(before[name], KeyOf(e));
        assert KeyOf(e) in Keys(before);
      case Updated =>
        var name := ReviewName(c.validate(e).value, uuids[n - 1]);
        NextNameIsNew(c, files, entries, uuids, n - 1, c.validate(e).value);
        OneMoreKey(before, name, e);
    }
  }

  lemma ValidKeysStep(c: Setting, entries: seq<Entry>, n: nat)
    requires 0 < n <= |entries|
    ensures ValidKeys(c, entries[..n])
      == ValidKeys(c, entries[..n - 1]) + (if IsValid(c, entries[n - 1]) then {KeyOf(entries[n - 1])} else {})
  {
    var before, after := entries[..n - 1], entries[..n];
    assert after[n - 1] == entries[n - 1] && forall i :: 0 <= i < n - 1 ==> after[i] == before[i];
  }

  /** `after` is the store that a real import of the entries, under fresh names, leaves behind. */
  ghost predicate Imports(c: Setting, files: Files, entries: seq<Entry>, after: Files) {
    exists uuids :: |entries| <= |uuids| && FreshUuids(files, uuids)
      && after == FilesAfter(c, files, entries, uuids, |entries|)
  }

  /** Import is set union: the store's keys become its old keys and those of the valid entries. */
  lemma ImportIsUnion(c: Setting, files: Files, entries: seq<Entry>, uuids: seq<string>)
    requires |entries| <= |uuids| && FreshUuids(files, uuids) && !c.dryRun
    ensures Keys(FilesAfter(c, files, entries, uuids, |entries|)) == Keys(files) + ValidKeys(c, entries)
  {
    ImportAddsKeys(c, files, entries, uuids, |entries|);
    assert entries[..|entries|] == entries;
  }

  lemma ImportedKeys(c: Setting, files: Files, entries: seq<Entry>, after: Files)
    ensures !c.dryRun && Imports(c, files, entries, after) ==> Keys(after) == Keys(files) + ValidKeys(c, entries)
  {
    if !c.dryRun && Imports(c, files, entries, after) {
      var uuids :| |entries| <= |uuids| && FreshUuids(files, uuids)
        && after == FilesAfter(c, files, entries, uuids, |entries|);
      ImportIsUnion(c, files, entries, uuids);
    }
  }

  /** So imports commute on keys, in whatever order and under whatever fresh names they are made. */
  lemma ImportsCommute(c: Setting, files: Files, a: seq<Entry>, b: seq<Entry>, fa: Files, fab: Files, fb: Files,
      fba: Files)
    requires !c.dryRun
    requires Imports(c, files, a, fa) && Imports(c, fa, b, fab)
    requires Imports(c, files, b, fb) && Imports(c, fb, a, fba)
    ensures Keys(fab) == Keys(fba)
  {
    ImportedKeys(c, files, a, fa);
    ImportedKeys(c, fa, b, fab);
    ImportedKeys(c, files, b, fb);
    ImportedKeys(c, fb, a, fba);
    UnionsCommute(Keys(files), ValidKeys(c, a), ValidKeys(c, b));
  }

  lemma UnionsCommute<T>(x: set<T>, y: set<T>, z: set<T>)
    ensures x + y + z == x + z + y
  {
  }

  // ----- importing again

  lemma ReviewedStaysReviewed(files: Files, more: Files, runId: string, e: Entry)
    requires Includes(files, more) && AlreadyReviewed(files, runId, e)
    ensures AlreadyReviewed(more, runId, e)
  {
    var name :| name in files && IsReviewName(name, runId) && HasKey(files[name], KeyOf(e));
    assert name in more;
  }

  lemma ValidEntryIsReviewed(c: Setting, files: Files, entries: seq<Entry>, uuids: seq<string>, i: nat)
    requires i < |entries| <= |uuids| && FreshUuids(files, uuids) && !c.dryRun && IsValid(c, entries[i])
    ensures AlreadyReviewed(FilesAfter(c, files, entries, uuids, i + 1), c.validate(entries[i]).value, entries[i])
  {
    var runId := c.validate(entries[i]).value;
    if OutcomeAt(c, files, entries, uuids, i) == Updated {
      TailOfReviewName(runId, uuids[i]);
      assert HasKey(FilesAfter(c, files, entries, uuids, i + 1)[ReviewName(runId, uuids[i])], KeyOf(entries[i]));
    }
  }

  lemma RoundKeepsReviewed(c: Setting, files: Files, entries: seq<Entry>, uuids: seq<string>, n: nat, runId: string,
      e: Entry)
    requires 0 < n <= |entries| <= |uuids| && FreshUuids(files, uuids) && !c.dryRun
    requires AlreadyReviewed(FilesAfter(c, files, entries, uuids, n - 1), runId, e)
    ensures AlreadyReviewed(FilesAfter(c, files, entries, uuids, n), runId, e)
  {
    StepIncludes(c, files, entries, uuids, n);
    ReviewedStaysReviewed(
      FilesAfter(c, files, entries, uuids, n - 1), FilesAfter(c, files, entries, uuids, n), runId, e);
  }

  /** After an import every valid entry is on record for its run. */
  lemma {:induction false} ValidEntriesAreReviewed(c: Setting, files: Files, entries: seq<Entry>, uuids: seq<string>,
      n: nat, i: nat)
    requires i < n <= |entries| <= |uuids| && FreshUuids(files, uuids) && !c.dryRun && IsValid(c, entries[i])
    ensures AlreadyReviewed(FilesAfter(c, files, entries, uuids, n), c.validate(entries[i]).value, entries[i])
    decreases n
  {
    if i < n - 1 {
      ValidEntriesAreReviewed(c, files, entries, uuids, n - 1, i);
      RoundKeepsReviewed(c, files, entries, uuids, n, c.validate(entries[i]).value, entries[i]);
    } else {
      ValidEntryIsReviewed(c, files, entries, uuids, i);
    }
  }

  /** Re-importing what has been imported writes nothing at all, and nothing counts as updated. */
  lemma ReimportWritesNothing(c: Setting, files: Files, entries: seq<Entry>, uuids: seq<string>, uuids': seq<string>,
      n: nat)
    requires n <= |entries| <= |uuids| && |entries| <= |uuids'| && FreshUuids(files, uuids) && !c.dryRun
    ensures var store := FilesAfter(c, files, entries, uuids, |entries|);
            && FilesAfter(c, store, entries, uuids', n) == store
            && TallyAfter(c, store, entries, uuids', n).updated == 0
  {
    var store := FilesAfter(c, files, entries, uuids, |entries|);
    forall i | 0 <= i < |entries| ensures OutcomeOf(c.validate, store, entries[i]) != Updated {
      if IsValid(c, entries[i]) {
        ValidEntriesAreReviewed(c, files, entries, uuids, |entries|, i);
      }
    }
    NothingToUpdate(c, store, entries, uuids', n);
    UpdatesAreSuccesses(entries, Outcomes(c, store, entries, uuids'), n);
  }

  lemma {:induction false} NothingToUpdate(c: Setting, store: Files, entries: seq<Entry>, uuids: seq<string>, n: nat)
    requires n <= |entries| <= |uuids|
    requires forall i {:trigger entries[i]} :: 0 <= i < |entries| ==>
      OutcomeOf(c.validate, store, entries[i]) != Updated
    ensures FilesAfter(c, store, entries, uuids, n) == store && Updates(Outcomes(c, store, entries, uuids), n) == 0
  {
    if n > 0 {
      NothingToUpdate(c, store, entries, uuids, n - 1);
    }
  }

  // ----- counting

  predicate AddsUp(t: Tally, n: nat) {
    && t.success + t.skipped + t.errors == n
    && t.updated == t.success
    && |t.messages| == t.errors
    && |t.classes| == t.success + t.skipped
    && |t.seen| + t.reimports == t.success + t.skipped
  }

  lemma CountAddsOne(t: Tally, i: nat, e: Entry, outcome: Outcome)
    requires AddsUp(t, i)
    ensures AddsUp(Count(t, i, e, outcome), i + 1)
  {
    if DedupeKey(e) in t.seen {
      assert t.seen + {DedupeKey(e)} == t.seen;
    }
  }

  lemma {:induction false} CountsAddUp(entries: seq<Entry>, outcomes: seq<Outcome>, n: nat)
    requires n <= |entries| == |outcomes|
    ensures AddsUp(TallyOf(entries, outcomes, n), n)
  {
    if n > 0 {
      CountsAddUp(entries, outcomes, n - 1);
      CountAddsOne(TallyOf(entries, outcomes, n - 1), n - 1, entries[n - 1], outcomes[n - 1]);
    }
  }

  /** Every entry is counted once; updates are successes; and the class and duplicate counts cover the valid entries. */
  lemma TallyAddsUp(c: Setting, files: Files, entries: seq<Entry>, uuids: seq<string>, n: nat)
    requires n <= |entries| <= |uuids|
    ensures AddsUp(TallyAfter(c, files, entries, uuids, n), n)
  {
    CountsAddUp(entries, Outcomes(c, files, entries, uuids), n);
  }

  lemma {:induction false} DryRunWritesNothing(dry: Setting, files: Files, entries: seq<Entry>, uuids: seq<string>,
      n: nat)
    requires n <= |entries| <= |uuids| && dry.dryRun
    ensures FilesAfter(dry, files, entries, uuids, n) == files
  {
    if n > 0 {
      DryRunWritesNothing(dry, files, entries, uuids, n - 1);
    }
  }

  // ----- what a dry run announces

  /** Whether an entry is rejected, and for which run it is accepted, depends on its path where the run is concerned:
      two accepted entries with one path belong to one run. */
  ghost predicate RunByPath(validate: Validator) {
    forall e, f :: validate(e).Ok? && validate(f).Ok? && e.artifactPath == f.artifactPath ==> validate(e) == validate(f)
  }

  lemma ScriptRunsByPath(s: Supported, runs: Runs, dryRun: bool)
    ensures RunByPath(SettingOf(s, runs, dryRun).validate)
  {
  }

  /** Entry `j` is accepted, is not on record when the import begins, and repeats an earlier accepted entry. */
  predicate Repeats(c: Setting, files: Files, entries: seq<Entry>, j: nat)
    requires j < |entries|
  {
    && IsValid(c, entries[j])
    && !AlreadyReviewed(files, c.validate(entries[j]).value, entries[j])
    && exists i | 0 <= i < j :: IsValid(c, entries[i]) && KeyOf(entries[i]) == KeyOf(entries[j])
  }

  /** A review in the store was there before or comes from an accepted entry with its key. */
  lemma {:induction false} WhereReviewsComeFrom(c: Setting, files: Files, entries: seq<Entry>, uuids: seq<string>,
      n: nat, name: string, key: Key)
    requires n <= |entries| <= |uuids|
    requires name in FilesAfter(c, files, entries, uuids, n)
      && HasKey(FilesAfter(c, files, entries, uuids, n)[name], key)
    ensures (name in files && HasKey(files[name], key))
            || exists i :: 0 <= i < n && IsValid(c, entries[i]) && KeyOf(entries[i]) == key
  {
    if n > 0 {
      var before := FilesAfter(c, files, entries, uuids, n - 1);
      if name in before && before[name] == FilesAfter(c, files, entries, uuids, n)[name] {
        WhereReviewsComeFrom(c, files, entries, uuids, n - 1, name, key);
      }
    }
  }

  /** When entry `j` comes up, it is on record if it was before, or if an earlier accepted entry has its key. */
  lemma OnRecordExactly(c: Setting, files: Files, entries: seq<Entry>, uuids: seq<string>, j: nat)
    requires j < |entries| <= |uuids| && FreshUuids(files, uuids) && !c.dryRun
    requires RunByPath(c.validate) && IsValid(c, entries[j])
    ensures AlreadyReviewed(FilesAfter(c, files, entries, uuids, j), c.validate(entries[j]).value, entries[j]) <==>
            AlreadyReviewed(files, c.validate(entries[j]).value, entries[j])
                 || exists i :: 0 <= i < j && IsValid(c, entries[i]) && KeyOf(entries[i]) == KeyOf(entries[j])
  {
    var e, runId, store := entries[j], c.validate(entries[j]).value, FilesAfter(c, files, entries, uuids, j);
    if AlreadyReviewed(files, runId, e) {
      StoreOnlyGrows(c, files, entries, uuids, j);
      ReviewedStaysReviewed(files, store, runId, e);
    }
    if i :| 0 <= i < j && IsValid(c, entries[i]) && KeyOf(entries[i]) == KeyOf(e) {
      ValidEntriesAreReviewed(c, files, entries, uuids, j, i);
      SameKeyReviewed(store, runId, entries[i], e);
    }
    if AlreadyReviewed(store, runId, e) {
      var name :| name in store && IsReviewName(name, runId) && HasKey(store[name], KeyOf(e));
      WhereReviewsComeFrom(c, files, entries, uuids, j, name, KeyOf(e));
    }
  }

  lemma SameKeyReviewed(files: Files, runId: string, e: Entry, f: Entry)
    requires KeyOf(e) == KeyOf(f)
    ensures AlreadyReviewed(files, runId, e) <==> AlreadyReviewed(files, runId, f)
  {
  }

  /** Entry by entry: the same failures, and the actual import also skips the entries that repeat. */
  lemma OutcomesCompare(c: Setting, dry: Setting, files: Files, entries: seq<Entry>, uuids: seq<string>, j: nat)
    requires j < |entries| <= |uuids| && FreshUuids(files, uuids) && !c.dryRun && dry == c.(dryRun := true)
    requires RunByPath(c.validate)
    ensures Compares(OutcomeAt(dry, files, entries, uuids, j), OutcomeAt(c, files, entries, uuids, j),
                     Repeats(c, files, entries, j))
  {
    DryRunWritesNothing(dry, files, entries, uuids, j);
    if IsValid(c, entries[j]) {
      OnRecordExactly(c, files, entries, uuids, j);
    }
  }

  /** The same failure, the same outcome, or an update announced for what will be skipped. */
  predicate Compares(announced: Outcome, actual: Outcome, repeats: bool) {
    if repeats then announced == Updated && actual == Skipped else announced == actual
  }

  /** How many of the first `n` entries repeat. */
  function RepeatCount(c: Setting, files: Files, entries: seq<Entry>, n: nat): nat
    requires n <= |entries|
  {
    if n == 0 then 0 else RepeatCount(c, files, entries, n - 1) + (if Repeats(c, files, entries, n - 1) then 1 else 0)
  }

  lemma {:induction false} CountsCompare(c: Setting, files: Files, entries: seq<Entry>, announced: seq<Outcome>,
      actual: seq<Outcome>, n: nat)
    requires n <= |entries| == |announced| == |actual|
    requires forall j {:trigger announced[j]} :: 0 <= j < n ==>
      Compares(announced[j], actual[j], Repeats(c, files, entries, j))
    ensures TallyOf(entries, announced, n).messages == TallyOf(entries, actual, n).messages
    ensures TallyOf(entries, announced, n).errors == TallyOf(entries, actual, n).errors
    ensures TallyOf(entries, actual, n).skipped
      == TallyOf(entries, announced, n).skipped + RepeatCount(c, files, entries, n)
    ensures TallyOf(entries, announced, n).success
      == TallyOf(entries, actual, n).success + RepeatCount(c, files, entries, n)
  {
    if n > 0 {
      CountsCompare(c, files, entries, announced, actual, n - 1);
      CompareOne(TallyOf(entries, announced, n - 1), TallyOf(entries, actual, n - 1), n - 1, entries[n - 1],
                 announced[n - 1], actual[n - 1], Repeats(c, files, entries, n - 1));
    }
  }

  lemma CompareOne(s: Tally, t: Tally, i: nat, e: Entry, announced: Outcome, actual: Outcome, repeats: bool)
    requires s.messages == t.messages && s.errors == t.errors && Compares(announced, actual, repeats)
    ensures Count(s, i, e, announced).messages == Count(t, i, e, actual).messages
    ensures Count(s, i, e, announced).errors == Count(t, i, e, actual).errors
    ensures Count(t, i, e, actual).skipped - t.skipped
            == Count(s, i, e, announced).skipped - s.skipped + (if repeats then 1 else 0)
    ensures Count(s, i, e, announced).success - s.success
            == Count(t, i, e, actual).success - t.success + (if repeats then 1 else 0)
  {
    CountOne(s, i, e, announced);
    CountOne(t, i, e, actual);
  }

  lemma CountOne(t: Tally, i: nat, e: Entry, outcome: Outcome)
    ensures Count(t, i, e, outcome).success == t.success + (if outcome.Updated? then 1 else 0)
    ensures Count(t, i, e, outcome).skipped == t.skipped + (if outcome.Skipped? then 1 else 0)
    ensures Count(t, i, e, outcome).errors == t.errors + (if outcome.Failed? then 1 else 0)
    ensures Count(t, i, e, outcome).messages ==
            if outcome.Failed? then t.messages + [(i, outcome.error)] else t.messages
  {
  }

  /** A dry run writes nothing and announces the same errors; it announces as an update what the actual import skips,
      once for every entry that repeats an earlier accepted one and was not on record before the import. */
  lemma DryRunForecast(c: Setting, dry: Setting, files: Files, entries: seq<Entry>, uuids: seq<string>, n: nat)
    requires n <= |entries| <= |uuids| && FreshUuids(files, uuids) && !c.dryRun && dry == c.(dryRun := true)
    requires RunByPath(c.validate)
    ensures FilesAfter(dry, files, entries, uuids, n) == files
    ensures var announced, actual := TallyAfter(dry, files, entries, uuids, n), TallyAfter(c, files, entries, uuids, n);
            && announced.messages == actual.messages && announced.errors == actual.errors
            && actual.skipped == announced.skipped + RepeatCount(c, files, entries, n)
            && announced.success == actual.success + RepeatCount(c, files, entries, n)
  {
    DryRunWritesNothing(dry, files, entries, uuids, n);
    var announced, actual := Outcomes(dry, files, entries, uuids), Outcomes(c, files, entries, uuids);
    forall j | 0 <= j < n ensures Compares(announced[j], actual[j], Repeats(c, files, entries, j)) {
      OutcomesCompare(c, dry, files, entries, uuids, j);
    }
    CountsCompare(c, files, entries, announced, actual, n);
  }

  lemma {:induction false} NoneRepeats(c: Setting, files: Files, entries: seq<Entry>, n: nat)
    requires n <= |entries|
    ensures RepeatCount(c, files, entries, n) == 0 <==> forall j :: 0 <= j < n ==> !Repeats(c, files, entries, j)
  {
    if n > 0 {
      NoneRepeats(c, files, entries, n - 1);
    }
  }

  /** So the forecast of the script is right exactly when no entry repeats an earlier one that was not on record. */
  lemma DryRunIsRightExactly(s: Supported, runs: Runs, files: Files, entries: seq<Entry>, uuids: seq<string>)
    requires |entries| <= |uuids| && FreshUuids(files, uuids)
    ensures TallyAfter(SettingOf(s, runs, true), files, entries, uuids, |entries|).skipped
            == TallyAfter(SettingOf(s, runs, false), files, entries, uuids, |entries|).skipped <==>
            forall j :: 0 <= j < |entries| ==> !Repeats(SettingOf(s, runs, false), files, entries, j)
  {
    var c := SettingOf(s, runs, false);
    ScriptRunsByPath(s, runs, false);
    DryRunForecast(c, c.(dryRun := true), files, entries, uuids, |entries|);
    assert c.(dryRun := true) == SettingOf(s, runs, true);
    NoneRepeats(c, files, entries, |entries|);
  }

  /** An accepted entry given twice to an empty store: announced as two updates, skipped the second time. */
  lemma TwiceIsSkippedOnce(c: Setting, e: Entry, uuids: seq<string>)
    requires RunByPath(c.validate) && IsValid(c, e) && !c.dryRun && |uuids| == 2 && FreshUuids(map[], uuids)
    ensures TallyAfter(c.(dryRun := true), map[], [e, e], uuids, 2).skipped == 0
    ensures TallyAfter(c, map[], [e, e], uuids, 2).skipped == 1
  {
    var entries, dry := [e, e], c.(dryRun := true);
    DryRunForecast(c, dry, map[], entries, uuids, 2);
    assert IsValid(c, entries[0]) && KeyOf(entries[0]) == KeyOf(entries[1]);
    assert Repeats(c, map[], entries, 1) && !Repeats(c, map[], entries, 0);
    assert RepeatCount(c, map[], entries, 2) == RepeatCount(c, map[], entries, 1) + 1;
    var announced := Outcomes(dry, map[], entries, uuids);
    OutcomesCompare(c, dry, map[], entries, uuids, 0);
    OutcomesCompare(c, dry, map[], entries, uuids, 1);
    assert OutcomeAt(dry, map[], entries, uuids, 0) != Skipped by {
      DryRunWritesNothing(dry, map[], entries, uuids, 0);
    }
    NothingSkipped(entries, announced, 2);
  }

  lemma {:induction false} NothingSkipped(entries: seq<Entry>, outcomes: seq<Outcome>, n: nat)
    requires n <= |entries| == |outcomes| && forall i :: 0 <= i < n ==> !outcomes[i].Skipped?
    ensures TallyOf(entries, outcomes, n).skipped == 0
  {
    if n > 0 {
      NothingSkipped(entries, outcomes, n - 1);
      CountOne(TallyOf(entries, outcomes, n - 1), n - 1, entries[n - 1], outcomes[n - 1]);
    }
  }

  /** Such an import of the script, so the forecast can be wrong. */
  lemma ForecastCanBeWrong(s: Supported, runs: Runs, e: Entry, uuids: seq<string>)
    requires "useful" in s.classes && runs == Runs(map[], map["a.json" := Artifact(EXECUTION_PURPOSE, "run")], map[])
    requires e == Entry("a.json", "useful", None, None, None, None, None, None, "run", "0")
    requires uuids == ["00000000", "11111111"]
    ensures TallyAfter(SettingOf(s, runs, true), map[], [e, e], uuids, 2).skipped == 0
    ensures TallyAfter(SettingOf(s, runs, false), map[], [e, e], uuids, 2).skipped == 1
  {
    var c := SettingOf(s, runs, false);
    assert Validate(s, runs, e) == Ok("run") by {
      assert "a.json"[0] == 'a' && "/"[0] == '/';
      assert !StartsWith("a.json", "/");
    }
    assert IsValid(c, e);
    assert uuids[0][0] == '0' && uuids[1][0] == '1';
    ScriptRunsByPath(s, runs, false);
    TwiceIsSkippedOnce(c, e, uuids);
    assert c.(dryRun := true) == SettingOf(s, runs, true);
  }
}
