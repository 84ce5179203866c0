/** Scan, shard, re-read, triage, verify: the stages of the claims pipeline put together. */
module Pipeline {
  import opened Wrappers
  import opened Text
  import opened Ordering
  import opened Checks
  import opened ClaimIds
  import opened Candidates
  import opened CandidateScan
  import opened CandidateText
  import opened CandidateShards
  import opened Ledger
  import opened DispositionRules
  import opened LedgerGenerator
  import RegistryLinks

  /** Every check of the ledger verifier but the one on high-risk notes. */
  predicate PassesOtherChecks(rows: seq<LedgerRow>, candidates: seq<Candidate>, claims: set<string>) {
    var known := Nonblank(CandidateIds(candidates));
    && DuplicateProblems(LedgerIds(rows), |rows|) == []
    && Collect(rows, EnumProblems, |rows|) == []
    && Collect(rows, ReasonProblems, |rows|) == []
    && Collect(rows, ClaimIdProblems(claims), |rows|) == []
    && Collect(rows, CoveredByProblems(claims), |rows|) == []
    && Collect(rows, CandidateIdProblems(known), |rows|) == []
    && Collect(rows, ReviewedAtProblems, |rows|) == []
    && Collect(rows, NotesProblems, |rows|) == []
    && CompletenessProblems(LedgerIds(rows), known) == []
  }

  predicate PassesHighRiskCheck(rows: seq<LedgerRow>, candidates: seq<Candidate>) {
    Collect(rows, HighRiskProblems(CandidateTexts(candidates, |candidates|)), |rows|) == []
  }

  /** Generator against verifier, for any candidates: the ledger passes all but the high-risk check exactly when the
      candidate ids are well-formed and distinct, the registered candidates' claims exist, and the date is not blank. */
  lemma GeneratedLedgerPasses(candidates: seq<Candidate>, today: string, claims: set<string>)
    ensures PassesOtherChecks(LedgerOf(candidates, today), candidates, claims) <==>
            && AllCandidateIds(CandidateIds(candidates)) && Distinct(CandidateIds(candidates))
            && (forall i :: 0 <= i < |candidates| ==> ReferenceHolds(candidates[i], claims))
            && (candidates == [] || Strip(today) != "")
  {
    GeneratedAlwaysPasses(candidates, today, claims);
    GeneratedClaimIds(candidates, today, claims);
    GeneratedReviewedAt(candidates, today);
    GeneratedCandidateIds(candidates, today);
    GeneratedDuplicates(candidates, today);
    if AllCandidateIds(CandidateIds(candidates)) {
      NoBlankIds(CandidateIds(candidates));
    }
  }

  lemma NoBlankIds(ids: seq<string>)
    requires AllCandidateIds(ids)
    ensures "" !in ids
    ensures Distinct(ids) <==> forall i, j :: 0 <= i < j < |ids| ==> ids[i] == "" || ids[i] != ids[j]
  {
    forall i | 0 <= i < |ids| ensures ids[i] != "" {
      assert MatchesCandidateId(ids[i]);
    }
  }

  // ----- the corpus

  /** The first 12 hex digits of SHA-1 are 12 hex digits. */
  ghost predicate DigestIsHex(lib: Library) {
    forall text :: |lib.digest(text)| == 12 && forall i :: 0 <= i < 12 ==> IsHex(lib.digest(text)[i])
  }

  function Scanned(lib: Library, inventory: seq<InventoryRow>, docs: seq<Document>): seq<Candidate> {
    ScanOfAll(lib, inventory, docs, |docs|)
  }

  /** What the scan assumes of its corpus: distinct paths without bars, and no digest collision on it. */
  ghost predicate SoundCorpus(lib: Library, inventory: seq<InventoryRow>, docs: seq<Document>) {
    DistinctPaths(docs) && BarFree(docs) && DigestIsHex(lib) && CollisionFree(lib, Scanned(lib, inventory, docs))
  }

  lemma ScannedIdIsWellFormed(lib: Library, c: Candidate)
    requires DigestIsHex(lib) && IsScanned(lib, c)
    ensures MatchesCandidateId(c.candidateId) && Strip(c.candidateId) == c.candidateId
  {
    var d := lib.digest(PreimageOf(c));
    assert c.candidateId == CANDIDATE_PREFIX + d;
    forall i | |CANDIDATE_PREFIX| <= i < |c.candidateId| ensures IsHex(c.candidateId[i]) {
      assert c.candidateId[i] == d[i - |CANDIDATE_PREFIX|];
    }
    assert IsHex(c.candidateId[|c.candidateId| - 1]);
    StripUnchanged(c.candidateId);
  }

  lemma ScannedIsNotRegistered(lib: Library, c: Candidate, claims: set<string>)
    requires IsScanned(lib, c)
    ensures ReferenceHolds(c, claims)
  {
    assert Strip("") == "";
  }

  /** Scanned candidates meet every condition of `GeneratedLedgerPasses`. */
  lemma ScanFeedsLedger(lib: Library, inventory: seq<InventoryRow>, docs: seq<Document>, claims: set<string>)
    requires SoundCorpus(lib, inventory, docs)
    ensures var cs := Scanned(lib, inventory, docs);
            && AllCandidateIds(CandidateIds(cs)) && Distinct(CandidateIds(cs))
            && forall i :: 0 <= i < |cs| ==> ReferenceHolds(cs[i], claims)
  {
    var cs := Scanned(lib, inventory, docs);
    ScanOrigins(lib, inventory, docs, |docs|);
    ScannedIdsAreDistinct(lib, inventory, docs);
    forall i | 0 <= i < |cs|
      ensures MatchesCandidateId(cs[i].candidateId) && CandidateIds(cs)[i] == Ids(cs)[i]
      ensures ReferenceHolds(cs[i], claims) {
      assert ComesFrom(lib, cs[i], docs, |docs|);
      ScannedIdIsWellFormed(lib, cs[i]);
      ScannedIsNotRegistered(lib, cs[i], claims);
    }
    assert CandidateIds(cs) == Ids(cs);
  }

  /** The directory after the scan has been written to the main table, sharded, and read back. */
  function ReadBackAfter(dir: Directory<Candidate>, cs: seq<Candidate>, numShards: nat): seq<Candidate>
    requires 0 < numShards
  {
    ReadBack(ShardCsvOf(dir[MAIN_TABLE := cs], numShards))
  }

  /** At most 100 shards are used for this many rows; asking for at most 100 is enough. */
  predicate FewShards(rows: nat, numShards: nat)
    requires 0 < numShards
  {
    if rows == 0 then true else
      ChunksFitShards(rows, numShards);
      ChunkCount(rows, ShardSize(rows, numShards)) <= 100
  }

  lemma ReadBackIsScan(dir: Directory<Candidate>, cs: seq<Candidate>, numShards: nat)
    requires 0 < numShards && FewShards(|cs|, numShards) && ShardNames(dir) == {}
    ensures ReadBackAfter(dir, cs, numShards) == cs
  {
    var written := dir[MAIN_TABLE := cs];
    assert MAIN_TABLE[26] == '.' && SHARD_PREFIX[26] == '-';
    assert !IsShardName(MAIN_TABLE);
    assert forall name :: name in ShardNames(written) ==> name in ShardNames(dir);
    assert ShardNames(written) == {};
    if cs == [] {
      assert ShardFiles(written) == [];
    } else {
      ShardRoundTrip(written, numShards);
    }
  }

  /** End to end: scanning any sound corpus, sharding, re-reading and triaging gives a ledger that passes every check
      of the verifier except possibly the high-risk one, and passes that one exactly when triage gave no generic note
      to a candidate whose text makes a high-risk normative claim. */
  lemma PipelineLedger(lib: Library, inventory: seq<InventoryRow>, docs: seq<Document>, dir: Directory<Candidate>,
                       numShards: nat, today: string, claims: set<string>)
    requires SoundCorpus(lib, inventory, docs)
    requires 0 < numShards && FewShards(|Scanned(lib, inventory, docs)|, numShards)
    requires ShardNames(dir) == {} && Strip(today) != ""
    ensures var cs := ReadBackAfter(dir, Scanned(lib, inventory, docs), numShards);
            var rows := LedgerOf(cs, today);
            && cs == Scanned(lib, inventory, docs)
            && PassesOtherChecks(rows, cs, claims)
            && (PassesHighRiskCheck(rows, cs) <==>
                forall i :: 0 <= i < |cs| ==>
                  !(HasGenericNote(cs[i]) && ContainsHighRiskNormativeClaim(cs[i].candidateText)))
  {
    var cs := Scanned(lib, inventory, docs);
    ReadBackIsScan(dir, cs, numShards);
    ScanFeedsLedger(lib, inventory, docs, claims);
    GeneratedLedgerPasses(cs, today, claims);
    NoBlankIds(CandidateIds(cs));
    GeneratedHighRisk(cs, today);
  }

  /** On a scanned candidate the length exemption of the high-risk check is idle: what is left is the table row, the
      plain list item, and the phrases themselves. */
  lemma HighRiskOfScanned(lib: Library, c: Candidate)
    requires IsScanned(lib, c)
    ensures var t := c.candidateText;
            ContainsHighRiskNormativeClaim(t) <==>
            && !StartsWith(t, "|")
            && !(StartsWith(t, "- ") && ':' !in t[..if |t| < 50 then |t| else 50])
            && ContainsAny(Lower(t), HIGH_RISK_PATTERNS)
  {
  }

  // ----- a candidate of the default route that fails the high-risk check

  const WITNESS_PATH := "docs/Low-value context from: x.md"
  const WITNESS_LINE := "The service must not write data"

  /** The inventory's row for a generated document of this name, and the document with its one line. */
  const WITNESS_ROW := InventoryRow(WITNESS_PATH, "generated", "current", "false")
  const WITNESS := Document(WITNESS_PATH, Some(WITNESS_LINE))

  function PathWitness(lib: Library): Candidate {
    ProseCandidate(lib, DocInfo(WITNESS_PATH, "generated", "current", false), WITNESS_LINE)
  }

  lemma PathWitnessIsScanned(lib: Library)
    ensures IsScanned(lib, PathWitness(lib)) && IsOther(PathWitness(lib))
  {
    StripUnchanged(WITNESS_LINE);
    StripUnchanged("ignored_by_policy");
    StripUnchanged("current");
    assert "1"[0] == '1' && IsDigits("1");
    GeneratedIsIgnored();
    assert "current"[0] == 'c' && "historical"[0] == 'h' && "stale"[0] == 's' && "unknown"[0] == 'u';
    assert "ignored_by_policy"[0] == 'i' && "registered"[0] == 'r' && "unregistered"[0] == 'u';
    assert "ignored_by_policy"[8] == 'b' && "ignored_stale"[8] == 's';
  }

  lemma GeneratedIsIgnored()
    ensures DetermineRegistrationStatus("current", "generated") == "ignored_by_policy"
  {
    assert "generated"[0] == 'g' && "historical"[0] == 'h' && "external_import"[0] == 'e';
    assert "current"[0] == 'c' && "stale"[0] == 's' && "unknown"[0] == 'u';
  }

  /** What the scanner makes of a first line of prose, when the patterns call it normative. */
  function ProseCandidate(lib: Library, info: DocInfo, s: string): Candidate {
    Candidate(GenerateCandidateId(lib, info.path, s, "normative", "1"), info.path, "1", "line-1", s, "normative",
              "normative", info.docClass, info.truthStatus, if info.traceRequired then "true" else "false", "medium",
              "", DetermineRegistrationStatus(info.truthStatus, info.docClass), "")
  }

  lemma ProseIsFound(lib: Library, info: DocInfo, s: string)
    requires IsProse(s) && |s| >= MIN_PROSE_LENGTH && 'A' <= s[0] <= 'Z' && lib.detect(s) == ["normative"]
    ensures CandidateOf(lib, info, 1, s) == Some(ProseCandidate(lib, info, s)) && !IsFence(s)
  {
    ProseIsExtracted(s);
    ProseIsNotSkipped(s);
    NormativeIsMedium();
    FirstNumber();
  }

  lemma FirstNumber()
    ensures Decimal(1) == "1" && "line-" + Decimal(1) == "line-1" && Join(["normative"], '|') == "normative"
  {
  }

  lemma ProseIsNotSkipped(s: string)
    requires s != "" && 'A' <= s[0] <= 'Z' && Strip(s) == s
    ensures !IsSkipped(s) && !IsFence(s)
  {
    assert "```"[0] == '`' && "    "[0] == ' ' && "\t"[0] == '\t' && "#"[0] == '#';
    assert s[0] !in "|-: ";
  }

  lemma NormativeIsMedium()
    ensures DetermineSeverity(["normative"]) == "medium"
  {
    assert "normative"[0] == 'n' && "security"[0] == 's' && "source_of_truth"[0] == 's';
    assert ["normative"][0] == "normative";
  }

  lemma WitnessIsProse()
    ensures IsProse(WITNESS_LINE)
  {
    var s := WITNESS_LINE;
    forall i | 0 <= i < |s| ensures PlainAt(s, i) {
    }
  }

  lemma WitnessIsLong()
    ensures |WITNESS_LINE| >= MIN_PROSE_LENGTH && WITNESS_LINE[0] == 'T'
  {
  }

  lemma WitnessInfo()
    ensures InfoOf([WITNESS_ROW], WITNESS_PATH) == DocInfo(WITNESS_PATH, "generated", "current", false)
  {
    StripUnchanged(WITNESS_PATH);
    StripUnchanged("generated");
    StripUnchanged("current");
    StripUnchanged("false");
    assert Lower("false")[0] == 'f' && "true"[0] == 't';
  }

  lemma OneResult<T>(offer: Offer<T>, line: string, rs: seq<Option<T>>)
    requires !IsFence(line) && offer(1, line).Some? && |rs| == 1 && rs[0] == ResultAt(offer, [line], 0)
    ensures Somes(rs, 1) == [offer(1, line).value]
  {
    assert Fences([line], 0) == 0 && Somes(rs, 0) == [];
  }

  lemma OneLine(line: string)
    requires '\n' !in line
    ensures Split(line, '\n') == [line]
  {
    SplitHead(line, "", '\n');
    assert line + "" == line && Split("", '\n') == [""];
  }

  /** The scan of a document that is one line of prose. */
  lemma ProseDocument(lib: Library, row: InventoryRow, path: string, line: string)
    requires IsProse(line) && |line| >= MIN_PROSE_LENGTH && 'A' <= line[0] <= 'Z'
    requires lib.detect(line) == ["normative"]
    ensures ScanOfDocument(lib, [row], Document(path, Some(line))) == [ProseCandidate(lib, InfoOf([row], path), line)]
  {
    var info := InfoOf([row], path);
    ProseIsFound(lib, info, line);
    assert '\n' !in line by {
      forall i | 0 <= i < |line| ensures line[i] != '\n' {
        assert PlainAt(line, i);
      }
    }
    OneLine(line);
    OneResult(OfferOf(lib, info), line, LineResults(lib, info, [line]));
  }

  /** The scanner finds it: the one line of a document whose name holds a generic phrase, in the scanner's scope. */
  lemma PathWitnessIsFound(lib: Library)
    requires lib.detect(WITNESS_LINE) == ["normative"]
    ensures ScanOfDocument(lib, [WITNESS_ROW], WITNESS) == [PathWitness(lib)]
  {
    WitnessInfo();
    WitnessIsProse();
    WitnessIsLong();
    ProseDocument(lib, WITNESS_ROW, WITNESS_PATH, WITNESS_LINE);
  }

  /** The default route fails too: no candidate of the low-value branch is involved, and the check still reports. */
  lemma DefaultRouteCanFail(lib: Library, today: string)
    requires DigestIsHex(lib) && lib.detect(WITNESS_LINE) == ["normative"]
    ensures var cs := ScanOfDocument(lib, [WITNESS_ROW], WITNESS);
            (forall i :: 0 <= i < |cs| ==> IsOther(cs[i])) && !PassesHighRiskCheck(LedgerOf(cs, today), cs)
  {
    var c := PathWitness(lib);
    PathWitnessIsFound(lib);
    PathWitnessIsScanned(lib);
    ScannedIdIsWellFormed(lib, c);
    PathHasPhrase();
    TextIsHighRisk(lib, c);
    OneFails(c, today);
  }

  lemma OneFails(c: Candidate, today: string)
    requires Strip(c.candidateId) != "" && HasGenericNote(c) && ContainsHighRiskNormativeClaim(c.candidateText)
    ensures !PassesHighRiskCheck(LedgerOf([c], today), [c])
  {
    assert CandidateIds([c]) == [Strip(c.candidateId)];
    GeneratedHighRisk([c], today);
    assert [c][0] == c;
  }

  lemma PathHasPhrase()
    ensures ContainsAny(Strip(WITNESS_PATH), GENERIC_PATTERNS)
  {
    StripUnchanged(WITNESS_PATH);
    PathIsSplit();
    ContainsMiddle("docs/", GENERIC_PATTERNS[1], " x.md");
  }

  lemma PathIsSplit()
    ensures WITNESS_PATH == "docs/" + GENERIC_PATTERNS[1] + " x.md"
  {
  }

  lemma ContainsMiddle(a: string, p: string, b: string)
    ensures Contains(a + p + b, p)
  {
    assert (a + p + b)[|a|..|a| + |p|] == p;
    assert OccursAt(a + p + b, p, |a|);
  }

  lemma TextIsHighRisk(lib: Library, c: Candidate)
    requires IsScanned(lib, c) && c.candidateText == WITNESS_LINE
    ensures ContainsHighRiskNormativeClaim(c.candidateText)
  {
    PhraseOccurs();
    PhraseIsLower();
    WitnessIsLong();
    RiskyByPhrase(lib, c, 1, 12);
  }

  lemma PhraseIsLower()
    ensures forall j :: 0 <= j < |HIGH_RISK_PATTERNS[1]| ==>
      LowerChar(HIGH_RISK_PATTERNS[1][j]) == HIGH_RISK_PATTERNS[1][j]
  {
    assert HIGH_RISK_PATTERNS[1] == "must not";
  }

  /** A scanned text that begins like prose and holds a risky phrase is high-risk. */
  lemma RiskyByPhrase(lib: Library, c: Candidate, k: nat, i: nat)
    requires IsScanned(lib, c) && c.candidateText[0] != '|' && c.candidateText[0] != '-'
    requires k < |HIGH_RISK_PATTERNS| && OccursAt(c.candidateText, HIGH_RISK_PATTERNS[k], i)
    requires forall j :: 0 <= j < |HIGH_RISK_PATTERNS[k]| ==>
      LowerChar(HIGH_RISK_PATTERNS[k][j]) == HIGH_RISK_PATTERNS[k][j]
    ensures ContainsHighRiskNormativeClaim(c.candidateText)
  {
    HighRiskOfScanned(lib, c);
    assert "|"[0] == '|' && "- "[0] == '-';
    LowerKeeps(c.candidateText, HIGH_RISK_PATTERNS[k], i);
  }

  lemma PhraseOccurs()
    ensures OccursAt(WITNESS_LINE, HIGH_RISK_PATTERNS[1], 12)
  {
  }

  lemma LowerKeeps(t: string, p: string, i: nat)
    requires OccursAt(t, p, i) && forall j :: 0 <= j < |p| ==> LowerChar(p[j]) == p[j]
    ensures Contains(Lower(t), p)
  {
    assert OccursAt(Lower(t), p, i);
  }

  // ----- the registry

  /** The claims the ledger verifier accepts: the registry's non-blank claim ids. */
  function ValidClaims(rows: seq<RegistryLinks.ClaimRow>): set<string> {
    set row | row in rows && RegistryLinks.ClaimOf(row) != "" :: RegistryLinks.ClaimOf(row)
  }

  lemma {:induction false} OwnCandidate(candidates: seq<Candidate>, n: nat, i: nat)
    requires i < n <= |candidates| && Distinct(CandidateIds(candidates)) && "" !in CandidateIds(candidates)
    ensures CandidateIds(candidates)[i] in RegistryLinks.CandidatesById(candidates, n)
    ensures RegistryLinks.CandidatesById(candidates, n)[CandidateIds(candidates)[i]] == candidates[i]
  {
    var ids := CandidateIds(candidates);
    assert ids[i] in ids && ids[n - 1] in ids;
    if i < n - 1 {
      OwnCandidate(candidates, n - 1, i);
    }
  }

  lemma LinkGivesReference(rows: seq<RegistryLinks.ClaimRow>, cid: string, c: Candidate)
    requires RegistryLinks.BackOk(rows, RegistryLinks.ListsByClaim(rows), cid, c)
    requires forall i :: 0 <= i < |rows| ==> MatchesClaimId(RegistryLinks.ClaimOf(rows[i]))
    ensures ReferenceHolds(c, ValidClaims(rows))
  {
    if RegistryLinks.LinkOf(c) != "" {
      var k :| 0 <= k < |rows| && RegistryLinks.ClaimOf(rows[k]) == RegistryLinks.LinkOf(c);
      assert rows[k] in rows;
    }
  }

  lemma LinksGiveReferences(rows: seq<RegistryLinks.ClaimRow>, candidates: seq<Candidate>, i: nat)
    requires RegistryLinks.AllBackOk(rows, RegistryLinks.CandidatesById(candidates, |candidates|)) && i < |candidates|
    requires forall i :: 0 <= i < |rows| ==> MatchesClaimId(RegistryLinks.ClaimOf(rows[i]))
    requires Distinct(CandidateIds(candidates)) && "" !in CandidateIds(candidates)
    ensures ReferenceHolds(candidates[i], ValidClaims(rows))
  {
    OwnCandidate(candidates, |candidates|, i);
    LinkGivesReference(rows, CandidateIds(candidates)[i], candidates[i]);
  }

  /** Two verifiers agree: a registry whose link check is silent and whose claim ids are well-formed makes the
      generated ledger pass the claim-id check, whatever candidates are registered. */
  lemma LinksMakeLedgerPass(rows: seq<RegistryLinks.ClaimRow>, candidates: seq<Candidate>, today: string)
    requires forall i :: 0 <= i < |rows| ==> MatchesClaimId(RegistryLinks.ClaimOf(rows[i]))
    requires Distinct(CandidateIds(candidates)) && "" !in CandidateIds(candidates)
    ensures var ledger := LedgerOf(candidates, today);
            RegistryLinks.LinkProblems(rows, candidates) == [] ==>
              Collect(ledger, ClaimIdProblems(ValidClaims(rows)), |ledger|) == []
  {
    RegistryLinks.SilenceIsOk(rows, candidates);
    if RegistryLinks.LinkProblems(rows, candidates) == [] {
      forall i | 0 <= i < |candidates| ensures ReferenceHolds(candidates[i], ValidClaims(rows)) {
        LinksGiveReferences(rows, candidates, i);
      }
      GeneratedClaimIds(candidates, today, ValidClaims(rows));
    }
  }
}
