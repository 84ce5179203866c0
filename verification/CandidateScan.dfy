/** Scanning every document in scope, and why the candidate ids come out pairwise distinct. */
module CandidateScan {
  import opened Wrappers
  import opened Text
  import opened Ordering
  import opened ClaimIds
  import opened Candidates

  function ScanOfAll(lib: Library, inventory: seq<InventoryRow>, docs: seq<Document>, n: nat): seq<Candidate>
    requires n <= |docs|
  {
    if n == 0 then [] else ScanOfAll(lib, inventory, docs, n - 1) + ScanOfDocument(lib, inventory, docs[n - 1])
  }

  function Unreadable(docs: seq<Document>, n: nat): seq<string>
    requires n <= |docs|
  {
    if n == 0 then [] else Unreadable(docs, n - 1) + (if docs[n - 1].content.None? then [docs[n - 1].path] else [])
  }

  method ScanAllDocuments(lib: Library, inventory: seq<InventoryRow>, docs: seq<Document>)
    returns (allCandidates: seq<Candidate>, allErrors: seq<string>)
    ensures allCandidates == ScanOfAll(lib, inventory, docs, |docs|)
    ensures allErrors == Unreadable(docs, |docs|)
  {
    allCandidates, allErrors := [], [];
    for n := 0 to |docs|
      invariant allCandidates == ScanOfAll(lib, inventory, docs, n)
      invariant allErrors == Unreadable(docs, n)
    {
      var result := ScanDocument(lib, inventory, docs[n]);
      allCandidates := allCandidates + result.candidates;
      allErrors := allErrors + result.errors;
    }
  }

  function PreimageOf(c: Candidate): string {
    Preimage(c.docPath, c.lineNumber, c.candidateText, c.detectedClaimTypes)
  }

  /** What every scanned candidate looks like. */
  predicate IsScanned(lib: Library, c: Candidate) {
    && c.candidateId == CANDIDATE_PREFIX + lib.digest(PreimageOf(c))
    && c.lineNumber != "" && IsDigits(c.lineNumber)
    && |c.candidateText| >= MIN_PROSE_LENGTH && Strip(c.candidateText) == c.candidateText
    && c.registeredClaimId == "" && c.registrationStatus == DetermineRegistrationStatus(c.truthStatus, c.docClass)
  }

  lemma CandidateIsScanned(lib: Library, info: DocInfo, lineNum: nat, line: string)
    requires CandidateOf(lib, info, lineNum, line).Some?
    ensures var c := CandidateOf(lib, info, lineNum, line).value;
            IsScanned(lib, c) && c.docPath == info.path && c.lineNumber == Decimal(lineNum)
  {
    StripTwice(CollapseSpaces(DropMarks(Unlink(Strip(Strip(line))))));
  }

  /** Same document, same line: the two parts of a candidate's origin. */
  predicate SameOrigin(c: Candidate, d: Candidate) {
    c.docPath == d.docPath && c.lineNumber == d.lineNumber
  }

  predicate DistinctOrigins(cs: seq<Candidate>) {
    forall i, j :: 0 <= i < j < |cs| ==> !SameOrigin(cs[i], cs[j])
  }

  lemma DocumentOrigins(lib: Library, inventory: seq<InventoryRow>, doc: Document)
    ensures var cs := ScanOfDocument(lib, inventory, doc);
            DistinctOrigins(cs) && forall i :: 0 <= i < |cs| ==> IsScanned(lib, cs[i]) && cs[i].docPath == doc.path
  {
    if doc.content.Some? {
      LineOrigins(lib, InfoOf(inventory, doc.path), Split(doc.content.value, '\n'));
    }
  }

  lemma LineOrigins(lib: Library, info: DocInfo, lines: seq<string>)
    ensures var cs := ScanOf(lib, info, lines);
            DistinctOrigins(cs) && forall i :: 0 <= i < |cs| ==> IsScanned(lib, cs[i]) && cs[i].docPath == info.path
  {
    var cs := ScanOf(lib, info, lines);
    var ps := ScanIsExact(lib, info, lines);
    LineNumbersDiffer(lib, info, lines, cs, ps);
  }

  lemma LineNumbersDiffer(lib: Library, info: DocInfo, lines: seq<string>, cs: seq<Candidate>, ps: seq<nat>)
    requires |ps| == |cs| && forall i, j :: 0 <= i < j < |ps| ==> ps[i] < ps[j]
    requires forall i :: 0 <= i < |ps| ==>
      ps[i] < |lines| && CandidateOf(lib, info, ps[i] + 1, lines[ps[i]]) == Some(cs[i])
    ensures DistinctOrigins(cs) && forall i :: 0 <= i < |cs| ==> IsScanned(lib, cs[i]) && cs[i].docPath == info.path
  {
    forall i | 0 <= i < |cs|
      ensures IsScanned(lib, cs[i]) && cs[i].docPath == info.path && cs[i].lineNumber == Decimal(ps[i] + 1) {
      CandidateIsScanned(lib, info, ps[i] + 1, lines[ps[i]]);
    }
    forall i, j | 0 <= i < j < |cs| ensures !SameOrigin(cs[i], cs[j]) {
      if Decimal(ps[i] + 1) == Decimal(ps[j] + 1) {
        DecimalIsInjective(ps[i] + 1, ps[j] + 1);
      }
    }
  }

  predicate DistinctPaths(docs: seq<Document>) {
    forall i, j :: 0 <= i < j < |docs| ==> docs[i].path != docs[j].path
  }

  /** The candidate was scanned from one of the first `n` documents. */
  ghost predicate ComesFrom(lib: Library, c: Candidate, docs: seq<Document>, n: nat)
    requires n <= |docs|
  {
    IsScanned(lib, c) && exists i :: 0 <= i < n && docs[i].path == c.docPath
  }

  lemma {:induction false} ScanOrigins(lib: Library, inventory: seq<InventoryRow>, docs: seq<Document>, n: nat)
    requires n <= |docs| && DistinctPaths(docs)
    ensures var cs := ScanOfAll(lib, inventory, docs, n);
            DistinctOrigins(cs) && forall i :: 0 <= i < |cs| ==> ComesFrom(lib, cs[i], docs, n)
  {
    if n > 0 {
      ScanOrigins(lib, inventory, docs, n - 1);
      var cs, ds := ScanOfAll(lib, inventory, docs, n - 1), ScanOfDocument(lib, inventory, docs[n - 1]);
      DocumentOrigins(lib, inventory, docs[n - 1]);
      AppendOrigins(lib, docs, n, cs, ds);
    }
  }

  lemma AppendOrigins(lib: Library, docs: seq<Document>, n: nat, cs: seq<Candidate>, ds: seq<Candidate>)
    requires 0 < n <= |docs| && DistinctPaths(docs) && DistinctOrigins(cs) && DistinctOrigins(ds)
    requires forall i :: 0 <= i < |cs| ==> ComesFrom(lib, cs[i], docs, n - 1)
    requires forall i :: 0 <= i < |ds| ==> IsScanned(lib, ds[i]) && ds[i].docPath == docs[n - 1].path
    ensures DistinctOrigins(cs + ds) && forall i :: 0 <= i < |cs + ds| ==> ComesFrom(lib, (cs + ds)[i], docs, n)
  {
    var all := cs + ds;
    forall i | 0 <= i < |all| ensures ComesFrom(lib, all[i], docs, n) {
      if i < |cs| {
        assert ComesFrom(lib, cs[i], docs, n - 1);
      } else {
        assert all[i] == ds[i - |cs|];
      }
    }
    forall i, j | 0 <= i < j < |all| ensures !SameOrigin(all[i], all[j]) {
      if j < |cs| {
        assert !SameOrigin(cs[i], cs[j]);
      } else if i < |cs| {
        assert ComesFrom(lib, cs[i], docs, n - 1) && all[j] == ds[j - |cs|];
      } else {
        assert !SameOrigin(ds[i - |cs|], ds[j - |cs|]);
      }
    }
  }

  /** The text that is hashed determines the document and the line it came from. */
  lemma PreimageNamesOrigin(c: Candidate, d: Candidate)
    requires '|' !in c.docPath && '|' !in d.docPath && IsDigits(c.lineNumber) && IsDigits(d.lineNumber)
    requires PreimageOf(c) == PreimageOf(d)
    ensures SameOrigin(c, d)
  {
    var cRest := Strip(Lower(c.candidateText)) + "|" + c.detectedClaimTypes;
    var dRest := Strip(Lower(d.candidateText)) + "|" + d.detectedClaimTypes;
    var (cTail, dTail) := (c.lineNumber + "|" + cRest, d.lineNumber + "|" + dRest);
    assert PreimageOf(c) == c.docPath + "|" + cTail && PreimageOf(d) == d.docPath + "|" + dTail;
    FirstSeparator(c.docPath, cTail, d.docPath, dTail, '|');
    FirstSeparator(c.lineNumber, cRest, d.lineNumber, dRest, '|');
  }

  /** The digest does not collide on the texts hashed in this scan. */
  predicate CollisionFree(lib: Library, cs: seq<Candidate>) {
    forall i, j :: 0 <= i < |cs| && 0 <= j < |cs| && lib.digest(PreimageOf(cs[i])) == lib.digest(PreimageOf(cs[j])) ==>
      PreimageOf(cs[i]) == PreimageOf(cs[j])
  }

  predicate BarFree(docs: seq<Document>) {
    forall i :: 0 <= i < |docs| ==> '|' !in docs[i].path
  }

  function Ids(cs: seq<Candidate>): (ids: seq<string>)
    ensures |ids| == |cs| && forall i :: 0 <= i < |cs| ==> ids[i] == cs[i].candidateId
  {
    seq(|cs|, i requires 0 <= i < |cs| => cs[i].candidateId)
  }

  /** Over all documents, no two candidates share an id. */
  lemma ScannedIdsAreDistinct(lib: Library, inventory: seq<InventoryRow>, docs: seq<Document>)
    requires DistinctPaths(docs) && BarFree(docs)
    requires CollisionFree(lib, ScanOfAll(lib, inventory, docs, |docs|))
    ensures Distinct(Ids(ScanOfAll(lib, inventory, docs, |docs|)))
  {
    var cs := ScanOfAll(lib, inventory, docs, |docs|);
    ScanOrigins(lib, inventory, docs, |docs|);
    forall i, j | 0 <= i < j < |cs| ensures cs[i].candidateId != cs[j].candidateId {
      assert ComesFrom(lib, cs[i], docs, |docs|) && ComesFrom(lib, cs[j], docs, |docs|) && !SameOrigin(cs[i], cs[j]);
      if cs[i].candidateId == cs[j].candidateId {
        var p, q := lib.digest(PreimageOf(cs[i])), lib.digest(PreimageOf(cs[j]));
        assert p == (CANDIDATE_PREFIX + p)[|CANDIDATE_PREFIX|..] && q == (CANDIDATE_PREFIX + q)[|CANDIDATE_PREFIX|..];
        PreimageNamesOrigin(cs[i], cs[j]);
      }
    }
  }

  /** After the fence test, the scanner's code-block test never fires: a stripped line has no leading blank or tab. */
  lemma CodeBlockTestIsIdle(line: string)
    requires !IsFence(line)
    ensures !IsCodeBlock(Strip(line))
  {
    StripTwice(line);
    var k := StripWindow(line);
  }
}
