/** The scanner that turns documentation lines into claim candidates, outside fenced code blocks. */
module Candidates {
  import opened Wrappers
  import opened Text
  import opened ClaimIds

  const MIN_PROSE_LENGTH := 30

  datatype Candidate = Candidate(
    candidateId: string,
    docPath: string,
    lineNumber: string,
    anchor: string,
    candidateText: string,
    detectedClaimTypes: string,
    detectionRules: string,
    docClass: string,
    truthStatus: string,
    claimTraceRequired: string,
    candidateSeverity: string,
    registeredClaimId: string,
    registrationStatus: string,
    notes: string)

  datatype InventoryRow = InventoryRow(docPath: string, docClass: string, truthStatus: string,
    claimTraceRequired: string)

  /** A document in scope; `None` when its text cannot be read. */
  datatype Document = Document(path: string, content: Option<string>)

  /** What the scanner takes from outside: the claim-type patterns and the first 12 hex digits of SHA-1. */
  datatype Library = Library(detect: string -> seq<string>, digest: string -> string)

  // ----- what the inventory says of a document

  function Lookup(inventory: seq<InventoryRow>, path: string): Option<InventoryRow> {
    if inventory == [] then None
    else if Strip(inventory[0].docPath) == path then Some(inventory[0])
    else Lookup(inventory[1..], path)
  }

  datatype DocInfo = DocInfo(path: string, docClass: string, truthStatus: string, traceRequired: bool)

  function InfoOf(inventory: seq<InventoryRow>, path: string): DocInfo {
    match Lookup(inventory, path)
    case None => DocInfo(path, "unknown", "unknown", false)
    case Some(row) =>
      DocInfo(path, Strip(row.docClass), Strip(row.truthStatus), Lower(Strip(row.claimTraceRequired)) == "true")
  }

  // ----- classification of a line

  predicate IsFence(line: string) {
    StartsWith(Strip(line), "```")
  }

  predicate IsPureHeading(text: string) {
    var stripped := Strip(text);
    stripped != "" && StartsWith(stripped, "#") && '\n' !in stripped
  }

  predicate IsMarkdownHeading(text: string) {
    StartsWith(text, "# ") || StartsWith(text, "## ") || StartsWith(text, "### ") || StartsWith(text, "#### ")
  }

  predicate IsTableSeparator(text: string) {
    var stripped := Strip(text);
    stripped != "" && (forall i | 0 <= i < |stripped| :: stripped[i] in "|-: ") && '|' in stripped
  }

  predicate IsCodeBlock(text: string) {
    var stripped := Strip(text);
    StartsWith(stripped, "```") || StartsWith(stripped, "    ") || StartsWith(stripped, "\t")
  }

  predicate IsSkipped(stripped: string) {
    || stripped == ""
    || (IsPureHeading(stripped) && !IsMarkdownHeading(stripped))
    || IsTableSeparator(stripped)
    || IsCodeBlock(stripped)
  }

  // ----- the text of a candidate

  function IndexOf(s: string, c: char): (i: nat)
    ensures i <= |s|
  {
    if s == "" || s[0] == c then 0 else 1 + IndexOf(s[1..], c)
  }

  /** `[label](target)` becomes `label`. */
  function Unlink(s: string): string
    decreases |s|
  {
    if s == "" then "" else
    var close := 1 + IndexOf(s[1..], ']');
    var isLink := s[0] == '[' && 1 < close && close + 1 < |s| && s[close + 1] == '(';
    var target := if isLink then IndexOf(s[close + 2..], ')') else 0;
    if 0 < target && close + 2 + target < |s| then s[1..close] + Unlink(s[close + 3 + target..])
    else [s[0]] + Unlink(s[1..])
  }

  function DropMarks(s: string): string {
    if s == "" then "" else (if s[0] in "*_`#" then "" else [s[0]]) + DropMarks(s[1..])
  }

  /** Each run of white space becomes one blank. */
  function CollapseSpaces(s: string): string {
    if s == "" then ""
    else if !IsSpace(s[0]) then [s[0]] + CollapseSpaces(s[1..])
    else if |s| > 1 && IsSpace(s[1]) then CollapseSpaces(s[1..])
    else " " + CollapseSpaces(s[1..])
  }

  function ExtractCandidateText(line: string): string {
    Strip(CollapseSpaces(DropMarks(Unlink(Strip(line)))))
  }

  // ----- the other fields

  predicate IsHighType(t: string) {
    t == "security" || t == "source_of_truth"
  }

  predicate IsMediumType(t: string) {
    t == "ci_gate" || t == "normative" || t == "api_contract" || t == "data_model"
  }

  function DetermineSeverity(claimTypes: seq<string>): string {
    if exists i | 0 <= i < |claimTypes| :: IsHighType(claimTypes[i]) then "high"
    else if exists i | 0 <= i < |claimTypes| :: IsMediumType(claimTypes[i]) then "medium"
    else "low"
  }

  function DetermineRegistrationStatus(truthStatus: string, docClass: string): string {
    if docClass == "historical" || docClass == "external_import" then "ignored_historical"
    else if truthStatus == "historical" then "ignored_historical"
    else if truthStatus == "stale" || truthStatus == "unknown" then "ignored_stale"
    else if docClass == "generated" then "ignored_by_policy"
    else "unregistered"
  }

  /** What the candidate id is the digest of: path, line number, text and types, separated by bars. */
  function Preimage(docPath: string, lineNumber: string, text: string, types: string): string {
    docPath + "|" + (lineNumber + "|" + (Strip(Lower(text)) + "|" + types))
  }

  function GenerateCandidateId(lib: Library, docPath: string, text: string, types: string, lineNumber: string): string {
    CANDIDATE_PREFIX + lib.digest(Preimage(docPath, lineNumber, text, types))
  }

  // ----- one line, one document, all documents

  /** The candidate of a line that is neither a fence nor inside a fenced block. */
  function CandidateOf(lib: Library, info: DocInfo, lineNum: nat, line: string): Option<Candidate> {
    var stripped := Strip(line);
    if IsSkipped(stripped) then None else
    var text := ExtractCandidateText(stripped);
    if |text| < MIN_PROSE_LENGTH then None else
    var claimTypes := lib.detect(text);
    if claimTypes == [] then None else
    var types := Join(claimTypes, '|');
    var number := Decimal(lineNum);
    Some(Candidate(
      GenerateCandidateId(lib, info.path, text, types, number), info.path, number, "line-" + number, text, types, types,
      info.docClass, info.truthStatus, if info.traceRequired then "true" else "false",
      DetermineSeverity(claimTypes), "", DetermineRegistrationStatus(info.truthStatus, info.docClass), ""))
  }

  /** How many of the first `k` lines are fences. */
  function Fences(lines: seq<string>, k: nat): nat
    requires k <= |lines|
  {
    if k == 0 then 0 else Fences(lines, k - 1) + (if IsFence(lines[k - 1]) then 1 else 0)
  }

  /** How a numbered line is turned into what is collected. */
  type Offer<T> = (nat, string) -> Option<T>

  /** What line `k` yields: nothing on a fence or after an odd number of them, else what is offered for it. */
  function ResultAt<T>(offer: Offer<T>, lines: seq<string>, k: nat): Option<T>
    requires k < |lines|
  {
    if IsFence(lines[k]) || Fences(lines, k) % 2 == 1 then None else offer(k + 1, lines[k])
  }

  function OfferOf(lib: Library, info: DocInfo): Offer<Candidate> {
    (n: nat, line: string) => CandidateOf(lib, info, n, line)
  }

  function LineResult(lib: Library, info: DocInfo, lines: seq<string>, k: nat): Option<Candidate>
    requires k < |lines|
  {
    ResultAt(OfferOf(lib, info), lines, k)
  }

  function LineResults(lib: Library, info: DocInfo, lines: seq<string>): (rs: seq<Option<Candidate>>)
    ensures |rs| == |lines| && forall k :: 0 <= k < |lines| ==> rs[k] == LineResult(lib, info, lines, k)
  {
    seq(|lines|, k requires 0 <= k < |lines| => LineResult(lib, info, lines, k))
  }

  /** The values present among the first `k` results, in order. */
  function Somes<T>(rs: seq<Option<T>>, k: nat): seq<T>
    requires k <= |rs|
  {
    if k == 0 then [] else if rs[k - 1].Some? then Somes(rs, k - 1) + [rs[k - 1].value] else Somes(rs, k - 1)
  }

  function ScanOf(lib: Library, info: DocInfo, lines: seq<string>): seq<Candidate> {
    Somes(LineResults(lib, info, lines), |lines|)
  }

  /** What the loop has collected after `k` lines. */
  function Collected<T>(offer: Offer<T>, lines: seq<string>, k: nat): seq<T>
    requires k <= |lines|
  {
    if k == 0 then [] else
    match ResultAt(offer, lines, k - 1)
    case Some(found) => Collected(offer, lines, k - 1) + [found]
    case None => Collected(offer, lines, k - 1)
  }

  lemma {:induction false} CollectedIsSomes<T>(offer: Offer<T>, lines: seq<string>, rs: seq<Option<T>>, k: nat)
    requires k <= |lines| == |rs| && forall j :: 0 <= j < k ==> rs[j] == ResultAt(offer, lines, j)
    ensures Collected(offer, lines, k) == Somes(rs, k)
  {
    if k > 0 {
      CollectedIsSomes(offer, lines, rs, k - 1);
    }
  }

  function ScanOfDocument(lib: Library, inventory: seq<InventoryRow>, doc: Document): seq<Candidate> {
    match doc.content
    case None => []
    case Some(content) =>
      var lines := Split(content, '\n');
      ScanOf(lib, InfoOf(inventory, doc.path), lines)
  }

  class ScanResult {
    var candidates: seq<Candidate>
    var errors: seq<string>

    constructor ()
      ensures candidates == [] && errors == []
    {
      candidates, errors := [], [];
    }
  }

  method ScanDocument(lib: Library, inventory: seq<InventoryRow>, doc: Document) returns (result: ScanResult)
    ensures fresh(result)
    ensures result.candidates == ScanOfDocument(lib, inventory, doc)
    ensures result.errors == if doc.content.None? then [doc.path] else []
  {
    result := new ScanResult();
    if doc.content.None? {
      result.errors := result.errors + [doc.path];
    } else {
      ScanLines(lib, InfoOf(inventory, doc.path), Split(doc.content.value, '\n'), result);
    }
  }

  method ScanLines(lib: Library, info: DocInfo, lines: seq<string>, result: ScanResult)
    modifies result`candidates
    ensures result.candidates == old(result.candidates) + ScanOf(lib, info, lines)
  {
    CollectLines(OfferOf(lib, info), lines, result);
    CollectedIsSomes(OfferOf(lib, info), lines, LineResults(lib, info, lines), |lines|);
  }

  /** The scanning loop, with its code-fence flag, appending to the result. */
  method CollectLines(offer: Offer<Candidate>, lines: seq<string>, result: ScanResult)
    modifies result`candidates
    ensures result.candidates == old(result.candidates) + Collected(offer, lines, |lines|)
  {
    var inCodeBlock := false;
    for k := 0 to |lines|
      invariant inCodeBlock <==> Fences(lines, k) % 2 == 1
      invariant result.candidates == old(result.candidates) + Collected(offer, lines, k)
    {
      if IsFence(lines[k]) {
        inCodeBlock := !inCodeBlock;
        continue;
      }
      if inCodeBlock {
        continue;
      }
      var candidate := offer(k + 1, lines[k]);
      if candidate.Some? {
        result.candidates := result.candidates + [candidate.value];
      }
    }
  }

  /** Where the present values came from. */
  function Origins<T>(rs: seq<Option<T>>, k: nat): seq<nat>
    requires k <= |rs|
  {
    if k == 0 then [] else if rs[k - 1].Some? then Origins(rs, k - 1) + [k - 1] else Origins(rs, k - 1)
  }

  lemma {:induction false} OriginsMatch<T>(rs: seq<Option<T>>, k: nat)
    requires k <= |rs|
    ensures var ps := Origins(rs, k);
            |ps| == |Somes(rs, k)| && forall i :: 0 <= i < |ps| ==> ps[i] < k && rs[ps[i]] == Some(Somes(rs, k)[i])
  {
    if k > 0 {
      OriginsMatch(rs, k - 1);
    }
  }

  lemma {:induction false} OriginsIncrease<T>(rs: seq<Option<T>>, k: nat)
    requires k <= |rs|
    ensures forall i :: 0 <= i < |Origins(rs, k)| ==> Origins(rs, k)[i] < k
    ensures forall i, j :: 0 <= i < j < |Origins(rs, k)| ==> Origins(rs, k)[i] < Origins(rs, k)[j]
  {
    if k > 0 {
      OriginsIncrease(rs, k - 1);
    }
  }

  lemma {:induction false} OriginsAreAll<T>(rs: seq<Option<T>>, k: nat, n: nat)
    requires n < k <= |rs|
    ensures n in Origins(rs, k) <==> rs[n].Some?
  {
    OriginsIncrease(rs, k - 1);
    if n < k - 1 {
      OriginsAreAll(rs, k - 1, n);
    }
  }

  lemma OriginsAreExact<T>(offer: Offer<T>, lines: seq<string>, rs: seq<Option<T>>) returns (ps: seq<nat>)
    requires |rs| == |lines| && forall k :: 0 <= k < |lines| ==> rs[k] == ResultAt(offer, lines, k)
    ensures |ps| == |Somes(rs, |lines|)|
    ensures forall i, j :: 0 <= i < j < |ps| ==> ps[i] < ps[j]
    ensures forall i :: 0 <= i < |ps| ==>
            ps[i] < |lines| && offer(ps[i] + 1, lines[ps[i]]) == Some(Somes(rs, |lines|)[i])
    ensures forall n :: 0 <= n < |lines| ==>
            (n in ps <==> !IsFence(lines[n]) && Fences(lines, n) % 2 == 0 && offer(n + 1, lines[n]).Some?)
  {
    ps := Origins(rs, |lines|);
    OriginsMatch(rs, |lines|);
    OriginsIncrease(rs, |lines|);
    forall n | 0 <= n < |lines| ensures n in ps <==> rs[n].Some? {
      OriginsAreAll(rs, |lines|, n);
    }
  }

  /** The scan, line by line: a line yields its candidate exactly when it is no fence, an even number of fences
      precede it, and it passes the filters; and the candidates come in line order. */
  lemma ScanIsExact(lib: Library, info: DocInfo, lines: seq<string>) returns (ps: seq<nat>)
    ensures |ps| == |ScanOf(lib, info, lines)|
    ensures forall i, j :: 0 <= i < j < |ps| ==> ps[i] < ps[j]
    ensures forall i :: 0 <= i < |ps| ==>
            ps[i] < |lines| && CandidateOf(lib, info, ps[i] + 1, lines[ps[i]]) == Some(ScanOf(lib, info, lines)[i])
    ensures forall n :: 0 <= n < |lines| ==>
            (n in ps <==>
             !IsFence(lines[n]) && Fences(lines, n) % 2 == 0 && CandidateOf(lib, info, n + 1, lines[n]).Some?)
  {
    ps := OriginsAreExact(OfferOf(lib, info), lines, LineResults(lib, info, lines));
  }
}
