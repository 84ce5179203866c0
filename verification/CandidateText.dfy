/** What becomes of a line: links, marks and white space, and the fields of the candidate it yields. */
module CandidateText {
  import opened Wrappers
  import opened Text
  import opened Candidates
  import opened CandidateScan

  // ----- links

  lemma {:induction false} IndexOfSplit(a: string, c: char, b: string)
    requires c !in a
    ensures IndexOf(a + [c] + b, c) == |a|
  {
    if a != "" {
      assert (a + [c] + b)[1..] == a[1..] + [c] + b;
      IndexOfSplit(a[1..], c, b);
    }
  }

  lemma {:induction false} IndexOfExactly(s: string, c: char)
    ensures c !in s[..IndexOf(s, c)]
    ensures IndexOf(s, c) < |s| ==> s[IndexOf(s, c)] == c
    ensures IndexOf(s, c) == |s| ==> c !in s
  {
    if s != "" && s[0] != c {
      IndexOfExactly(s[1..], c);
      assert s[..IndexOf(s, c)] == [s[0]] + s[1..][..IndexOf(s[1..], c)];
      assert s == [s[0]] + s[1..];
    }
  }

  /** `[caption](target)`, with something in both. */
  function Link(caption: string, target: string): string {
    ['['] + caption + [']'] + ['('] + target + [')']
  }

  predicate IsLink(caption: string, target: string) {
    caption != "" && ']' !in caption && target != "" && ')' !in target
  }

  /** A link becomes its caption. */
  lemma LinkBecomesCaption(caption: string, target: string, b: string)
    requires IsLink(caption, target)
    ensures Unlink(Link(caption, target) + b) == caption + Unlink(b)
  {
    var s := Link(caption, target) + b;
    var close := 1 + |caption|;
    assert s[1..] == caption + [']'] + (['('] + target + [')'] + b);
    IndexOfSplit(caption, ']', ['('] + target + [')'] + b);
    assert s[close] == ']' && s[close + 1] == '(' && s[close + 2..] == target + [')'] + b;
    IndexOfSplit(target, ')', b);
    assert s[1..close] == caption && s[close + 3 + |target|..] == b;
  }

  /** Some link stands at the start of the text. */
  ghost predicate StartsWithLink(s: string) {
    exists caption, target, b :: IsLink(caption, target) && s == Link(caption, target) + b
  }

  /** Anything else is kept, character by character. */
  lemma NoLinkIsKept(s: string)
    requires s != "" && !StartsWithLink(s)
    ensures Unlink(s) == [s[0]] + Unlink(s[1..])
  {
    var close := 1 + IndexOf(s[1..], ']');
    if s[0] == '[' && 1 < close && close + 1 < |s| && s[close + 1] == '(' {
      FoundLink(s, close);
    }
  }

  lemma FoundLink(s: string, close: nat)
    requires s != "" && s[0] == '[' && close == 1 + IndexOf(s[1..], ']') && 1 < close && close + 1 < |s|
    requires s[close + 1] == '('
    ensures var n := IndexOf(s[close + 2..], ')'); 0 < n && close + 2 + n < |s| ==> StartsWithLink(s)
  {
    var rest := s[close + 2..];
    var n := IndexOf(rest, ')');
    IndexOfExactly(s[1..], ']');
    IndexOfExactly(rest, ')');
    if 0 < n && n < |rest| {
      var caption, target, b := s[1..close], rest[..n], rest[n + 1..];
      assert caption == s[1..][..close - 1] && s[close] == s[1..][close - 1] == ']';
      assert rest == target + [')'] + b;
      assert s == ['['] + caption + [']'] + ['('] + rest;
      LinkFromParts(s, caption, target, b);
    }
  }

  lemma LinkFromParts(s: string, caption: string, target: string, b: string)
    requires IsLink(caption, target) && s == ['['] + caption + [']'] + ['('] + (target + [')'] + b)
    ensures StartsWithLink(s)
  {
    assert s == Link(caption, target) + b;
  }

  /** What precedes the first bracket is kept. */
  lemma {:induction false} BeforeBracket(a: string, s: string)
    requires '[' !in a
    ensures Unlink(a + s) == a + Unlink(s)
  {
    if a == "" {
      assert a + s == s;
    } else {
      BeforeBracket(a[1..], s);
      OnePlain(a[0], a[1..] + s);
      Regrouped(a[0], a[1..], s);
      Regrouped(a[0], a[1..], Unlink(s));
      assert a == [a[0]] + a[1..];
    }
  }

  lemma Regrouped(c: char, x: string, y: string)
    ensures [c] + (x + y) == [c] + x + y
  {
  }

  lemma OnePlain(c: char, rest: string)
    requires c != '['
    ensures Unlink([c] + rest) == [c] + Unlink(rest)
  {
    assert ([c] + rest)[1..] == rest;
  }

  lemma LinkInside(a: string, caption: string, target: string, b: string)
    requires '[' !in a && IsLink(caption, target)
    ensures Unlink(a + (Link(caption, target) + b)) == a + (caption + Unlink(b))
  {
    BeforeBracket(a, Link(caption, target) + b);
    LinkBecomesCaption(caption, target, b);
  }

  lemma {:induction false} WithoutLinks(s: string)
    requires forall i :: 0 <= i < |s| ==> !StartsWithLink(s[i..])
    ensures Unlink(s) == s
  {
    if s != "" {
      assert s[0..] == s;
      forall i | 0 <= i < |s[1..]| ensures !StartsWithLink(s[1..][i..]) {
        assert s[1..][i..] == s[i + 1..];
      }
      NoLinkIsKept(s);
      WithoutLinks(s[1..]);
      assert s == [s[0]] + s[1..];
    }
  }

  // ----- marks

  predicate IsMark(c: char) {
    c == '*' || c == '_' || c == '`' || c == '#'
  }

  /** The marks go and everything else stays, in order: of one character nothing or itself is left, and of a text what
      is left of its parts. */
  lemma DropMarksOfOne(c: char)
    ensures DropMarks([c]) == if IsMark(c) then "" else [c]
  {
    assert [c][1..] == "";
  }

  lemma {:induction false} DropMarksJoined(a: string, b: string)
    ensures DropMarks(a + b) == DropMarks(a) + DropMarks(b)
  {
    if a == "" {
      assert a + b == b;
    } else {
      assert (a + b)[1..] == a[1..] + b;
      DropMarksJoined(a[1..], b);
    }
  }

  // ----- white space

  predicate NoSpace(s: string) {
    forall i :: 0 <= i < |s| ==> !IsSpace(s[i])
  }

  /** A word stays, the run of white space after it becomes one blank. */
  lemma WordAndGap(word: string, gap: string, rest: string)
    requires NoSpace(word) && gap != "" && AllSpace(gap) && (rest == "" || !IsSpace(rest[0]))
    ensures CollapseSpaces(word + (gap + rest)) == word + (" " + CollapseSpaces(rest))
  {
    WordIsKept(word, gap + rest);
    GapIsBlank(gap, rest);
  }

  lemma {:induction false} WordIsKept(word: string, rest: string)
    requires NoSpace(word)
    ensures CollapseSpaces(word + rest) == word + CollapseSpaces(rest)
  {
    if word == "" {
      assert word + rest == rest;
    } else {
      assert (word + rest)[1..] == word[1..] + rest;
      WordIsKept(word[1..], rest);
    }
  }

  lemma {:induction false} GapIsBlank(gap: string, rest: string)
    requires gap != "" && AllSpace(gap) && (rest == "" || !IsSpace(rest[0]))
    ensures CollapseSpaces(gap + rest) == " " + CollapseSpaces(rest)
  {
    assert (gap + rest)[1..] == gap[1..] + rest;
    if |gap| == 1 {
      assert gap[1..] + rest == rest;
    } else {
      GapIsBlank(gap[1..], rest);
    }
  }

  lemma OnlyWord(word: string)
    requires NoSpace(word)
    ensures CollapseSpaces(word) == word
  {
    WordIsKept(word, "");
    assert word + "" == word;
  }

  // ----- the text of a candidate

  /** Text without brackets and marks, whose blanks stand alone and inside. */
  predicate IsProse(s: string) {
    (s == "" || !IsSpace(s[|s| - 1])) && forall i :: 0 <= i < |s| ==> PlainAt(s, i)
  }

  predicate PlainAt(s: string, i: nat)
    requires i < |s|
  {
    s[i] != '[' && !IsMark(s[i]) && (IsSpace(s[i]) ==> s[i] == ' ' && i + 1 < |s| && !IsSpace(s[i + 1]))
  }

  lemma {:induction false} ProseIsKept(s: string)
    requires IsProse(s)
    ensures DropMarks(s) == s && CollapseSpaces(s) == s
  {
    if s != "" {
      assert PlainAt(s, 0) && s == [s[0]] + s[1..];
      ProseTail(s);
      ProseIsKept(s[1..]);
    }
  }

  lemma ProseTail(s: string)
    requires s != "" && IsProse(s)
    ensures IsProse(s[1..]) && (|s| > 1 && IsSpace(s[0]) ==> !IsSpace(s[1]))
  {
    assert PlainAt(s, 0);
    forall i | 0 <= i < |s[1..]| ensures PlainAt(s[1..], i) {
      assert PlainAt(s, i + 1);
    }
  }

  lemma ProseHasNoBracket(s: string)
    requires IsProse(s)
    ensures '[' !in s
  {
    forall i | 0 <= i < |s| ensures s[i] != '[' {
      assert PlainAt(s, i);
    }
  }

  lemma ProseIsExtracted(s: string)
    requires IsProse(s) && (s == "" || !IsSpace(s[0]))
    ensures Strip(s) == s && ExtractCandidateText(s) == s
  {
    StripUnchanged(s);
    ProseIsKept(s);
    ProseHasNoBracket(s);
    BeforeBracket(s, "");
    assert s + "" == s;
  }

  /** Of a line of prose with a link in it, the prose with the link's caption is left. */
  lemma LinkIsExtracted(a: string, caption: string, target: string, b: string)
    requires IsLink(caption, target) && IsProse(a + (caption + b)) && !IsSpace((a + (caption + b))[0])
    ensures var line := a + (Link(caption, target) + b);
            Strip(line) == line && ExtractCandidateText(line) == a + (caption + b)
  {
    var line, text := a + (Link(caption, target) + b), a + (caption + b);
    ProseHasNoBracket(text);
    assert '[' !in a && '[' !in b by {
      forall i | 0 <= i < |a| ensures a[i] != '[' {
        assert a[i] == text[i];
      }
      forall i | 0 <= i < |b| ensures b[i] != '[' {
        assert b[i] == text[|a| + |caption| + i];
      }
    }
    LineIsStripped(a, caption, target, b);
    LinkInside(a, caption, target, b);
    BeforeBracket(b, "");
    assert b + "" == b;
    ProseIsKept(text);
    StripUnchanged(text);
  }

  /** So such a line's candidate has that text. */
  lemma LinkedLineText(lib: Library, info: DocInfo, n: nat, a: string, caption: string, target: string, b: string)
    requires IsLink(caption, target) && IsProse(a + (caption + b)) && !IsSpace((a + (caption + b))[0])
    requires CandidateOf(lib, info, n, a + (Link(caption, target) + b)).Some?
    ensures CandidateOf(lib, info, n, a + (Link(caption, target) + b)).value.candidateText == a + (caption + b)
  {
    LinkIsExtracted(a, caption, target, b);
  }

  lemma LineIsStripped(a: string, caption: string, target: string, b: string)
    requires IsLink(caption, target) && IsProse(a + (caption + b)) && !IsSpace((a + (caption + b))[0])
    ensures Strip(a + (Link(caption, target) + b)) == a + (Link(caption, target) + b)
  {
    var line, text := a + (Link(caption, target) + b), a + (caption + b);
    assert !IsSpace(text[|text| - 1]);
    assert line[0] == if a == "" then '[' else text[0];
    assert line[|line| - 1] == if b == "" then ')' else text[|text| - 1];
    StripUnchanged(line);
  }

  // ----- the other fields

  /** The first inventory row for the path. */
  predicate IsFirstRow(inventory: seq<InventoryRow>, path: string, k: nat) {
    && k < |inventory| && Strip(inventory[k].docPath) == path
    && forall j :: 0 <= j < k ==> Strip(inventory[j].docPath) != path
  }

  lemma {:induction false} LookupExactly(inventory: seq<InventoryRow>, path: string, k: nat)
    ensures IsFirstRow(inventory, path, k) ==> Lookup(inventory, path) == Some(inventory[k])
    ensures (forall j :: 0 <= j < |inventory| ==> Strip(inventory[j].docPath) != path) ==>
      Lookup(inventory, path) == None
  {
    if inventory != [] && Strip(inventory[0].docPath) != path {
      assert forall j :: 0 <= j < |inventory[1..]| ==> inventory[1..][j] == inventory[j + 1];
      if IsFirstRow(inventory, path, k) {
        assert IsFirstRow(inventory[1..], path, k - 1);
        LookupExactly(inventory[1..], path, k - 1);
      } else {
        LookupExactly(inventory[1..], path, 0);
      }
    }
  }

  /** A document has the class and status of its first inventory row, or is unknown. */
  lemma InfoExactly(inventory: seq<InventoryRow>, path: string, k: nat)
    ensures InfoOf(inventory, path).path == path
    ensures IsFirstRow(inventory, path, k) ==>
      && InfoOf(inventory, path).docClass == Strip(inventory[k].docClass)
      && InfoOf(inventory, path).truthStatus == Strip(inventory[k].truthStatus)
      && (InfoOf(inventory, path).traceRequired <==> Lower(Strip(inventory[k].claimTraceRequired)) == "true")
    ensures (forall j :: 0 <= j < |inventory| ==> Strip(inventory[j].docPath) != path) ==>
      InfoOf(inventory, path) == DocInfo(path, "unknown", "unknown", false)
  {
    LookupExactly(inventory, path, k);
  }

  predicate Detects(types: seq<string>, t: string) {
    exists i :: 0 <= i < |types| && types[i] == t
  }

  predicate IsOld(status: string, docClass: string) {
    docClass == "historical" || docClass == "external_import" || status == "historical"
  }

  /** The fields of a line's candidate. */
  lemma CandidateFields(lib: Library, info: DocInfo, n: nat, line: string)
    requires CandidateOf(lib, info, n, line).Some?
    ensures var c, types := CandidateOf(lib, info, n, line).value, lib.detect(ExtractCandidateText(Strip(line)));
            && c.candidateText == ExtractCandidateText(Strip(line)) && |c.candidateText| >= 30
            && types != [] && c.detectedClaimTypes == c.detectionRules == Join(types, '|')
            && c.docPath == info.path && c.docClass == info.docClass && c.truthStatus == info.truthStatus
            && c.lineNumber == Decimal(n) && c.anchor == "line-" + Decimal(n)
            && c.claimTraceRequired == (if info.traceRequired then "true" else "false")
            && c.registeredClaimId == "" && c.notes == ""
            && c.candidateId == "DOC-CAND-" + lib.digest(info.path + "|" + (Decimal(n) + "|" +
                                  (Strip(Lower(c.candidateText)) + "|" + c.detectedClaimTypes)))
  {
  }

  /** Severity follows the gravest type. */
  lemma SeverityExactly(lib: Library, info: DocInfo, n: nat, line: string)
    requires CandidateOf(lib, info, n, line).Some?
    ensures var c := CandidateOf(lib, info, n, line).value;
            var types := lib.detect(c.candidateText);
            var high := Detects(types, "security") || Detects(types, "source_of_truth");
            var medium := Detects(types, "ci_gate") || Detects(types, "normative")
                       || Detects(types, "api_contract") || Detects(types, "data_model");
            c.candidateSeverity == if high then "high" else if medium then "medium" else "low"
  {
    var types := lib.detect(ExtractCandidateText(Strip(line)));
    TypesExactly(types);
  }

  lemma TypesExactly(types: seq<string>)
    ensures var high := Detects(types, "security") || Detects(types, "source_of_truth");
            var medium := Detects(types, "ci_gate") || Detects(types, "normative")
                       || Detects(types, "api_contract") || Detects(types, "data_model");
            DetermineSeverity(types) == if high then "high" else if medium then "medium" else "low"
  {
    assert (exists i | 0 <= i < |types| :: IsHighType(types[i])) <==>
           Detects(types, "security") || Detects(types, "source_of_truth");
    assert (exists i | 0 <= i < |types| :: IsMediumType(types[i])) <==>
           Detects(types, "ci_gate") || Detects(types, "normative") || Detects(types, "api_contract") ||
           Detects(types, "data_model");
  }

  /** Candidates of old and stale documents are marked so, those of generated ones by policy. */
  lemma StatusExactly(lib: Library, info: DocInfo, n: nat, line: string)
    requires CandidateOf(lib, info, n, line).Some?
    ensures var c := CandidateOf(lib, info, n, line).value;
            var stale := c.truthStatus == "stale" || c.truthStatus == "unknown";
            && (IsOld(c.truthStatus, c.docClass) ==> c.registrationStatus == "ignored_historical")
            && (!IsOld(c.truthStatus, c.docClass) && stale ==> c.registrationStatus == "ignored_stale")
            && (!IsOld(c.truthStatus, c.docClass) && !stale ==>
                c.registrationStatus == if c.docClass == "generated" then "ignored_by_policy" else "unregistered")
  {
  }

  /** Which lines are taken: no blank ones, no table rules, no headings but those of levels one to four, and then text
      that is long enough and makes a claim. */
  lemma TakenExactly(lib: Library, info: DocInfo, n: nat, line: string)
    requires !IsFence(line)
    ensures var s, text := Strip(line), ExtractCandidateText(Strip(line));
            CandidateOf(lib, info, n, line).Some? <==>
            && s != ""
            && (s[0] == '#' ==> "# " <= s || "## " <= s || "### " <= s || "#### " <= s || '\n' in s)
            && !('|' in s && forall i :: 0 <= i < |s| ==> s[i] == '|' || s[i] == '-' || s[i] == ':' || s[i] == ' ')
            && |text| >= 30 && lib.detect(text) != []
  {
    var s := Strip(line);
    StripTwice(line);
    CodeBlockTestIsIdle(line);
    if s != "" {
      assert StartsWith(s, "#") <==> s[0] == '#';
    }
  }
}
