/** The shard matrix of a job, as the gate check reads it from the job's text. */
module ShardMatrix {
  import opened Wrappers
  import opened Text
  import opened ClaimIds

  const MATRIX_LINE := "matrix:"
  const INDEX_KEY := "shard_index:"

  /** What a job's text says: no matrix, a matrix with its shard indices, or an index that is no number. */
  datatype Matrix = NoMatrix | Matrix(indices: seq<string>) | BadIndex

  /** `^\s*matrix:\s*$`, on any line. */
  predicate HasMatrixLine(lines: seq<string>) {
    exists i | 0 <= i < |lines| :: Strip(lines[i]) == MATRIX_LINE
  }

  /** `(.*?)\]`: the text up to the first closing bracket, if it is on the same line. */
  function UpToBracket(s: string): Option<string> {
    if s == "" || s[0] == '\n' then None
    else if s[0] == ']' then Some("")
    else match UpToBracket(s[1..])
      case None => None
      case Some(list) => Some([s[0]] + list)
  }

  /** `shard_index:\s*\[(.*?)\]`, at the start of a text. */
  function ListAt(s: string): Option<string> {
    if !(INDEX_KEY <= s) then None else
    var rest := StripLeft(s[|INDEX_KEY|..]);
    if rest != "" && rest[0] == '[' then UpToBracket(rest[1..]) else None
  }

  /** The first match of the pattern. */
  function IndexList(s: string): Option<string> {
    if ListAt(s).Some? then ListAt(s) else if s == "" then None else IndexList(s[1..])
  }

  /** The digits of a Python integer: decimal digits of any script, with single underscores between them. */
  predicate IsDigitRun(s: string) {
    && s != "" && DigitValue(s[0]) >= 0
    && (s[1..] == "" || IsDigitRun(s[1..]) || (s[1] == '_' && IsDigitRun(s[2..])))
  }

  /** What `int` accepts of a stripped text. */
  predicate IsInt(s: string) {
    IsDigitRun(s) || (s != "" && (s[0] == '+' || s[0] == '-') && IsDigitRun(s[1..]))
  }

  /** `[x.strip() for x in parts if x.strip()]` */
  function Visible(parts: seq<string>): seq<string> {
    if parts == [] then [] else (if Strip(parts[0]) == "" then [] else [Strip(parts[0])]) + Visible(parts[1..])
  }

  function IndicesOf(list: string): Matrix {
    var indices := Visible(Split(list, ','));
    if forall i | 0 <= i < |indices| :: IsInt(indices[i]) then Matrix(indices) else BadIndex
  }

  function MatrixOf(content: string): Matrix {
    if !HasMatrixLine(Split(content, '\n')) then NoMatrix else
    match IndexList(content)
    case None => Matrix([])
    case Some(list) => IndicesOf(list)
  }

  // ----- the patterns

  /** A text that the pattern matches with the list `list`. */
  predicate IsMatch(s: string, gap: string, list: string, tail: string) {
    s == INDEX_KEY + (gap + ("[" + (list + ("]" + tail)))) && AllSpace(gap) && ']' !in list && '\n' !in list
  }

  /** The pattern matches at the start of a text exactly when the text is the key, white space and a bracketed list. */
  lemma ListAtExactly(s: string, list: string)
    ensures ListAt(s) == Some(list) <==> exists gap, tail :: IsMatch(s, gap, list, tail)
  {
    if gap, tail :| IsMatch(s, gap, list, tail) {
      MatchIsFound(s, gap, list, tail);
    }
    if ListAt(s) == Some(list) {
      var gap, tail := ListIsMatch(s, list);
    }
  }

  lemma ListIsMatch(s: string, list: string) returns (gap: string, tail: string)
    requires ListAt(s) == Some(list)
    ensures IsMatch(s, gap, list, tail)
  {
    var rest := s[|INDEX_KEY|..];
    var k := StripLeftGap(rest);
    var bracketed := StripLeft(rest);
    gap := rest[..k];
    tail := UpToBracketSplits(bracketed[1..]);
    assert bracketed == "[" + bracketed[1..];
    assert rest == gap + bracketed;
    assert s == INDEX_KEY + rest;
  }

  lemma MatchIsFound(s: string, gap: string, list: string, tail: string)
    requires IsMatch(s, gap, list, tail)
    ensures ListAt(s) == Some(list)
  {
    var bracketed := "[" + (list + ("]" + tail));
    assert s[|INDEX_KEY|..] == gap + bracketed;
    StripLeftPadded(gap, bracketed);
    assert bracketed[1..] == list + ("]" + tail);
    UpToBracketFinds(list, tail);
  }

  lemma {:induction false} StripLeftGap(s: string) returns (k: nat)
    ensures k <= |s| && AllSpace(s[..k]) && StripLeft(s) == s[k..]
  {
    if s != "" && IsSpace(s[0]) {
      var j := StripLeftGap(s[1..]);
      k := j + 1;
      assert s[..k] == [s[0]] + s[1..][..j];
    } else {
      k := 0;
    }
  }

  lemma {:induction false} UpToBracketFinds(list: string, tail: string)
    requires ']' !in list && '\n' !in list
    ensures UpToBracket(list + ("]" + tail)) == Some(list)
  {
    if list == "" {
      assert list + ("]" + tail) == "]" + tail;
    } else {
      UpToBracketFinds(list[1..], tail);
      assert (list + ("]" + tail))[1..] == list[1..] + ("]" + tail);
      assert [list[0]] + list[1..] == list;
    }
  }

  lemma {:induction false} UpToBracketSplits(s: string) returns (tail: string)
    requires UpToBracket(s).Some?
    ensures s == UpToBracket(s).value + ("]" + tail)
    ensures ']' !in UpToBracket(s).value && '\n' !in UpToBracket(s).value
  {
    if s[0] == ']' {
      tail := s[1..];
    } else {
      tail := UpToBracketSplits(s[1..]);
      assert s == [s[0]] + s[1..];
    }
  }

  /** The list found is that of the first place where the pattern matches. */
  lemma {:induction false} IndexListIsFirst(s: string)
    ensures IndexList(s).None? ==> forall i :: 0 <= i <= |s| ==> ListAt(s[i..]).None?
    ensures IndexList(s).Some? ==>
      exists i :: 0 <= i <= |s| && ListAt(s[i..]) == IndexList(s) && forall j :: 0 <= j < i ==> ListAt(s[j..]).None?
  {
    assert s[0..] == s;
    if ListAt(s).None? && s != "" {
      IndexListIsFirst(s[1..]);
      assert forall i :: 0 < i <= |s| ==> s[i..] == s[1..][i - 1..];
      if IndexList(s).Some? {
        var k :| 0 <= k <= |s[1..]| && ListAt(s[1..][k..]) == IndexList(s[1..])
          && forall j :: 0 <= j < k ==> ListAt(s[1..][j..]).None?;
        assert s[k + 1..] == s[1..][k..];
        forall j | 0 <= j < k + 1 ensures ListAt(s[j..]).None? {
          if j > 0 {
            assert s[j..] == s[1..][j - 1..];
          }
        }
      }
    }
  }

  // ----- lists of numbers

  /** The numbers below `n` in decimal. */
  function Decimals(n: nat): (texts: seq<string>)
    ensures |texts| == n
  {
    if n == 0 then [] else Decimals(n - 1) + [Decimal(n - 1)]
  }

  lemma {:induction false} DecimalIsDigitRun(s: string)
    requires s != "" && IsDigits(s)
    ensures IsDigitRun(s) && ',' !in s && Strip(s) == s
  {
    StripUnchanged(s);
    if |s| > 1 {
      DecimalIsDigitRun(s[1..]);
      assert s == [s[0]] + s[1..];
    }
  }

  lemma {:induction false} DecimalsAreInts(n: nat)
    ensures forall i :: 0 <= i < n ==>
      IsInt(Decimals(n)[i]) && ',' !in Decimals(n)[i] && Strip(Decimals(n)[i]) == Decimals(n)[i]
    ensures forall i :: 0 <= i < n ==> Decimals(n)[i] != ""
  {
    if n > 0 {
      DecimalsAreInts(n - 1);
      DecimalIsDigitRun(Decimal(n - 1));
    }
  }

  lemma {:induction false} VisibleUnchanged(parts: seq<string>)
    requires forall i :: 0 <= i < |parts| ==> Strip(parts[i]) == parts[i] != ""
    ensures Visible(parts) == parts
  {
    if parts != [] {
      VisibleUnchanged(parts[1..]);
      assert [parts[0]] + parts[1..] == parts;
    }
  }

  /** A list of the numbers below `n` is read as `n` shards. */
  lemma NumberedShards(n: nat)
    requires n > 0
    ensures IndicesOf(Join(Decimals(n), ',')) == Matrix(Decimals(n))
  {
    DecimalsAreInts(n);
    SplitJoin(Decimals(n), ',');
    VisibleUnchanged(Decimals(n));
  }

  /** Some part has this text when it is stripped, and it is not blank. */
  predicate IsPart(parts: seq<string>, x: string) {
    x != "" && exists k :: 0 <= k < |parts| && Strip(parts[k]) == x
  }

  /** The indices are the parts between commas that are not blank, stripped; one that is no integer spoils the list. */
  lemma IndicesExactly(list: string)
    ensures IndicesOf(list).BadIndex? <==> exists x :: IsPart(Split(list, ','), x) && !IsInt(x)
    ensures IndicesOf(list).Matrix? ==> forall x :: x in IndicesOf(list).indices <==> IsPart(Split(list, ','), x)
  {
    var parts := Split(list, ',');
    var indices := Visible(parts);
    forall x ensures x in indices <==> IsPart(parts, x) {
      VisibleExactly(parts, x);
    }
    if IndicesOf(list).BadIndex? {
      var i :| 0 <= i < |indices| && !IsInt(indices[i]);
      assert indices[i] in indices;
    }
  }

  lemma {:induction false} VisibleExactly(parts: seq<string>, x: string)
    ensures x in Visible(parts) <==> IsPart(parts, x)
  {
    if parts != [] {
      VisibleExactly(parts[1..], x);
      assert forall k :: 0 < k < |parts| ==> parts[k] == parts[1..][k - 1];
    }
  }
}
