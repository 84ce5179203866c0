/** The string operations the scripts use: stripping, searching, splitting and joining. */
module Text {

  /** Python's `str.isspace`, which `str.strip` and the regular expression `\s` share. */
  predicate IsSpace(c: char) {
    var n := c as int;
    9 <= n <= 13 || 28 <= n <= 32 || n == 0x85 || n == 0xA0 || n == 0x1680 || 0x2000 <= n <= 0x200A
    || n == 0x2028 || n == 0x2029 || n == 0x202F || n == 0x205F || n == 0x3000
  }

  predicate AllSpace(s: string) {
    forall i :: 0 <= i < |s| ==> IsSpace(s[i])
  }

  /** Lower case, for the letters A to Z. */
  function LowerChar(c: char): char {
    if 'A' <= c <= 'Z' then ((c as int) + 32) as char else c
  }

  function Lower(s: string): (r: string)
    ensures |r| == |s|
    ensures forall i :: 0 <= i < |s| ==> r[i] == LowerChar(s[i])
  {
    seq(|s|, i requires 0 <= i < |s| => LowerChar(s[i]))
  }

  function StripLeft(s: string): string {
    if s != "" && IsSpace(s[0]) then StripLeft(s[1..]) else s
  }

  function StripRight(s: string): string {
    if s != "" && IsSpace(s[|s| - 1]) then StripRight(s[..|s| - 1]) else s
  }

  function Strip(s: string): string {
    StripRight(StripLeft(s))
  }

  lemma {:induction false} StripLeftWindow(s: string)
    ensures var r := StripLeft(s); var k := |s| - |r|;
            && 0 <= k && r == s[k..] && (r == "" || !IsSpace(r[0]))
            && forall i :: 0 <= i < k ==> IsSpace(s[i])
  {
    if s != "" && IsSpace(s[0]) {
      StripLeftWindow(s[1..]);
      assert forall i :: 0 < i < |s| ==> s[i] == s[1..][i - 1];
    }
  }

  lemma {:induction false} StripRightWindow(s: string)
    ensures var r := StripRight(s);
            && |r| <= |s| && r == s[..|r|] && (r == "" || !IsSpace(r[|r| - 1]))
            && forall i :: |r| <= i < |s| ==> IsSpace(s[i])
  {
    if s != "" && IsSpace(s[|s| - 1]) {
      StripRightWindow(s[..|s| - 1]);
    }
  }

  /** The whole of `Strip` in one fact: the text is blank, then the result, then blank again. */
  lemma StripWindow(s: string) returns (k: nat)
    ensures var r := Strip(s);
            && k + |r| <= |s| && r == s[k..k + |r|]
            && (r == "" || (!IsSpace(r[0]) && !IsSpace(r[|r| - 1])))
            && forall i :: 0 <= i < k || k + |r| <= i < |s| ==> IsSpace(s[i])
  {
    StripLeftWindow(s);
    var l := StripLeft(s);
    StripRightWindow(l);
    k := |s| - |l|;
    assert forall i :: k <= i < |s| ==> s[i] == l[i - k];
  }

  lemma {:induction false} StripLeftPadded(pad: string, s: string)
    requires AllSpace(pad) && (s == "" || !IsSpace(s[0]))
    ensures StripLeft(pad + s) == s
  {
    if pad == "" {
      assert pad + s == s;
    } else {
      assert (pad + s)[1..] == pad[1..] + s;
      StripLeftPadded(pad[1..], s);
    }
  }

  lemma StripUnchanged(s: string)
    requires s == "" || (!IsSpace(s[0]) && !IsSpace(s[|s| - 1]))
    ensures Strip(s) == s && StripLeft(s) == s && StripRight(s) == s
  {
  }

  lemma StripTwice(s: string)
    ensures Strip(Strip(s)) == Strip(s)
  {
    var k := StripWindow(s);
    StripUnchanged(Strip(s));
  }

  /** A text with a visible character does not strip to nothing. */
  lemma StripKeepsVisible(s: string, i: nat)
    requires i < |s| && !IsSpace(s[i])
    ensures Strip(s) != ""
  {
    var k := StripWindow(s);
  }

  predicate StartsWith(s: string, p: string) {
    p <= s
  }

  predicate OccursAt(s: string, p: string, i: nat) {
    i + |p| <= |s| && forall j :: 0 <= j < |p| ==> s[i + j] == p[j]
  }

  predicate Contains(s: string, p: string) {
    exists i | 0 <= i <= |s| :: OccursAt(s, p, i)
  }

  /** Stripping a text never gains or loses a pattern that begins and ends with visible characters. */
  lemma ContainsStripped(s: string, p: string)
    requires p != "" && !IsSpace(p[0]) && !IsSpace(p[|p| - 1])
    ensures Contains(Strip(s), p) <==> Contains(s, p)
  {
    var k := StripWindow(s);
    var r := Strip(s);
    if i :| 0 <= i <= |r| && OccursAt(r, p, i) {
      OccursInWindow(s, r, p, k, i);
    }
    if i :| 0 <= i <= |s| && OccursAt(s, p, i) {
      assert s[i + 0] == p[0] && s[i + (|p| - 1)] == p[|p| - 1];
      assert k <= i && i + |p| <= k + |r|;
      OccursInWindow(s, r, p, k, i - k);
    }
  }

  lemma OccursInWindow(s: string, r: string, p: string, k: nat, i: nat)
    requires k + |r| <= |s| && i + |p| <= |r|
    requires forall j :: 0 <= j < |r| ==> r[j] == s[k + j]
    ensures OccursAt(r, p, i) <==> OccursAt(s, p, k + i)
  {
  }

  /** A pattern whose first character does not occur in `head` is found in `head + tail` only inside `tail`. */
  lemma ContainsAfter(head: string, tail: string, p: string)
    requires p != "" && p[0] !in head
    ensures Contains(head + tail, p) <==> Contains(tail, p)
  {
    var s := head + tail;
    if Contains(tail, p) {
      var i :| 0 <= i <= |tail| && OccursAt(tail, p, i);
      assert OccursAt(s, p, |head| + i);
    }
    if Contains(s, p) {
      var i :| 0 <= i <= |s| && OccursAt(s, p, i);
      assert s[i + 0] == p[0];
      assert OccursAt(tail, p, i - |head|);
    }
  }

  /** `p in s`: the text falls into a part before, the pattern, and a part after. */
  lemma ContainsExactly(s: string, p: string)
    ensures Contains(s, p) <==> exists a, b :: s == a + p + b
  {
    if i :| 0 <= i <= |s| && OccursAt(s, p, i) {
      assert s[i..i + |p|] == p;
      assert s == s[..i] + p + s[i + |p|..];
    }
    if a, b :| s == a + p + b {
      assert OccursAt(s, p, |a|);
    }
  }

  lemma ContainsPrefix(p: string, tail: string)
    ensures Contains(p + tail, p)
  {
    assert OccursAt(p + tail, p, 0);
  }

  /** Python's `s.split(sep)` for a one-character separator. */
  function Split(s: string, sep: char): (parts: seq<string>)
    ensures |parts| > 0
  {
    if s == "" then [""]
    else if s[0] == sep then [""] + Split(s[1..], sep)
    else var rest := Split(s[1..], sep); [[s[0]] + rest[0]] + rest[1..]
  }

  lemma {:induction false} SplitParts(s: string, sep: char)
    ensures forall i :: 0 <= i < |Split(s, sep)| ==> sep !in Split(s, sep)[i]
  {
    if s != "" {
      SplitParts(s[1..], sep);
    }
  }

  /** Python's `sep.join(parts)` for a one-character separator. */
  function Join(parts: seq<string>, sep: char): string {
    if |parts| == 0 then ""
    else if |parts| == 1 then parts[0]
    else parts[0] + [sep] + Join(parts[1..], sep)
  }

  lemma {:induction false} SplitHead(head: string, s: string, sep: char)
    requires sep !in head
    ensures Split(head + s, sep) == [head + Split(s, sep)[0]] + Split(s, sep)[1..]
  {
    if head == "" {
      assert head + s == s;
      assert head + Split(s, sep)[0] == Split(s, sep)[0];
    } else {
      SplitHead(head[1..], s, sep);
      assert (head + s)[1..] == head[1..] + s;
      assert [head[0]] + (head[1..] + Split(s, sep)[0]) == head + Split(s, sep)[0];
    }
  }

  /** Splitting undoes joining. */
  lemma {:induction false} SplitJoin(parts: seq<string>, sep: char)
    requires |parts| > 0
    requires forall i :: 0 <= i < |parts| ==> sep !in parts[i]
    ensures Split(Join(parts, sep), sep) == parts
  {
    if |parts| == 1 {
      SplitHead(parts[0], "", sep);
      assert parts[0] + "" == parts[0];
    } else {
      SplitJoin(parts[1..], sep);
      var tail := [sep] + Join(parts[1..], sep);
      SplitHead(parts[0], tail, sep);
      assert tail[1..] == Join(parts[1..], sep);
      assert parts[0] + [sep] + Join(parts[1..], sep) == parts[0] + tail;
      assert parts[0] + "" == parts[0];
      assert [parts[0]] + parts[1..] == parts;
    }
  }

  /** Joining undoes splitting. */
  lemma {:induction false} JoinSplit(s: string, sep: char)
    ensures Join(Split(s, sep), sep) == s
  {
    if s != "" {
      JoinSplit(s[1..], sep);
      var rest := Split(s[1..], sep);
      if s[0] == sep {
        assert ([""] + rest)[1..] == rest;
      } else {
        var parts := [[s[0]] + rest[0]] + rest[1..];
        if |rest| > 1 {
          assert parts[1..] == rest[1..];
        }
      }
      assert s == [s[0]] + s[1..];
    }
  }

  /** Two texts that agree up to and including their first separator agree before it and after it. */
  lemma FirstSeparator(a: string, b: string, x: string, y: string, sep: char)
    requires sep !in a && sep !in x && a + [sep] + b == x + [sep] + y
    ensures a == x && b == y
  {
    UpToSeparator(a, b, sep);
    UpToSeparator(x, y, sep);
    assert b == (a + [sep] + b)[|a| + 1..] && y == (x + [sep] + y)[|x| + 1..];
  }

  lemma UpToSeparator(a: string, b: string, sep: char)
    requires sep !in a
    ensures Split(a + [sep] + b, sep)[0] == a
  {
    SplitHead(a, [sep] + b, sep);
    assert a + [sep] + b == a + ([sep] + b) && a + "" == a;
  }

  predicate IsDigits(s: string) {
    forall i :: 0 <= i < |s| ==> '0' <= s[i] <= '9'
  }

  /** Decimal digits of a natural number, as `str(n)` writes them. */
  function Decimal(n: nat): (s: string)
    ensures s != "" && IsDigits(s)
  {
    var d := [((n % 10) + 48) as char];
    if n < 10 then d else Decimal(n / 10) + d
  }

  /** The number a digit string stands for, as `int(s)` reads it. */
  function Value(s: string): nat
    requires IsDigits(s)
  {
    if s == "" then 0 else 10 * Value(s[..|s| - 1]) + (s[|s| - 1] as int - '0' as int)
  }

  lemma {:induction false} ValueOfDecimal(n: nat)
    ensures Value(Decimal(n)) == n
  {
    var s := Decimal(n);
    if n >= 10 {
      ValueOfDecimal(n / 10);
      assert s[..|s| - 1] == Decimal(n / 10);
    }
  }

  lemma DecimalIsInjective(m: nat, n: nat)
    requires Decimal(m) == Decimal(n)
    ensures m == n
  {
    ValueOfDecimal(m);
    ValueOfDecimal(n);
  }
}
