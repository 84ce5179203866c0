/** The two identifier formats, `DOC-CLAIM-0001` and `DOC-CAND-<12 hex>`, and what the id checks establish. */
module ClaimIds {
  import opened Ordering

  const CLAIM_PREFIX := "DOC-CLAIM-"
  const CANDIDATE_PREFIX := "DOC-CAND-"
  const FIRST_CURATED_CLAIM := "DOC-CLAIM-0019"

  predicate IsHex(c: char) {
    '0' <= c <= '9' || 'a' <= c <= 'f'
  }

  /** `^DOC-CAND-[a-f0-9]{12}$` on a stripped text. */
  predicate MatchesCandidateId(s: string) {
    |s| == |CANDIDATE_PREFIX| + 12 && CANDIDATE_PREFIX <= s
    && forall i :: |CANDIDATE_PREFIX| <= i < |s| ==> IsHex(s[i])
  }

  /** The value of `n` as a digit of a script with one of these zeros, or -1. */
  function DigitIn(n: int, zeros: seq<int>): (v: int)
    ensures -1 <= v <= 9
    ensures (forall i :: 0 <= i < |zeros| ==> zeros[i] >= 0x660) && v >= 0 ==> n >= 0x660
    ensures (forall i :: 0 <= i < |zeros| ==> !(zeros[i] <= n < zeros[i] + 10)) ==> v == -1
  {
    if zeros == [] then -1
    else if zeros[0] <= n < zeros[0] + 10 then n - zeros[0]
    else
      assert forall i :: 0 <= i < |zeros[1..]| ==> zeros[1..][i] == zeros[i + 1];
      DigitIn(n, zeros[1..])
  }

  /** The value of a decimal digit beyond ASCII, or -1: the zeros of the other scripts, each followed by the other nine
      digits (Unicode 14.0). */
  function OtherDigitValue(n: int): (v: int)
    ensures -1 <= v <= 9 && (v >= 0 ==> n >= 0x660)
  {
    var v := DigitIn(n, [0x660, 0x6F0, 0x7C0, 0x966, 0x9E6, 0xA66, 0xAE6, 0xB66, 0xBE6, 0xC66, 0xCE6, 0xD66, 0xDE6]);
    if v >= 0 then v else
    var v := DigitIn(n, [0xE50, 0xED0, 0xF20, 0x1040, 0x1090, 0x17E0, 0x1810, 0x1946, 0x19D0, 0x1A80, 0x1A90]);
    if v >= 0 then v else
    var v := DigitIn(n, [0x1B50, 0x1BB0, 0x1C40, 0x1C50, 0xA620, 0xA8D0, 0xA900, 0xA9D0, 0xA9F0, 0xAA50, 0xABF0]);
    if v >= 0 then v else LateDigitValue(n)
  }

  function LateDigitValue(n: int): (v: int)
    ensures -1 <= v <= 9 && (v >= 0 ==> n >= 0xFF10)
  {
    if n < 0xFF10 then -1 else
    var v := DigitIn(n, [0xFF10, 0x104A0, 0x10D30, 0x11066, 0x110F0, 0x11136, 0x111D0, 0x112F0, 0x11450, 0x114D0]);
    if v >= 0 then v else
    var v := DigitIn(n, [0x11650, 0x116C0, 0x11730, 0x118E0, 0x11950, 0x11C50, 0x11D50, 0x11DA0, 0x16A60, 0x16AC0]);
    if v >= 0 then v else
    DigitIn(n, [0x16B50, 0x1D7CE, 0x1D7D8, 0x1D7E2, 0x1D7EC, 0x1D7F6, 0x1E140, 0x1E2F0, 0x1E950, 0x1FBF0])
  }

  lemma NoDigitsBeforeKhmer(n: int)
    requires 0x109A <= n < 0x17E0
    ensures OtherDigitValue(n) == -1
  {
  }

  lemma NoDigitsBeforeVai(n: int)
    requires 0x1C5A <= n < 0xA620
    ensures OtherDigitValue(n) == -1
  {
  }

  /** The value of a decimal digit of any script, or -1: what `\d` accepts and `int` reads. */
  function DigitValue(c: char): (v: int)
    ensures -1 <= v <= 9
  {
    if IsAsciiDigit(c) then c as int - '0' as int else OtherDigitValue(c as int)
  }

  predicate IsAsciiDigit(c: char) {
    '0' <= c <= '9'
  }

  /** `^DOC-CLAIM-\d{4}$` on a stripped text. */
  predicate MatchesClaimId(s: string) {
    |s| == |CLAIM_PREFIX| + 4 && CLAIM_PREFIX <= s
    && forall i :: |CLAIM_PREFIX| <= i < |s| ==> DigitValue(s[i]) >= 0
  }

  function Suffix(id: string): (s: string)
    requires MatchesClaimId(id)
    ensures |s| == 4 && id == CLAIM_PREFIX + s && forall i :: 0 <= i < 4 ==> DigitValue(s[i]) >= 0
  {
    assert forall i :: 0 <= i < 4 ==> id[|CLAIM_PREFIX|..][i] == id[|CLAIM_PREFIX| + i];
    id[|CLAIM_PREFIX|..]
  }

  function Number(id: string): nat
    requires MatchesClaimId(id)
  {
    var s := Suffix(id);
    1000 * DigitValue(s[0]) + 100 * DigitValue(s[1]) + 10 * DigitValue(s[2]) + DigitValue(s[3])
  }

  predicate IsAscii(id: string)
    requires MatchesClaimId(id)
  {
    forall i :: 0 <= i < 4 ==> IsAsciiDigit(Suffix(id)[i])
  }

  /** On ids with ASCII digits, string order is numeric order. */
  lemma AsciiOrder(a: string, b: string)
    requires MatchesClaimId(a) && MatchesClaimId(b) && IsAscii(a) && IsAscii(b)
    ensures StringLe(a, b) <==> Number(a) <= Number(b)
    ensures Number(a) == Number(b) <==> a == b
  {
    var s, t := Suffix(a), Suffix(b);
    StringLeCommonPrefix(CLAIM_PREFIX, s, t);
    StringLeFour(s, t);
  }

  lemma StringLeFour(s: string, t: string)
    requires |s| == |t| == 4
    ensures StringLe(s, t) <==>
            s[0] < t[0] || (s[0] == t[0] && (s[1] < t[1] || (s[1] == t[1] &&
            (s[2] < t[2] || (s[2] == t[2] && s[3] <= t[3])))))
    ensures s == t <==> s[0] == t[0] && s[1] == t[1] && s[2] == t[2] && s[3] == t[3]
  {
    var (s1, t1) := (s[1..], t[1..]);
    var (s2, t2) := (s1[1..], t1[1..]);
    var (s3, t3) := (s2[1..], t2[1..]);
    assert StringLe(s3, t3) <==> s[3] <= t[3] by {
      assert s3[1..] == "" && t3[1..] == "";
    }
    assert StringLe(s2, t2) <==> s[2] < t[2] || (s[2] == t[2] && StringLe(s3, t3));
    assert StringLe(s1, t1) <==> s[1] < t[1] || (s[1] == t[1] && StringLe(s2, t2));
  }

  /** When the string test for a curated claim agrees with the number: always, except for small numbers
      written with other scripts' digits in the first three places, or after `001`. */
  lemma CuratedTestAgrees(id: string)
    requires MatchesClaimId(id)
    ensures (StringLe(FIRST_CURATED_CLAIM, id) <==> Number(id) >= 19) <==>
            Number(id) >= 19 || IsAscii(id) || Suffix(id)[..3] == "000"
  {
    var s := Suffix(id);
    assert FIRST_CURATED_CLAIM == CLAIM_PREFIX + "0019";
    StringLeCommonPrefix(CLAIM_PREFIX, "0019", s);
    StringLeFour("0019", s);
    assert Suffix(id)[..3] == "000" <==> s[0] == '0' && s[1] == '0' && s[2] == '0';
  }

  predicate AllClaimIds(ids: seq<string>) {
    forall i :: 0 <= i < |ids| ==> MatchesClaimId(ids[i])
  }

  predicate AllAscii(ids: seq<string>)
    requires AllClaimIds(ids)
  {
    forall i :: 0 <= i < |ids| ==> IsAscii(ids[i])
  }

  /** The ids' numbers go strictly upwards. */
  predicate CountsUp(ids: seq<string>)
    requires AllClaimIds(ids)
  {
    forall i, j :: 0 <= i < j < |ids| ==> Number(ids[i]) < Number(ids[j])
  }

  /** Of two of these characters, the later one is the larger digit. */
  predicate InDigitOrder(digits: set<char>) {
    forall c, d :: c in digits && d in digits && c < d ==> DigitValue(c) < DigitValue(d)
  }

  predicate DigitsIn(ids: seq<string>, digits: set<char>)
    requires AllClaimIds(ids)
  {
    forall i, k :: 0 <= i < |ids| && 0 <= k < 4 ==> Suffix(ids[i])[k] in digits
  }

  function DigitsOf(ids: seq<string>): set<char>
    requires AllClaimIds(ids)
  {
    set i, k | 0 <= i < |ids| && 0 <= k < 4 :: Suffix(ids[i])[k]
  }

  lemma DigitsInUse(ids: seq<string>)
    requires AllClaimIds(ids)
    ensures DigitsIn(ids, DigitsOf(ids))
    ensures AllAscii(ids) ==> InDigitOrder(DigitsOf(ids))
  {
    if AllAscii(ids) {
      AsciiInOrder(DigitsOf(ids));
    }
  }

  lemma PairCountsUp(a: string, b: string, digits: set<char>)
    requires MatchesClaimId(a) && MatchesClaimId(b) && InDigitOrder(digits) && StringLe(a, b) && a != b
    requires forall k :: 0 <= k < 4 ==> Suffix(a)[k] in digits && Suffix(b)[k] in digits
    ensures Number(a) < Number(b)
  {
    var s, t := Suffix(a), Suffix(b);
    StringLeCommonPrefix(CLAIM_PREFIX, s, t);
    LessByDigits(DigitValue, s, t, digits);
  }

  /** Four characters of `digits` read as a number, whatever the values of the characters are. */
  lemma LessByDigits(value: char -> int, s: string, t: string, digits: set<char>)
    requires |s| == |t| == 4 && StringLe(s, t) && s != t
    requires forall k :: 0 <= k < 4 ==> s[k] in digits && t[k] in digits
    requires forall c :: c in digits ==> value(c) <= 9
    requires forall k :: 0 <= k < 4 ==> 0 <= value(s[k]) && 0 <= value(t[k])
    requires forall c, d :: c in digits && d in digits && c < d ==> value(c) < value(d)
    ensures 1000 * value(s[0]) + 100 * value(s[1]) + 10 * value(s[2]) + value(s[3])
            < 1000 * value(t[0]) + 100 * value(t[1]) + 10 * value(t[2]) + value(t[3])
  {
    StringLeFour(s, t);
    forall k | 0 <= k < 4 && s[k] < t[k] ensures value(s[k]) < value(t[k]) {
      assert s[k] in digits && t[k] in digits;
    }
  }

  /** In characters whose order is that of their digits, sorted distinct ids count up. */
  lemma SortedIdsCountUp(ids: seq<string>, digits: set<char>)
    requires AllClaimIds(ids) && Distinct(ids) && Sorted(ids) && DigitsIn(ids, digits) && InDigitOrder(digits)
    ensures CountsUp(ids)
  {
    forall i, j | 0 <= i < j < |ids| ensures Number(ids[i]) < Number(ids[j]) {
      PairCountsUp(ids[i], ids[j], digits);
    }
  }

  /** The id whose digits are `c`, `c`, `c` and `d`. */
  function IdOf(c: char, d: char): string {
    CLAIM_PREFIX + [c, c, c, d]
  }

  lemma IdOfDigits(c: char, d: char)
    requires DigitValue(c) >= 0 && DigitValue(d) >= 0
    ensures MatchesClaimId(IdOf(c, d)) && Suffix(IdOf(c, d)) == [c, c, c, d]
  {
  }

  /** In other characters some sorted distinct ids do not. */
  lemma SomeIdsCountDown(digits: set<char>, c: char, d: char) returns (ids: seq<string>)
    requires c in digits && d in digits && c < d && 0 <= DigitValue(d) <= DigitValue(c)
    ensures AllClaimIds(ids) && DigitsIn(ids, digits) && Distinct(ids) && Sorted(ids) && !CountsUp(ids)
  {
    var a, b := IdOf(c, c), IdOf(c, d);
    IdOfDigits(c, c);
    IdOfDigits(c, d);
    StringLeCommonPrefix(CLAIM_PREFIX, [c, c, c, c], [c, c, c, d]);
    StringLeFour([c, c, c, c], [c, c, c, d]);
    ids := [a, b];
    assert Suffix(a)[3] == c && Suffix(b)[3] == d;
    assert ids[0] == a && ids[1] == b;
  }

  ghost predicate AlwaysCountsUp(digits: set<char>) {
    forall ids :: AllClaimIds(ids) && DigitsIn(ids, digits) && Distinct(ids) && Sorted(ids) ==> CountsUp(ids)
  }

  /** For the digits in use, the exact condition: every sorted list of distinct ids counts up if and only if a later
      character is always a larger digit. */
  lemma CountingUpExactly(digits: set<char>)
    requires forall c :: c in digits ==> DigitValue(c) >= 0
    ensures AlwaysCountsUp(digits) <==> InDigitOrder(digits)
  {
    if InDigitOrder(digits) {
      forall ids | AllClaimIds(ids) && DigitsIn(ids, digits) && Distinct(ids) && Sorted(ids) ensures CountsUp(ids) {
        SortedIdsCountUp(ids, digits);
      }
    } else {
      var c, d :| c in digits && d in digits && c < d && DigitValue(c) >= DigitValue(d);
      var ids := SomeIdsCountDown(digits, c, d);
    }
  }

  /** A digit of the script whose zero this is. */
  predicate IsDigitFrom(zero: char, c: char) {
    DigitValue(c) >= 0 && c as int - DigitValue(c) == zero as int
  }

  /** The digits of any one script are in order. */
  lemma OneScriptInOrder(zero: char, digits: set<char>)
    requires forall c :: c in digits ==> IsDigitFrom(zero, c)
    ensures InDigitOrder(digits)
  {
  }

  /** The ASCII digits are in order. */
  lemma AsciiInOrder(digits: set<char>)
    requires forall c :: c in digits ==> IsAsciiDigit(c)
    ensures InDigitOrder(digits)
  {
  }

  /** Ids that count up are at most 10000. */
  lemma CountingUpIsBounded(ids: seq<string>)
    requires AllClaimIds(ids) && CountsUp(ids)
    ensures |ids| <= 10000
  {
    if |ids| > 0 {
      RoomBelow(ids, |ids| - 1);
    }
  }

  lemma {:induction false} RoomBelow(ids: seq<string>, k: nat)
    requires k < |ids| && AllClaimIds(ids) && CountsUp(ids)
    ensures k <= Number(ids[k]) < 10000
  {
    if k > 0 {
      RoomBelow(ids, k - 1);
    }
  }

  /** Digits of two scripts are well-formed together, and then sorted ids need not be numbered upwards. */
  lemma OtherScriptsBreakTheOrder(a: string, b: string)
    requires a == "DOC-CLAIM-0020" && b == "DOC-CLAIM-\U{0660}\U{0660}\U{0660}\U{0661}"
    ensures AllClaimIds([a, b]) && Distinct([a, b]) && Sorted([a, b])
    ensures Number(a) == 20 && Number(b) == 1
    ensures StringLe(FIRST_CURATED_CLAIM, b)
  {
    IdTwenty(a);
    IdArabicOne(b);
    AsciiIsBefore("0020", Suffix(b));
    assert FIRST_CURATED_CLAIM == CLAIM_PREFIX + "0019";
    AsciiIsBefore("0019", Suffix(b));
  }

  lemma IdTwenty(id: string)
    requires id == "DOC-CLAIM-0020"
    ensures MatchesClaimId(id) && id == CLAIM_PREFIX + "0020" && Number(id) == 20
  {
    assert id == CLAIM_PREFIX + "0020";
    assert id[|CLAIM_PREFIX|..] == "0020";
  }

  lemma IdArabicOne(id: string)
    requires id == "DOC-CLAIM-\U{0660}\U{0660}\U{0660}\U{0661}"
    ensures MatchesClaimId(id) && Suffix(id)[0] == '\U{0660}' && Number(id) == 1
  {
    var s := "\U{0660}\U{0660}\U{0660}\U{0661}";
    assert OtherDigitValue(0x660) == 0 && OtherDigitValue(0x661) == 1;
    assert id == CLAIM_PREFIX + s;
    assert id[|CLAIM_PREFIX|..] == s;
  }

  lemma AsciiIsBefore(s: string, t: string)
    requires |s| == |t| == 4 && s[0] < t[0]
    ensures StringLe(CLAIM_PREFIX + s, CLAIM_PREFIX + t)
  {
    StringLeCommonPrefix(CLAIM_PREFIX, s, t);
  }

  // ----- the formats

  /** `DOC-CAND-` and twelve characters from 0 to 9 and a to f. */
  lemma CandidateIdExactly(s: string)
    ensures MatchesCandidateId(s) <==>
            exists h :: s == "DOC-CAND-" + h && |h| == 12
              && forall i :: 0 <= i < 12 ==> '0' <= h[i] <= '9' || 'a' <= h[i] <= 'f'
  {
    if MatchesCandidateId(s) {
      var h := s[|CANDIDATE_PREFIX|..];
      assert s == "DOC-CAND-" + h;
      forall i | 0 <= i < 12 ensures '0' <= h[i] <= '9' || 'a' <= h[i] <= 'f' {
        assert IsHex(s[|CANDIDATE_PREFIX| + i]);
      }
    }
    if h :| s == "DOC-CAND-" + h && |h| == 12 && forall i :: 0 <= i < 12 ==> '0' <= h[i] <= '9' || 'a' <= h[i] <= 'f' {
      forall i | |CANDIDATE_PREFIX| <= i < |s| ensures IsHex(s[i]) {
        assert s[i] == h[i - |CANDIDATE_PREFIX|];
      }
    }
  }

  /** `DOC-CLAIM-` and four digits. */
  lemma ClaimIdExactly(s: string)
    ensures MatchesClaimId(s) <==>
            exists h :: s == "DOC-CLAIM-" + h && |h| == 4 && forall i :: 0 <= i < 4 ==> DigitValue(h[i]) >= 0
  {
    if MatchesClaimId(s) {
      var h := Suffix(s);
      assert s == "DOC-CLAIM-" + h;
    }
    if h :| s == "DOC-CLAIM-" + h && |h| == 4 && forall i :: 0 <= i < 4 ==> DigitValue(h[i]) >= 0 {
      forall i | |CLAIM_PREFIX| <= i < |s| ensures DigitValue(s[i]) >= 0 {
        assert s[i] == h[i - |CLAIM_PREFIX|];
      }
    }
  }
}
