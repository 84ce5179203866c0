/** The collector of the top next checks of a diagnostic pack, with its early exits. */
module TopNextChecks {
  import opened Wrappers
  import opened Text

  const MAX_TOP_NEXT_CHECKS := 6

  /** What one offered text adds to the texts kept so far: nothing when it is missing, blank or known. */
  function Admit(kept: seq<string>, text: Option<string>): seq<string> {
    if text.None? || Strip(text.value) == "" || Strip(text.value) in kept then kept else kept + [Strip(text.value)]
  }

  /** Stripped, without blanks and repeats, in order of first occurrence. */
  function Kept(stream: seq<Option<string>>): seq<string> {
    if stream == [] then [] else Admit(Kept(stream[..|stream| - 1]), stream[|stream| - 1])
  }

  // ----- Kept is the deduplicated stream

  lemma {:induction false} KeptGrows(a: seq<Option<string>>, b: seq<Option<string>>)
    ensures Kept(a) <= Kept(a + b)
    ensures |Kept(a + b)| <= |Kept(a)| + |b|
  {
    if b == [] {
      assert a + b == a;
    } else {
      var k := |b| - 1;
      assert (a + b)[..|a + b| - 1] == a + b[..k];
      KeptGrows(a, b[..k]);
    }
  }

  lemma {:induction false} KeptIsDeduplicated(stream: seq<Option<string>>)
    ensures forall i, j :: 0 <= i < j < |Kept(stream)| ==> Kept(stream)[i] != Kept(stream)[j]
    ensures forall i :: 0 <= i < |Kept(stream)| ==> Kept(stream)[i] != "" && Strip(Kept(stream)[i]) == Kept(stream)[i]
  {
    if stream != [] {
      var k := |stream| - 1;
      KeptIsDeduplicated(stream[..k]);
      if stream[k].Some? {
        StripTwice(stream[k].value);
      }
    }
  }

  lemma {:induction false} KeptHasExactlyTheTexts(stream: seq<Option<string>>, x: string)
    ensures x in Kept(stream) <==>
      x != "" && exists i :: 0 <= i < |stream| && stream[i].Some? && Strip(stream[i].value) == x
  {
    if stream != [] {
      var k := |stream| - 1;
      KeptHasExactlyTheTexts(stream[..k], x);
      assert forall i :: 0 <= i < k ==> stream[..k][i] == stream[i];
    }
  }

  /** A text first offered before another one is kept before it. */
  lemma KeptFollowsFirstOffers(stream: seq<Option<string>>, n: nat, x: string, y: string, i: nat, j: nat)
    requires n <= |stream| && i < |Kept(stream)| && j < |Kept(stream)| && Kept(stream)[i] == x && Kept(stream)[j] == y
    requires x in Kept(stream[..n]) && y !in Kept(stream[..n])
    ensures i < j
  {
    assert stream[..n] + stream[n..] == stream;
    KeptGrows(stream[..n], stream[n..]);
    KeptIsDeduplicated(stream);
    var early := Kept(stream[..n]);
    var a :| 0 <= a < |early| && early[a] == x;
    assert Kept(stream)[a] == x && a == i;
    assert forall k :: 0 <= k < |early| ==> early[k] == Kept(stream)[k];
  }

  // ----- the code

  class Collector {
    var seen: set<string>
    var candidates: seq<string>

    ghost predicate Valid()
      reads this
    {
      seen == set x | x in candidates
    }

    constructor ()
      ensures Valid() && candidates == []
    {
      seen, candidates := {}, [];
    }

    method AddCandidate(text: Option<string>)
      requires Valid()
      modifies this
      ensures Valid() && candidates == Admit(old(candidates), text)
    {
      if text.None? || text.value == "" {
        assert text.Some? ==> Strip(text.value) == "";
        return;
      }
      var stripped := Strip(text.value);
      if stripped == "" || stripped in seen {
        return;
      }
      seen := seen + {stripped};
      candidates := candidates + [stripped];
    }
  }

  /** Everything offered ahead of the external checks. */
  function Offered(sections: seq<seq<Option<string>>>): (all: seq<Option<string>>) {
    if sections == [] then [] else Offered(sections[..|sections| - 1]) + sections[|sections| - 1]
  }

  function Ahead(sections: seq<seq<Option<string>>>, action: Option<string>, drilldown: Option<string>)
    : seq<Option<string>>
  {
    Offered(sections) + [action, drilldown]
  }

  /** The limit is missed exactly when the external loop starts, after sections that did not fill the list, and its
      first round leaves more than six texts. */
  predicate Overflows(sections: seq<seq<Option<string>>>, action: Option<string>, drilldown: Option<string>,
                      external: seq<Option<string>>)
  {
    && |Kept(Offered(sections))| < MAX_TOP_NEXT_CHECKS
    && external != []
    && |Kept(Ahead(sections, action, drilldown) + external[..1])| > MAX_TOP_NEXT_CHECKS
  }

  function Min(a: nat, b: nat): nat {
    if a <= b then a else b
  }

  /** The first six of the deduplicated stream when the limit is kept; otherwise seven or eight of it. */
  ghost predicate IsTop(result: seq<string>, sections: seq<seq<Option<string>>>, action: Option<string>,
                        drilldown: Option<string>, external: seq<Option<string>>)
  {
    var whole := Kept(Ahead(sections, action, drilldown) + external);
    && result <= whole
    && |result| == (if Overflows(sections, action, drilldown, external)
                    then |Kept(Ahead(sections, action, drilldown) + external[..1])|
                    else Min(MAX_TOP_NEXT_CHECKS, |whole|))
  }

  lemma OfferedStep(sections: seq<seq<Option<string>>>, k: nat)
    requires k < |sections|
    ensures Offered(sections[..k + 1]) == Offered(sections[..k]) + sections[k]
  {
    assert sections[..k + 1][..k] == sections[..k];
  }

  lemma {:induction false} OfferedSplits(sections: seq<seq<Option<string>>>, k: nat)
    requires k <= |sections|
    ensures Offered(sections[..k]) <= Offered(sections)
    decreases |sections| - k
  {
    if k == |sections| {
      assert sections[..k] == sections;
    } else {
      OfferedSplits(sections, k + 1);
      OfferedStep(sections, k);
    }
  }

  lemma KeptPrefix(a: seq<Option<string>>, whole: seq<Option<string>>)
    requires a <= whole
    ensures Kept(a) <= Kept(whole) && |Kept(whole)| <= |Kept(a)| + |whole| - |a|
  {
    assert a + whole[|a|..] == whole;
    KeptGrows(a, whole[|a|..]);
  }

  method BuildTopNextChecks(sections: seq<seq<Option<string>>>, action: Option<string>, drilldown: Option<string>,
                            external: seq<Option<string>>) returns (result: seq<string>)
    ensures IsTop(result, sections, action, drilldown, external)
  {
    var c := new Collector();
    for s := 0 to |sections|
      invariant c.Valid() && fresh(c)
      invariant c.candidates == Kept(Offered(sections[..s])) && |c.candidates| < MAX_TOP_NEXT_CHECKS
    {
      OfferedStep(sections, s);
      var full, offered := CollectUntilFull(c, sections[s], Offered(sections[..s]));
      if full {
        FilledBySections(sections, action, drilldown, external, s, offered);
        return c.candidates;
      }
    }
    assert sections[..|sections|] == sections;
    ghost var base := Offered(sections);
    c.AddCandidate(action);
    KeptPush(base, action);
    c.AddCandidate(drilldown);
    KeptPush(base + [action], drilldown);
    assert Ahead(sections, action, drilldown) == base + [action] + [drilldown];
    var full, offered := CollectUntilFull(c, external, Ahead(sections, action, drilldown));
    if full {
      FilledByExternal(sections, action, drilldown, external, offered);
      return c.candidates;
    }
    NeverFilled(sections, action, drilldown, external);
    result := c.candidates[..Min(MAX_TOP_NEXT_CHECKS, |c.candidates|)];
  }

  /** The loop over one list of texts: it stops after the first text with which the list is full. */
  method CollectUntilFull(c: Collector, texts: seq<Option<string>>, ghost base: seq<Option<string>>)
    returns (full: bool, offered: nat)
    requires c.Valid() && c.candidates == Kept(base)
    modifies c
    ensures c.Valid() && offered <= |texts|
    ensures c.candidates == Kept(base + texts[..offered])
    ensures full ==> offered > 0 && |c.candidates| >= MAX_TOP_NEXT_CHECKS
    ensures |old(c.candidates)| < MAX_TOP_NEXT_CHECKS ==>
      if full then |c.candidates| == MAX_TOP_NEXT_CHECKS else |c.candidates| < MAX_TOP_NEXT_CHECKS
    ensures full && offered > 1 ==> |Kept(base + texts[..offered - 1])| < MAX_TOP_NEXT_CHECKS
    ensures !full ==> c.candidates == Kept(base + texts) && (texts != [] ==> |c.candidates| < MAX_TOP_NEXT_CHECKS)
  {
    assert base + texts[..0] == base;
    offered := 0;
    while offered < |texts|
      invariant c.Valid() && offered <= |texts|
      invariant c.candidates == Kept(base + texts[..offered])
      invariant offered == 0 ==> c.candidates == old(c.candidates)
      invariant offered > 0 ==> |c.candidates| < MAX_TOP_NEXT_CHECKS
    {
      AdmitAddsOne(c.candidates, texts[offered]);
      c.AddCandidate(texts[offered]);
      KeptOneMore(base, texts, offered);
      offered := offered + 1;
      if |c.candidates| >= MAX_TOP_NEXT_CHECKS {
        assert (offered - 1) + 1 == offered;
        return true, offered;
      }
    }
    assert texts[..|texts|] == texts;
    full := false;
  }

  lemma KeptPush(s: seq<Option<string>>, text: Option<string>)
    ensures Kept(s + [text]) == Admit(Kept(s), text)
  {
    assert (s + [text])[..|s|] == s;
  }

  lemma KeptOneMore(base: seq<Option<string>>, more: seq<Option<string>>, e: nat)
    requires e < |more|
    ensures Kept(base + more[..e + 1]) == Admit(Kept(base + more[..e]), more[e])
  {
    KeptPush(base + more[..e], more[e]);
    assert base + more[..e + 1] == base + more[..e] + [more[e]];
  }

  lemma AdmitAddsOne(kept: seq<string>, text: Option<string>)
    ensures |Admit(kept, text)| <= |kept| + 1
  {
  }

  lemma FilledBySections(sections: seq<seq<Option<string>>>, action: Option<string>, drilldown: Option<string>,
                         external: seq<Option<string>>, s: nat, e: nat)
    requires s < |sections| && e <= |sections[s]|
    requires |Kept(Offered(sections[..s]) + sections[s][..e])| == MAX_TOP_NEXT_CHECKS
    ensures IsTop(Kept(Offered(sections[..s]) + sections[s][..e]), sections, action, drilldown, external)
  {
    var sofar := Offered(sections[..s]) + sections[s][..e];
    OfferedStep(sections, s);
    OfferedSplits(sections, s + 1);
    assert sofar <= Offered(sections[..s + 1]);
    assert sofar <= Offered(sections);
    KeptPrefix(sofar, Offered(sections));
    assert sofar <= Ahead(sections, action, drilldown) + external;
    KeptPrefix(sofar, Ahead(sections, action, drilldown) + external);
  }

  lemma FilledByExternal(sections: seq<seq<Option<string>>>, action: Option<string>, drilldown: Option<string>,
                         external: seq<Option<string>>, e: nat)
    requires 0 < e <= |external| && |Kept(Offered(sections))| < MAX_TOP_NEXT_CHECKS
    requires |Kept(Ahead(sections, action, drilldown) + external[..e])| >= MAX_TOP_NEXT_CHECKS
    requires e > 1 ==> |Kept(Ahead(sections, action, drilldown) + external[..e - 1])| < MAX_TOP_NEXT_CHECKS
    ensures IsTop(Kept(Ahead(sections, action, drilldown) + external[..e]), sections, action, drilldown, external)
  {
    var ahead := Ahead(sections, action, drilldown);
    KeptPrefix(ahead + external[..e], ahead + external);
    var k := e - 1;
    KeptOneMore(ahead, external, k);
    if e > 1 {
      KeptPrefix(ahead + external[..1], ahead + external[..k]);
    }
  }

  lemma NeverFilled(sections: seq<seq<Option<string>>>, action: Option<string>, drilldown: Option<string>,
                    external: seq<Option<string>>)
    requires external != [] ==> |Kept(Ahead(sections, action, drilldown) + external)| < MAX_TOP_NEXT_CHECKS
    ensures !Overflows(sections, action, drilldown, external)
  {
    if external != [] {
      var ahead := Ahead(sections, action, drilldown);
      KeptPrefix(ahead + external[..1], ahead + external);
    }
  }

  // ----- the bound

  /** Never more than eight; more than six exactly when `Overflows`. */
  lemma SizeOfTop(result: seq<string>, sections: seq<seq<Option<string>>>, action: Option<string>,
      drilldown: Option<string>, external: seq<Option<string>>)
    requires IsTop(result, sections, action, drilldown, external)
    ensures |result| <= MAX_TOP_NEXT_CHECKS + 2
    ensures |result| > MAX_TOP_NEXT_CHECKS <==> Overflows(sections, action, drilldown, external)
    ensures |result| >= Min(MAX_TOP_NEXT_CHECKS, |Kept(Ahead(sections, action, drilldown) + external)|)
  {
    if external != [] {
      KeptGrows(Offered(sections), [action, drilldown]);
      KeptGrows(Ahead(sections, action, drilldown), external[..1]);
    }
  }

  function Letters(letters: string): seq<Option<string>> {
    seq(|letters|, i requires 0 <= i < |letters| => Some([letters[i]]))
  }

  lemma {:induction false} KeptLetters(letters: string)
    requires forall i, j :: 0 <= i < j < |letters| ==> letters[i] != letters[j]
    requires forall i :: 0 <= i < |letters| ==> !IsSpace(letters[i])
    ensures |Kept(Letters(letters))| == |letters|
    ensures forall i :: 0 <= i < |letters| ==> Kept(Letters(letters))[i] == [letters[i]]
  {
    if letters != "" {
      var k := |letters| - 1;
      KeptLetters(letters[..k]);
      assert Letters(letters)[..k] == Letters(letters[..k]);
      StripUnchanged([letters[k]]);
    }
  }

  /** Eight is reached: five section texts, an action, a drilldown and one external check. */
  lemma EightIsReached(result: seq<string>)
    requires IsTop(result, [Letters("abcde")], Some("f"), Some("g"), Letters("h"))
    ensures |result| == MAX_TOP_NEXT_CHECKS + 2
  {
    var section := Letters("abcde");
    assert Offered([section]) == Offered([]) + section == section;
    KeptLetters("abcde");
    EightLetters();
    KeptLetters("abcdefgh");
  }

  lemma EightLetters()
    ensures Ahead([Letters("abcde")], Some("f"), Some("g")) + Letters("h")[..1] == Letters("abcdefgh")
  {
    var section := Letters("abcde");
    assert [section][..0] == [];
    assert Offered([section]) == Offered([]) + section == section;
    assert section + [Some("f"), Some("g")] + Letters("h")[..1] == Letters("abcdefgh");
  }

  // ----- the order

  function Texts(all: seq<string>): (stream: seq<Option<string>>)
    ensures |stream| == |all| && forall i :: 0 <= i < |all| ==> stream[i] == Some(all[i])
  {
    seq(|all|, i requires 0 <= i < |all| => Some(all[i]))
  }

  /** Stripped texts that are not blank, each only once. */
  predicate AreNew(all: seq<string>) {
    && (forall i :: 0 <= i < |all| ==> all[i] != "" && Strip(all[i]) == all[i])
    && forall i, j :: 0 <= i < j < |all| ==> all[i] != all[j]
  }

  lemma {:induction false} NewTextsAreKept(all: seq<string>)
    requires AreNew(all)
    ensures Kept(Texts(all)) == all
  {
    if all != [] {
      var k := |all| - 1;
      NewTextsAreKept(all[..k]);
      assert Texts(all)[..k] == Texts(all[..k]);
      assert all == all[..k] + [all[k]];
    }
  }

  /** The sections come first, in their order, then the action, then the drilldown, then the external checks: of new
      texts the result is the first in this order, and all when they are at most six. */
  lemma ListedInOrder(result: seq<string>, a: seq<string>, b: seq<string>, c: seq<string>, action: string,
      drilldown: string, external: seq<string>)
    requires AreNew(a + b + c + [action] + [drilldown] + external)
    requires IsTop(result, [Texts(a), Texts(b), Texts(c)], Some(action), Some(drilldown), Texts(external))
    ensures result <= a + b + c + [action] + [drilldown] + external
    ensures |a + b + c + [action] + [drilldown] + external| <= 6 ==>
      result == a + b + c + [action] + [drilldown] + external
  {
    var all := a + b + c + [action] + [drilldown] + external;
    var ahead := Ahead([Texts(a), Texts(b), Texts(c)], Some(action), Some(drilldown));
    ThreeSections(Texts(a), Texts(b), Texts(c));
    StreamOfTexts(a, b, c, action, drilldown, external);
    NewTextsAreKept(all);
    if external != [] {
      KeptPrefix(ahead + Texts(external)[..1], ahead + Texts(external));
    }
  }

  lemma StreamOfTexts(a: seq<string>, b: seq<string>, c: seq<string>, action: string, drilldown: string,
      external: seq<string>)
    ensures Texts(a) + Texts(b) + Texts(c) + [Some(action), Some(drilldown)] + Texts(external)
            == Texts(a + b + c + [action] + [drilldown] + external)
  {
  }

  lemma ThreeSections(a: seq<Option<string>>, b: seq<Option<string>>, c: seq<Option<string>>)
    ensures Offered([a, b, c]) == a + b + c
  {
    assert [a, b, c][..2] == [a, b] && [a, b][..1] == [a] && [a][..0] == [];
    assert Offered([]) == [] && Offered([a]) == a && Offered([a, b]) == a + b;
  }
}
