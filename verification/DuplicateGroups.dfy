/** Grouping export entries by a normalised key, which forgets letter case, space around the whole, and where a bar
    separates two parts and where it belongs to one; and marking the groups in place. */
module DuplicateGroups {
  import opened Wrappers
  import opened Text

  /** What the export adds to an entry that has duplicates. */
  datatype Mark = Mark(groupId: string, count: nat, siblings: seq<string>, isRepresentative: bool)

  datatype ExportEntry = ExportEntry(
    commandFamily: string,
    description: string,
    clusterLabel: string,
    artifactPath: string,
    mark: Option<Mark>)

  type Groups = map<string, seq<nat>>

  /** The normalised key: `"|".join(parts).lower().strip()`. */
  function KeyOf(e: ExportEntry): string {
    Strip(Lower(Join([e.commandFamily, e.description, e.clusterLabel], '|')))
  }

  /** The group of an entry; `digest` is the first 12 hex digits of SHA-256. */
  function GroupId(digest: string -> string, e: ExportEntry): string {
    "dup-" + digest(KeyOf(e))
  }

  function GroupIds(digest: string -> string, entries: seq<ExportEntry>): (ids: seq<string>)
    ensures |ids| == |entries| && forall i :: 0 <= i < |ids| ==> ids[i] == GroupId(digest, entries[i])
  {
    seq(|entries|, i requires 0 <= i < |entries| => GroupId(digest, entries[i]))
  }

  // ----- groups of indices

  /** The positions of `id` among the first `n` ids, in order. */
  function IndicesOf(ids: seq<string>, id: string, n: nat): seq<nat>
    requires n <= |ids|
  {
    if n == 0 then [] else if ids[n - 1] == id then IndicesOf(ids, id, n - 1) + [n - 1] else IndicesOf(ids, id, n - 1)
  }

  /** Every id with its positions. */
  ghost predicate Grouped(groups: Groups, ids: seq<string>, n: nat)
    requires n <= |ids|
  {
    && (forall id :: id in groups ==> groups[id] == IndicesOf(ids, id, n) && groups[id] != [])
    && (forall i :: 0 <= i < n ==> ids[i] in groups)
  }

  /** The ids that occur more than once, each with all its positions. */
  function GroupsOf(ids: seq<string>): Groups {
    map id | id in ids && |IndicesOf(ids, id, |ids|)| > 1 :: IndicesOf(ids, id, |ids|)
  }

  lemma GroupOneMore(groups: Groups, ids: seq<string>, n: nat)
    requires n < |ids| && Grouped(groups, ids, n)
    ensures Grouped(groups[ids[n] := (if ids[n] in groups then groups[ids[n]] else []) + [n]], ids, n + 1)
  {
    if ids[n] !in groups {
      NoIndices(ids, ids[n], n);
    }
  }

  lemma {:induction false} NoIndices(ids: seq<string>, id: string, n: nat)
    requires n <= |ids| && forall i :: 0 <= i < n ==> ids[i] != id
    ensures IndicesOf(ids, id, n) == []
  {
    if n > 0 {
      NoIndices(ids, id, n - 1);
    }
  }

  lemma {:induction false} IndicesExact(ids: seq<string>, id: string, n: nat)
    requires n <= |ids|
    ensures forall k :: 0 <= k < |IndicesOf(ids, id, n)| ==>
      IndicesOf(ids, id, n)[k] < n && ids[IndicesOf(ids, id, n)[k]] == id
    ensures forall j, k :: 0 <= j < k < |IndicesOf(ids, id, n)| ==> IndicesOf(ids, id, n)[j] < IndicesOf(ids, id, n)[k]
  {
    if n > 0 {
      IndicesExact(ids, id, n - 1);
    }
  }

  lemma {:induction false} IndicesComplete(ids: seq<string>, id: string, n: nat, i: nat)
    requires i < n <= |ids| && ids[i] == id
    ensures i in IndicesOf(ids, id, n)
  {
    if i < n - 1 {
      IndicesComplete(ids, id, n - 1, i);
    }
  }

  // ----- the code

  method DetectDuplicateGroups(digest: string -> string, entries: array<ExportEntry>) returns (groups: Groups)
    ensures groups == GroupsOf(GroupIds(digest, entries[..]))
  {
    var all: Groups := map[];
    ghost var ids := GroupIds(digest, entries[..]);
    for i := 0 to entries.Length
      invariant Grouped(all, ids, i)
    {
      var e := entries[i];
      KeyIsNeverEmpty(e);
      if KeyOf(e) == "" {
        continue;
      }
      var id := GroupId(digest, e);
      assert ids[i] == id;
      GroupOneMore(all, ids, i);
      all := all[id := (if id in all then all[id] else []) + [i]];
    }
    groups := map id | id in all && |all[id]| > 1 :: all[id];
    GroupedKeys(all, ids);
  }

  lemma GroupedKeys(all: Groups, ids: seq<string>)
    requires Grouped(all, ids, |ids|)
    ensures (map id | id in all && |all[id]| > 1 :: all[id]) == GroupsOf(ids)
  {
    var kept := map id | id in all && |all[id]| > 1 :: all[id];
    forall id ensures id in kept <==> id in GroupsOf(ids) {
      if id in kept {
        IndicesExact(ids, id, |ids|);
        assert ids[all[id][0]] == id;
      }
      if id in GroupsOf(ids) {
        var i :| 0 <= i < |ids| && ids[i] == id;
        assert ids[i] in all;
      }
    }
  }

  /** The guard against an empty key never fires: the bars between the parts survive. Entries with all parts empty
      share the key `||`. */
  lemma KeyIsNeverEmpty(e: ExportEntry)
    ensures KeyOf(e) != ""
    ensures e.commandFamily == e.description == e.clusterLabel == "" ==> KeyOf(e) == "||"
  {
    var parts := [e.commandFamily, e.description, e.clusterLabel];
    assert parts[1..] == [e.description, e.clusterLabel] && [e.description, e.clusterLabel][1..] == [e.clusterLabel];
    var joined := Join(parts, '|');
    assert joined[|e.commandFamily|] == '|';
    StripKeepsVisible(Lower(joined), |e.commandFamily|);
    if e.commandFamily == e.description == e.clusterLabel == "" {
      assert Join([""], '|') == "";
      assert Join(["", ""], '|') == "|";
      assert joined == "" + "|" + "|" == "||";
      assert Lower("||") == "||";
      StripUnchanged("||");
    }
  }

  // ----- when two keys agree

  lemma LowerAppend(a: string, b: string)
    ensures Lower(a + b) == Lower(a) + Lower(b)
  {
  }

  lemma LowerMakesNoBar(s: string)
    ensures '|' in Lower(s) <==> '|' in s
  {
    forall i | 0 <= i < |s| ensures Lower(s)[i] == '|' <==> s[i] == '|' {
    }
  }

  lemma {:induction false} StripLeftBefore(s: string, rest: string)
    requires rest != "" && !IsSpace(rest[0])
    ensures StripLeft(s + rest) == StripLeft(s) + rest
  {
    if s == "" {
      assert s + rest == rest;
    } else {
      assert (s + rest)[1..] == s[1..] + rest;
      StripLeftBefore(s[1..], rest);
    }
  }

  lemma {:induction false} StripRightAfter(front: string, s: string)
    requires front != "" && !IsSpace(front[|front| - 1])
    ensures StripRight(front + s) == front + StripRight(s)
  {
    if s == "" {
      assert front + s == front;
    } else {
      assert (front + s)[..|front + s| - 1] == front + s[..|s| - 1];
      StripRightAfter(front, s[..|s| - 1]);
    }
  }

  lemma Regrouped(x: string, y: string, z: string)
    ensures x + (y + z) == x + y + z
  {
  }

  lemma StripAround(front: string, middle: string, back: string)
    requires middle != "" && !IsSpace(middle[0]) && !IsSpace(middle[|middle| - 1])
    ensures Strip(front + (middle + back)) == StripLeft(front) + middle + StripRight(back)
  {
    var left := StripLeft(front);
    StripLeftBefore(front, middle + back);
    Regrouped(left, middle, back);
    assert (left + middle)[|left + middle| - 1] == middle[|middle| - 1];
    StripRightAfter(left + middle, back);
  }

  function Barred(description: string): string {
    ['|'] + description + ['|']
  }

  /** The key part by part. */
  lemma KeyParts(e: ExportEntry)
    ensures KeyOf(e) == StripLeft(Lower(e.commandFamily)) + Barred(Lower(e.description))
                        + StripRight(Lower(e.clusterLabel))
  {
    var f, d, c := e.commandFamily, e.description, e.clusterLabel;
    JoinThree(f, d, c);
    LowerAppend(f, Barred(d) + c);
    LowerAppend(Barred(d), c);
    assert Lower(Barred(d)) == Barred(Lower(d));
    StripAround(Lower(f), Barred(Lower(d)), Lower(c));
  }

  lemma JoinThree(f: string, d: string, c: string)
    ensures Join([f, d, c], '|') == f + (Barred(d) + c)
  {
    assert [f, d, c][1..] == [d, c] && [d, c][1..] == [c];
    assert Join([d, c], '|') == d + ['|'] + c;
    assert Join([f, d, c], '|') == f + ['|'] + Join([d, c], '|');
  }

  /** Equal up to letter case, space before the family and space after the label. */
  predicate AgreePartwise(e: ExportEntry, g: ExportEntry) {
    && StripLeft(Lower(e.commandFamily)) == StripLeft(Lower(g.commandFamily))
    && Lower(e.description) == Lower(g.description)
    && StripRight(Lower(e.clusterLabel)) == StripRight(Lower(g.clusterLabel))
  }

  /** Entries that agree part by part have one key, and without bars in family and description only those do. */
  lemma KeysAgreeExactly(e: ExportEntry, g: ExportEntry)
    ensures AgreePartwise(e, g) ==> KeyOf(e) == KeyOf(g)
    ensures '|' !in e.commandFamily + e.description && '|' !in g.commandFamily + g.description ==>
      (KeyOf(e) == KeyOf(g) <==> AgreePartwise(e, g))
  {
    KeyParts(e);
    KeyParts(g);
    if '|' !in e.commandFamily + e.description && '|' !in g.commandFamily + g.description && KeyOf(e) == KeyOf(g) {
      NoBars(e);
      NoBars(g);
      PartsAgree(StripLeft(Lower(e.commandFamily)), Lower(e.description), StripRight(Lower(e.clusterLabel)),
                 StripLeft(Lower(g.commandFamily)), Lower(g.description), StripRight(Lower(g.clusterLabel)));
    }
  }

  lemma PartsAgree(f: string, d: string, c: string, f': string, d': string, c': string)
    requires '|' !in f && '|' !in d && '|' !in f' && '|' !in d'
    requires f + Barred(d) + c == f' + Barred(d') + c'
    ensures f == f' && d == d' && c == c'
  {
    assert f + Barred(d) + c == f + ['|'] + (d + ['|'] + c);
    assert f' + Barred(d') + c' == f' + ['|'] + (d' + ['|'] + c');
    FirstSeparator(f, d + ['|'] + c, f', d' + ['|'] + c', '|');
    FirstSeparator(d, c, d', c', '|');
  }

  lemma NoBars(e: ExportEntry)
    requires '|' !in e.commandFamily + e.description
    ensures '|' !in StripLeft(Lower(e.commandFamily)) && '|' !in Lower(e.description)
  {
    LowerMakesNoBar(e.commandFamily);
    LowerMakesNoBar(e.description);
    StripLeftWindow(Lower(e.commandFamily));
  }

  /** With bars they need not: family `a|b` and description `c` share their key with family `a` and description
      `b|c`. */
  lemma BarsMoveBetweenParts(e: ExportEntry, g: ExportEntry, b: string)
    requires e.commandFamily == g.commandFamily + "|" + b && g.description == b + "|" + e.description
    requires e.clusterLabel == g.clusterLabel
    ensures KeyOf(e) == KeyOf(g)
    ensures '|' !in e.description ==> !AgreePartwise(e, g)
  {
    var d, c := e.description, e.clusterLabel;
    JoinThree(e.commandFamily, d, c);
    JoinThree(g.commandFamily, g.description, c);
    assert e.commandFamily + (Barred(d) + c) == g.commandFamily + (Barred(g.description) + c);
    LowerMakesNoBar(d);
    LowerMakesNoBar(g.description);
    assert g.description[|b|] == '|';
  }

  function PathsOf(entries: seq<ExportEntry>, indices: seq<nat>): (paths: seq<string>)
    requires forall k :: 0 <= k < |indices| ==> indices[k] < |entries|
    ensures |paths| == |indices| && forall k :: 0 <= k < |paths| ==> paths[k] == entries[indices[k]].artifactPath
  {
    seq(|indices|, k requires 0 <= k < |indices| => entries[indices[k]].artifactPath)
  }

  /** A table of disjoint groups of positions. */
  ghost predicate ValidGroups(groups: Groups, ids: seq<string>) {
    forall id :: id in groups ==> groups[id] == IndicesOf(ids, id, |ids|) && groups[id] != []
  }

  function MarkOf(entries: seq<ExportEntry>, id: string, indices: seq<nat>, i: nat): Mark
    requires indices != [] && forall k :: 0 <= k < |indices| ==> indices[k] < |entries|
  {
    Mark(id, |indices|, PathsOf(entries, indices), i == indices[0])
  }

  lemma IndicesInRange(ids: seq<string>, id: string)
    ensures forall k :: 0 <= k < |IndicesOf(ids, id, |ids|)| ==> IndicesOf(ids, id, |ids|)[k] < |ids|
  {
    IndicesExact(ids, id, |ids|);
  }

  /** What entry `i` becomes once the groups of `done` have been marked. */
  ghost predicate MarkedAt(before: seq<ExportEntry>, after: ExportEntry, i: nat, ids: seq<string>, groups: Groups,
      done: set<string>)
    requires i < |before| == |ids| && ValidGroups(groups, ids) && done <= groups.Keys
  {
    IndicesInRange(ids, ids[i]);
    after == if ids[i] in done then before[i].(mark := Some(MarkOf(before, ids[i], groups[ids[i]], i))) else before[i]
  }

  method AddDuplicateMetadata(entries: array<ExportEntry>, groups: Groups, ghost ids: seq<string>)
    requires |ids| == entries.Length && ValidGroups(groups, ids)
    modifies entries
    ensures forall i :: 0 <= i < entries.Length ==> MarkedAt(old(entries[..]), entries[i], i, ids, groups, groups.Keys)
  {
    var todo := groups.Keys;
    while todo != {}
      invariant todo <= groups.Keys
      invariant forall i :: 0 <= i < entries.Length ==>
        MarkedAt(old(entries[..]), entries[i], i, ids, groups, groups.Keys - todo)
      decreases todo
    {
      var id :| id in todo;
      MarkGroup(entries, id, groups[id], old(entries[..]), ids, groups, groups.Keys - todo);
      todo := todo - {id};
    }
  }

  /** The inner loop: mark the entries of one group. */
  method MarkGroup(entries: array<ExportEntry>, id: string, indices: seq<nat>, ghost before: seq<ExportEntry>,
      ghost ids: seq<string>, ghost groups: Groups, ghost done: set<string>)
    requires |ids| == entries.Length == |before| && ValidGroups(groups, ids)
    requires id in groups && indices == groups[id] && id !in done && done <= groups.Keys
    requires forall i :: 0 <= i < entries.Length ==> MarkedAt(before, entries[i], i, ids, groups, done)
    modifies entries
    ensures forall i :: 0 <= i < entries.Length ==> MarkedAt(before, entries[i], i, ids, groups, done + {id})
  {
    IndicesExact(ids, id, |ids|);
    ghost var start := entries[..];
    var siblings := PathsOf(entries[..], indices);
    assert siblings == PathsOf(before, indices);
    for k := 0 to |indices|
      invariant forall j :: 0 <= j < k ==>
        entries[indices[j]] == before[indices[j]].(mark := Some(MarkOf(before, id, indices, indices[j])))
      invariant forall i :: 0 <= i < entries.Length && ids[i] != id ==> entries[i] == start[i]
      invariant forall j :: k <= j < |indices| ==> entries[indices[j]] == before[indices[j]]
    {
      var i := indices[k];
      entries[i] := entries[i].(mark := Some(Mark(id, |indices|, siblings, i == indices[0])));
    }
    forall i | 0 <= i < entries.Length ensures MarkedAt(before, entries[i], i, ids, groups, done + {id}) {
      if ids[i] == id {
        IndicesComplete(ids, id, |ids|, i);
      }
    }
  }

  // ----- what the groups are

  /** The truncated SHA-256 does not collide on these keys. */
  ghost predicate Collisionless(digest: string -> string, keys: set<string>) {
    forall k, l :: k in keys && l in keys && digest(k) == digest(l) ==> k == l
  }

  function KeysOf(entries: seq<ExportEntry>): set<string> {
    set i | 0 <= i < |entries| :: KeyOf(entries[i])
  }

  /** Two different entries are in one group exactly when their keys agree; no entry is in two groups. */
  lemma GroupsAreKeyClasses(digest: string -> string, entries: seq<ExportEntry>, i: nat, j: nat)
    requires i < |entries| && j < |entries| && i != j && Collisionless(digest, KeysOf(entries))
    ensures KeyOf(entries[i]) == KeyOf(entries[j]) <==>
            exists id :: id in GroupsOf(GroupIds(digest, entries)) && i in GroupsOf(GroupIds(digest, entries))[id]
                              && j in GroupsOf(GroupIds(digest, entries))[id]
    ensures forall id :: id in GroupsOf(GroupIds(digest, entries)) && i in GroupsOf(GroupIds(digest, entries))[id] ==>
              id == GroupIds(digest, entries)[i]
  {
    var ids := GroupIds(digest, entries);
    var groups := GroupsOf(ids);
    forall id | id in groups && i in groups[id] ensures id == ids[i] {
      IndicesExact(ids, id, |ids|);
    }
    forall id | id in groups && j in groups[id] ensures id == ids[j] {
      IndicesExact(ids, id, |ids|);
    }
    SameIdIsSameKey(digest, entries, i, j);
    if ids[i] == ids[j] {
      TwoPositions(ids, i, j);
    }
  }

  lemma PrefixKeepsApart(a: string, b: string)
    ensures "dup-" + a == "dup-" + b <==> a == b
  {
    assert ("dup-" + a)[4..] == a && ("dup-" + b)[4..] == b;
  }

  lemma SameIdIsSameKey(digest: string -> string, entries: seq<ExportEntry>, i: nat, j: nat)
    requires i < |entries| && j < |entries| && Collisionless(digest, KeysOf(entries))
    ensures GroupIds(digest, entries)[i] == GroupIds(digest, entries)[j] <==> KeyOf(entries[i]) == KeyOf(entries[j])
  {
    PrefixKeepsApart(digest(KeyOf(entries[i])), digest(KeyOf(entries[j])));
    assert KeyOf(entries[i]) in KeysOf(entries) && KeyOf(entries[j]) in KeysOf(entries);
  }

  lemma TwoPositions(ids: seq<string>, i: nat, j: nat)
    requires i < |ids| && j < |ids| && i != j && ids[i] == ids[j]
    ensures ids[i] in GroupsOf(ids) && i in GroupsOf(ids)[ids[i]] && j in GroupsOf(ids)[ids[i]]
  {
    IndicesComplete(ids, ids[i], |ids|, i);
    IndicesComplete(ids, ids[i], |ids|, j);
    var indices := IndicesOf(ids, ids[i], |ids|);
    var a, b :| 0 <= a < |indices| && indices[a] == i && 0 <= b < |indices| && indices[b] == j;
  }

  /** A group's first member is the earliest entry with its key: one representative per group. */
  lemma RepresentativeIsEarliest(ids: seq<string>, i: nat)
    requires i < |ids| && ids[i] in GroupsOf(ids)
    ensures i == GroupsOf(ids)[ids[i]][0] <==> forall j :: 0 <= j < i ==> ids[j] != ids[i]
  {
    var indices := IndicesOf(ids, ids[i], |ids|);
    IndicesExact(ids, ids[i], |ids|);
    IndicesComplete(ids, ids[i], |ids|, i);
    var k :| 0 <= k < |indices| && indices[k] == i;
    if i == indices[0] {
      forall j | 0 <= j < i ensures ids[j] != ids[i] {
        if ids[j] == ids[i] {
          IndicesComplete(ids, ids[i], |ids|, j);
        }
      }
    }
  }

  /** The effect of the two passes on all entries. */
  ghost predicate AllMarked(digest: string -> string, before: seq<ExportEntry>, after: seq<ExportEntry>) {
    var ids := GroupIds(digest, before);
    && |before| == |after|
    && (forall k :: 0 <= k < |before| ==> before[k].mark.None?)
    && ValidGroups(GroupsOf(ids), ids)
    && forall k :: 0 <= k < |before| ==> MarkedAt(before, after[k], k, ids, GroupsOf(ids), GroupsOf(ids).Keys)
  }

  /** An entry is marked exactly when another one has its key, and is the representative exactly when no earlier one
      has. */
  lemma MarksFollowKeys(digest: string -> string, before: seq<ExportEntry>, after: seq<ExportEntry>, i: nat)
    requires AllMarked(digest, before, after) && i < |before| && Collisionless(digest, KeysOf(before))
    ensures after[i].mark.Some? <==> exists k :: 0 <= k < |before| && k != i && KeyOf(before[k]) == KeyOf(before[i])
    ensures after[i].mark.Some? ==>
      (after[i].mark.value.isRepresentative <==> forall k :: 0 <= k < i ==> KeyOf(before[k]) != KeyOf(before[i]))
  {
    var ids := GroupIds(digest, before);
    forall k | 0 <= k < |before| ensures ids[k] == ids[i] <==> KeyOf(before[k]) == KeyOf(before[i]) {
      SameIdIsSameKey(digest, before, k, i);
    }
    MarkedIffRepeated(ids, i);
    if ids[i] in GroupsOf(ids) {
      RepresentativeIsEarliest(ids, i);
    }
  }

  lemma MarkedIffRepeated(ids: seq<string>, i: nat)
    requires i < |ids|
    ensures ids[i] in GroupsOf(ids) <==> exists k :: 0 <= k < |ids| && k != i && ids[k] == ids[i]
  {
    if k :| 0 <= k < |ids| && k != i && ids[k] == ids[i] {
      TwoPositions(ids, i, k);
    }
    if ids[i] in GroupsOf(ids) {
      AnotherPosition(ids, i);
    }
  }

  /** The paths of the entries with a key, among the first `n`, in order. */
  function PathsWithKey(entries: seq<ExportEntry>, key: string, n: nat): seq<string>
    requires n <= |entries|
  {
    if n == 0 then [] else
    PathsWithKey(entries, key, n - 1) + (if KeyOf(entries[n - 1]) == key then [entries[n - 1].artifactPath] else [])
  }

  lemma {:induction false} PathsOfPositions(entries: seq<ExportEntry>, ids: seq<string>, id: string, key: string,
      n: nat)
    requires n <= |ids| == |entries| && forall k :: 0 <= k < n ==> (ids[k] == id <==> KeyOf(entries[k]) == key)
    ensures forall k :: 0 <= k < |IndicesOf(ids, id, n)| ==> IndicesOf(ids, id, n)[k] < |entries|
    ensures PathsOf(entries, IndicesOf(ids, id, n)) == PathsWithKey(entries, key, n)
  {
    if n > 0 {
      PathsOfPositions(entries, ids, id, key, n - 1);
      PathsOfOneMore(entries, IndicesOf(ids, id, n - 1), n - 1);
      PathsWithKeyStep(entries, key, n);
    }
  }

  lemma PathsWithKeyStep(entries: seq<ExportEntry>, key: string, n: nat)
    requires 0 < n <= |entries|
    ensures PathsWithKey(entries, key, n) == if KeyOf(entries[n - 1]) == key
      then PathsWithKey(entries, key, n - 1) + [entries[n - 1].artifactPath] else PathsWithKey(entries, key, n - 1)
  {
  }

  lemma PathsOfOneMore(entries: seq<ExportEntry>, indices: seq<nat>, i: nat)
    requires i < |entries| && forall k :: 0 <= k < |indices| ==> indices[k] < |entries|
    ensures PathsOf(entries, indices + [i]) == PathsOf(entries, indices) + [entries[i].artifactPath]
  {
  }

  /** A marked entry's siblings are the paths of exactly the entries with its key, in order, and its count is their
      number. */
  lemma SiblingsAreThePaths(digest: string -> string, before: seq<ExportEntry>, after: seq<ExportEntry>, i: nat)
    requires AllMarked(digest, before, after) && i < |before| && Collisionless(digest, KeysOf(before))
    requires after[i].mark.Some?
    ensures after[i].mark.value.siblings == PathsWithKey(before, KeyOf(before[i]), |before|)
    ensures after[i].mark.value.count == |PathsWithKey(before, KeyOf(before[i]), |before|)|
    ensures after[i].mark.value.groupId == GroupId(digest, before[i])
  {
    var ids := GroupIds(digest, before);
    forall k | 0 <= k < |before| ensures ids[k] == ids[i] <==> KeyOf(before[k]) == KeyOf(before[i]) {
      SameIdIsSameKey(digest, before, k, i);
    }
    IndicesInRange(ids, ids[i]);
    PathsOfPositions(before, ids, ids[i], KeyOf(before[i]), |before|);
  }

  /** So entries with one key carry the same group, count and siblings. */
  lemma SiblingsAgree(digest: string -> string, before: seq<ExportEntry>, after: seq<ExportEntry>, i: nat, j: nat)
    requires AllMarked(digest, before, after) && Collisionless(digest, KeysOf(before))
    requires i < |before| && j < |before| && i != j && KeyOf(before[i]) == KeyOf(before[j])
    ensures after[i].mark.Some? && after[j].mark.Some?
    ensures after[i].mark.value.groupId == after[j].mark.value.groupId
    ensures after[i].mark.value.count == after[j].mark.value.count
    ensures after[i].mark.value.siblings == after[j].mark.value.siblings
  {
    MarksFollowKeys(digest, before, after, i);
    MarksFollowKeys(digest, before, after, j);
    SiblingsAreThePaths(digest, before, after, i);
    SiblingsAreThePaths(digest, before, after, j);
  }

  lemma AnotherPosition(ids: seq<string>, i: nat)
    requires i < |ids| && ids[i] in GroupsOf(ids)
    ensures exists k :: 0 <= k < |ids| && k != i && ids[k] == ids[i]
  {
    var indices := IndicesOf(ids, ids[i], |ids|);
    IndicesExact(ids, ids[i], |ids|);
    var k := if indices[0] == i then indices[1] else indices[0];
    assert ids[k] == ids[i];
  }

  lemma GroupsAreValid(ids: seq<string>)
    ensures ValidGroups(GroupsOf(ids), ids)
  {
  }

  // ----- the counting law

  /** The positions whose id is in `some`. */
  ghost function PositionsOf(ids: seq<string>, some: set<string>): set<nat> {
    set i: nat | i < |ids| && ids[i] in some
  }

  lemma {:induction false} IncreasingSize(s: seq<nat>)
    requires forall j, k :: 0 <= j < k < |s| ==> s[j] < s[k]
    ensures |set k | 0 <= k < |s| :: s[k]| == |s|
  {
    if s != [] {
      var k := |s| - 1;
      IncreasingSize(s[..k]);
      assert (set i | 0 <= i < |s| :: s[i]) == (set i | 0 <= i < |s[..k]| :: s[..k][i]) + {s[k]};
    }
  }

  lemma PositionsStep(ids: seq<string>, some: set<string>, id: string)
    requires id !in some
    ensures |PositionsOf(ids, some + {id})| == |PositionsOf(ids, some)| + |IndicesOf(ids, id, |ids|)|
  {
    var indices := IndicesOf(ids, id, |ids|);
    IndicesExact(ids, id, |ids|);
    IncreasingSize(indices);
    var own := set k | 0 <= k < |indices| :: indices[k];
    forall i: nat | i < |ids| && ids[i] == id ensures i in own {
      IndicesComplete(ids, id, |ids|, i);
    }
    assert PositionsOf(ids, some + {id}) == PositionsOf(ids, some) + own;
    assert PositionsOf(ids, some) !! own;
  }

  lemma {:induction false} SinglesAreOneEach(ids: seq<string>, singles: set<string>)
    requires forall id :: id in singles ==> |IndicesOf(ids, id, |ids|)| == 1
    ensures |PositionsOf(ids, singles)| == |singles|
  {
    if singles == {} {
      assert PositionsOf(ids, {}) == {};
    } else {
      var id :| id in singles;
      SinglesAreOneEach(ids, singles - {id});
      PositionsStep(ids, singles - {id}, id);
      assert singles - {id} + {id} == singles;
    }
  }

  function IdSet(ids: seq<string>): set<string> {
    set id | id in ids
  }

  lemma AllPositions(ids: seq<string>)
    ensures |PositionsOf(ids, IdSet(ids))| == |ids|
  {
    var all: seq<nat> := seq(|ids|, i => i);
    IncreasingSize(all);
    forall i ensures i in PositionsOf(ids, IdSet(ids)) <==> i in set k | 0 <= k < |all| :: all[k] {
      if i in PositionsOf(ids, IdSet(ids)) {
        assert all[i] == i;
      }
    }
    assert PositionsOf(ids, IdSet(ids)) == set k | 0 <= k < |all| :: all[k];
  }

  /** How many entries with an id in `some` are there beyond one for each id. */
  ghost function Excess(ids: seq<string>, some: set<string>): int {
    |PositionsOf(ids, some)| - |some|
  }

  lemma ExcessStep(ids: seq<string>, some: set<string>, id: string)
    requires id !in some
    ensures Excess(ids, some + {id}) == Excess(ids, some) + |IndicesOf(ids, id, |ids|)| - 1
  {
    PositionsStep(ids, some, id);
  }

  lemma ExcessOfGroup(ids: seq<string>, some: set<string>, id: string)
    requires id !in some && id in GroupsOf(ids)
    ensures Excess(ids, some + {id}) == Excess(ids, some) + |GroupsOf(ids)[id]| - 1
  {
    ExcessStep(ids, some, id);
  }

  lemma GroupKeysAreIds(ids: seq<string>)
    ensures GroupsOf(ids).Keys <= IdSet(ids)
  {
  }

  lemma ExcessAtStart(ids: seq<string>)
    ensures Excess(ids, IdSet(ids) - GroupsOf(ids).Keys) == 0
  {
    SinglesHaveOnePosition(ids);
    SinglesAreOneEach(ids, IdSet(ids) - GroupsOf(ids).Keys);
  }

  lemma ExcessAtEnd(ids: seq<string>)
    ensures |ids| - Excess(ids, IdSet(ids)) == |IdSet(ids)|
  {
    AllPositions(ids);
  }

  /** `duplicate_entry_count`: what the groups hold beyond one entry each. Removing that many entries leaves one per
      distinct id. */
  method CountDuplicateEntries(groups: Groups, ghost ids: seq<string>) returns (count: int)
    requires groups == GroupsOf(ids)
    ensures |ids| - count == |IdSet(ids)|
  {
    GroupKeysAreIds(ids);
    ExcessAtStart(ids);
    ghost var measure := some => Excess(ids, some);
    forall some, id | id in groups && id !in some ensures GrowsByGroup(groups, measure, some, id) {
      ExcessOfGroup(ids, some, id);
    }
    count := SumOverGroups(groups, IdSet(ids), measure);
    ExcessAtEnd(ids);
  }

  ghost predicate GrowsByGroup(groups: Groups, measure: set<string> -> int, some: set<string>, id: string) {
    id in groups && measure(some + {id}) == measure(some) + |groups[id]| - 1
  }

  lemma MoveAcross(seen: set<string>, todo: set<string>, id: string)
    requires seen !! todo && id in todo
    ensures (seen + {id}) !! (todo - {id}) && (seen + {id}) + (todo - {id}) == seen + todo
  {
  }

  /** The sum itself, against any measure that grows by it one group at a time. */
  method SumOverGroups(groups: Groups, ghost all: set<string>, ghost measure: set<string> -> int) returns (count: int)
    requires groups.Keys <= all && measure(all - groups.Keys) == 0
    requires forall some, id :: id in groups && id !in some ==> GrowsByGroup(groups, measure, some, id)
    ensures count == measure(all)
  {
    count := 0;
    var todo := groups.Keys;
    ghost var seen := all - groups.Keys;
    while todo != {}
      invariant todo <= groups.Keys && todo !! seen && seen + todo == all
      invariant count == measure(seen)
      decreases todo
    {
      var id :| id in todo;
      assert GrowsByGroup(groups, measure, seen, id);
      MoveAcross(seen, todo, id);
      seen := seen + {id};
      count := count + |groups[id]| - 1;
      todo := todo - {id};
    }
    assert seen == all;
  }

  lemma SinglesHaveOnePosition(ids: seq<string>)
    ensures forall id :: id in IdSet(ids) - GroupsOf(ids).Keys ==> |IndicesOf(ids, id, |ids|)| == 1
  {
    forall id | id in IdSet(ids) - GroupsOf(ids).Keys ensures |IndicesOf(ids, id, |ids|)| == 1 {
      var i :| 0 <= i < |ids| && ids[i] == id;
      IndicesComplete(ids, id, |ids|, i);
    }
  }

  /** Without collisions there are as many ids as keys. */
  lemma IdsCountKeys(digest: string -> string, entries: seq<ExportEntry>)
    requires Collisionless(digest, KeysOf(entries))
    ensures |IdSet(GroupIds(digest, entries))| == |KeysOf(entries)|
  {
    var ids := GroupIds(digest, entries);
    ImageSize(digest, KeysOf(entries));
    var image := set k | k in KeysOf(entries) :: "dup-" + digest(k);
    forall id ensures id in IdSet(ids) <==> id in image {
      if id in IdSet(ids) {
        var i :| 0 <= i < |ids| && ids[i] == id;
        assert KeyOf(entries[i]) in KeysOf(entries);
      }
      if id in image {
        var k :| k in KeysOf(entries) && id == "dup-" + digest(k);
        var i :| 0 <= i < |entries| && KeyOf(entries[i]) == k;
        assert ids[i] == id;
      }
    }
    assert IdSet(ids) == image;
  }

  lemma {:induction false} ImageSize(digest: string -> string, keys: set<string>)
    requires Collisionless(digest, keys)
    ensures |set k | k in keys :: "dup-" + digest(k)| == |keys|
  {
    if keys != {} {
      var one :| one in keys;
      ImageSize(digest, keys - {one});
      var rest := set k | k in keys - {one} :: "dup-" + digest(k);
      var added := "dup-" + digest(one);
      forall k | k in keys - {one} ensures "dup-" + digest(k) != added {
        PrefixKeepsApart(digest(k), digest(one));
      }
      assert (set k | k in keys :: "dup-" + digest(k)) == rest + {added};
    }
  }

  /** The duplicate part of the export: detect, mark, count. */
  method ExportDuplicates(digest: string -> string, entries: array<ExportEntry>)
      returns (groupCount: nat, duplicateEntryCount: int)
    requires forall i :: 0 <= i < entries.Length ==> entries[i].mark.None?
    modifies entries
    ensures AllMarked(digest, old(entries[..]), entries[..])
    ensures groupCount == |GroupsOf(GroupIds(digest, old(entries[..])))|
    ensures Collisionless(digest, KeysOf(old(entries[..]))) ==>
      entries.Length - duplicateEntryCount == |KeysOf(old(entries[..]))|
  {
    ghost var before := entries[..];
    ghost var ids := GroupIds(digest, before);
    var groups := DetectDuplicateGroups(digest, entries);
    GroupsAreValid(ids);
    AddDuplicateMetadata(entries, groups, ids);
    groupCount := |groups|;
    duplicateEntryCount := CountDuplicateEntries(groups, ids);
    if Collisionless(digest, KeysOf(before)) {
      IdsCountKeys(digest, before);
    }
  }
}
