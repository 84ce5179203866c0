/** Splitting the candidate table over shard files and reading the shards back, over a directory of tables. */
module CandidateShards {
  import opened Text
  import opened Ordering

  /** File name to rows. */
  type Directory<T> = map<string, seq<T>>

  const MAIN_TABLE := "generated_claim_candidates.csv"
  const SHARD_PREFIX := "generated_claim_candidates-shard-"
  const SHARD_SUFFIX := ".csv"

  /** `f"{n:02d}"`. */
  function TwoDigits(n: nat): string {
    if n < 10 then "0" + Decimal(n) else Decimal(n)
  }

  function ShardName(n: nat): string {
    SHARD_PREFIX + (TwoDigits(n) + SHARD_SUFFIX)
  }

  /** The glob `generated_claim_candidates-shard-*.csv`. */
  predicate IsShardName(name: string) {
    && |SHARD_PREFIX| + |SHARD_SUFFIX| <= |name|
    && SHARD_PREFIX <= name
    && name[|name| - |SHARD_SUFFIX|..] == SHARD_SUFFIX
  }

  /** How shard files are named by number. */
  type Naming = nat -> string

  ghost predicate Injective(name: Naming) {
    forall i, j :: name(i) == name(j) ==> i == j
  }

  lemma ShardNamesDiffer()
    ensures Injective(ShardName)
  {
    forall i, j | ShardName(i) == ShardName(j) ensures i == j {
      ShardNameIsInjective(i, j);
    }
  }

  function ShardNames<T>(dir: Directory<T>): set<string> {
    set name | name in dir && IsShardName(name)
  }

  function ShardFiles<T>(dir: Directory<T>): seq<string> {
    SortSet(ShardNames(dir))
  }

  // ----- writing

  function ShardSize(rows: nat, numShards: nat): nat
    requires 0 < numShards
  {
    (rows + numShards - 1) / numShards
  }

  /** `i * size`. */
  function Start(size: nat, i: nat): nat {
    if i == 0 then 0 else Start(size, i - 1) + size
  }

  lemma {:induction false} StartIsProduct(size: nat, i: nat)
    ensures Start(size, i) == i * size
  {
    if i > 0 {
      StartIsProduct(size, i - 1);
      assert i * size == (i - 1) * size + size;
    }
  }

  /** `rows[i * size : min(i * size + size, len(rows))]`. */
  function Chunk<T>(rows: seq<T>, size: nat, i: nat): seq<T> {
    var start := Start(size, i);
    if start >= |rows| then [] else if start + size <= |rows| then rows[start..start + size] else rows[start..]
  }

  /** The directory after the first `k` rounds of the writing loop: empty chunks are skipped, and nothing is deleted. */
  function Written<T>(dir: Directory<T>, name: Naming, rows: seq<T>, size: nat, k: nat): Directory<T> {
    if k == 0 then dir else
    var before, chunk := Written(dir, name, rows, size, k - 1), Chunk(rows, size, k - 1);
    if chunk == [] then before else before[name(k - 1) := chunk]
  }

  /** The paths returned after `k` rounds: those of the chunks that were not empty. */
  function NamesWritten<T>(name: Naming, rows: seq<T>, size: nat, k: nat): seq<string> {
    if k == 0 then [] else
    NamesWritten(name, rows, size, k - 1) + (if Chunk(rows, size, k - 1) == [] then [] else [name(k - 1)])
  }

  function ShardCsvOf<T>(dir: Directory<T>, numShards: nat): Directory<T>
    requires 0 < numShards
  {
    if MAIN_TABLE !in dir || dir[MAIN_TABLE] == [] then dir
    else Written(dir, ShardName, dir[MAIN_TABLE], ShardSize(|dir[MAIN_TABLE]|, numShards), numShards)
  }

  class Store<T> {
    var files: Directory<T>

    method ShardCsv(numShards: nat) returns (shardFiles: seq<string>)
      requires 0 < numShards
      modifies this
      ensures files == ShardCsvOf(old(files), numShards)
      ensures shardFiles == if HasRows(old(files))
        then NamesWritten(ShardName, old(files)[MAIN_TABLE], ShardSize(|old(files)[MAIN_TABLE]|, numShards), numShards)
        else []
    {
      shardFiles := [];
      if MAIN_TABLE !in files {
        return;
      }
      var rows := files[MAIN_TABLE];
      if rows == [] {
        return;
      }
      var shardSize := ShardSize(|rows|, numShards);
      for i := 0 to numShards
        invariant files == Written(old(files), ShardName, rows, shardSize, i)
        invariant shardFiles == NamesWritten(ShardName, rows, shardSize, i)
      {
        var shardRows := Chunk(rows, shardSize, i);
        if shardRows == [] {
          continue;
        }
        ghost var before := files;
        files := files[ShardName(i) := shardRows];
        shardFiles := shardFiles + [ShardName(i)];
        assert files == before[ShardName(i) := Chunk(rows, shardSize, i)];
      }
    }

    method ReadAllShards() returns (rows: seq<T>)
      ensures rows == ReadBack(files)
    {
      var shardFiles := ShardFiles(files);
      if shardFiles == [] {
        if MAIN_TABLE in files {
          return files[MAIN_TABLE];
        }
        return [];
      }
      rows := [];
      ShardFilesPresent(files);
      for i := 0 to |shardFiles|
        invariant AllIn(files, shardFiles)
        invariant rows == Concat(files, shardFiles, i)
      {
        rows := rows + files[shardFiles[i]];
      }
    }
  }

  // ----- reading

  predicate AllIn<T>(dir: Directory<T>, names: seq<string>) {
    forall i :: 0 <= i < |names| ==> names[i] in dir
  }

  function Concat<T>(dir: Directory<T>, names: seq<string>, k: nat): seq<T>
    requires k <= |names| && AllIn(dir, names)
  {
    if k == 0 then [] else Concat(dir, names, k - 1) + dir[names[k - 1]]
  }

  lemma ShardFilesPresent<T>(dir: Directory<T>)
    ensures AllIn(dir, ShardFiles(dir))
  {
    var names := ShardFiles(dir);
    forall i | 0 <= i < |names| ensures names[i] in dir {
      assert names[i] in names;
    }
  }

  /** What `read_all_shards` returns: the shards in name order, or the main table when there are none. */
  function ReadBack<T>(dir: Directory<T>): seq<T> {
    var names := ShardFiles(dir);
    ShardFilesPresent(dir);
    if names != [] then Concat(dir, names, |names|)
    else if MAIN_TABLE in dir then dir[MAIN_TABLE]
    else []
  }

  // ----- shard names and their order

  lemma ShardNameIsShardName(n: nat)
    ensures IsShardName(ShardName(n)) && ShardName(n) != MAIN_TABLE
  {
    var name := ShardName(n);
    assert name[|name| - |SHARD_SUFFIX|..] == SHARD_SUFFIX;
    assert name[26] == '-' && MAIN_TABLE[26] == '.';
  }

  lemma TwoDigitsUpTo100(n: nat)
    requires n < 100
    ensures TwoDigits(n) == [((n / 10) + 48) as char, ((n % 10) + 48) as char]
  {
    assert Decimal(n % 10) == [((n % 10) + 48) as char];
    if n >= 10 {
      assert Decimal(n / 10) == [((n / 10) + 48) as char];
    }
  }

  /** Below 100, file-name order is numeric order. */
  lemma NamesInOrder(i: nat, j: nat)
    requires i < j < 100
    ensures StringLe(ShardName(i), ShardName(j)) && ShardName(i) != ShardName(j)
  {
    TwoDigitsUpTo100(i);
    TwoDigitsUpTo100(j);
    var s, t := TwoDigits(i) + SHARD_SUFFIX, TwoDigits(j) + SHARD_SUFFIX;
    StringLeCommonPrefix(SHARD_PREFIX, s, t);
    assert s[0] <= t[0] && (s[0] == t[0] ==> s[1] < t[1]);
    assert StringLe(s[1..], t[1..]) || s[0] < t[0] by {
      assert s[1..][0] == s[1] && t[1..][0] == t[1];
    }
    assert ShardName(i)[|SHARD_PREFIX|..] == s && ShardName(j)[|SHARD_PREFIX|..] == t;
  }

  /** At 100 the order breaks: shard 100 sorts before shard 11. */
  lemma HundredSortsBeforeEleven()
    ensures StringLe(ShardName(100), ShardName(11)) && ShardName(100) != ShardName(11)
  {
    var s, t := TwoDigits(100) + SHARD_SUFFIX, TwoDigits(11) + SHARD_SUFFIX;
    TwoDigitsUpTo100(11);
    assert Decimal(1) == "1" && Decimal(10) == Decimal(1) + "0" && Decimal(100) == Decimal(10) + "0";
    assert TwoDigits(100) == "100" && TwoDigits(11) == "11";
    StringLeCommonPrefix(SHARD_PREFIX, s, t);
    assert s[1..][0] == '0' && t[1..][0] == '1';
    assert ShardName(100)[|SHARD_PREFIX|..] == s && ShardName(11)[|SHARD_PREFIX|..] == t;
  }

  lemma TenSortsBeforeHundred()
    ensures StringLe(ShardName(10), ShardName(100)) && ShardName(10) != ShardName(100)
  {
    var s, t := TwoDigits(10) + SHARD_SUFFIX, TwoDigits(100) + SHARD_SUFFIX;
    TwoDigitsUpTo100(10);
    assert Decimal(1) == "1" && Decimal(10) == Decimal(1) + "0" && Decimal(100) == Decimal(10) + "0";
    assert TwoDigits(100) == "100" && TwoDigits(10) == "10";
    StringLeCommonPrefix(SHARD_PREFIX, s, t);
    StringLeCommonPrefix("10", SHARD_SUFFIX, "0" + SHARD_SUFFIX);
    assert t == "10" + ("0" + SHARD_SUFFIX);
    assert SHARD_SUFFIX[0] == '.' && ("0" + SHARD_SUFFIX)[0] == '0';
    assert ShardName(10)[|SHARD_PREFIX|..] == s && ShardName(100)[|SHARD_PREFIX|..] == t;
  }

  lemma ShardNameIsInjective(i: nat, j: nat)
    requires ShardName(i) == ShardName(j)
    ensures i == j
  {
    var s, t := TwoDigits(i), TwoDigits(j);
    assert ShardName(i)[|SHARD_PREFIX|..] == s + SHARD_SUFFIX && ShardName(j)[|SHARD_PREFIX|..] == t + SHARD_SUFFIX;
    assert |s| == |t| && s == (s + SHARD_SUFFIX)[..|s|] && t == (t + SHARD_SUFFIX)[..|t|];
    ValueOfTwoDigits(i);
    ValueOfTwoDigits(j);
  }

  lemma ValueOfTwoDigits(n: nat)
    ensures IsDigits(TwoDigits(n)) && Value(TwoDigits(n)) == n
  {
    ValueOfDecimal(n);
    if n < 10 {
      assert TwoDigits(n)[..1] == "0" && "0"[..0] == "";
    }
  }

  // ----- how many chunks there are

  function ChunkCount(rows: nat, size: nat): nat
    requires 0 < size
  {
    (rows + size - 1) / size
  }

  lemma ChunkCountExact(rows: nat, size: nat, i: nat)
    requires 0 < size
    ensures i < ChunkCount(rows, size) <==> Start(size, i) < rows
  {
    var c := ChunkCount(rows, size);
    StartOfLastChunk(rows, size);
    if i < c {
      StartsGrow(size, i + 1, c);
    } else {
      StartsGrow(size, c, i);
    }
  }

  lemma StartOfLastChunk(rows: nat, size: nat)
    requires 0 < size
    ensures Start(size, ChunkCount(rows, size)) <= rows + size - 1 < Start(size, ChunkCount(rows, size)) + size
  {
    StartIsProduct(size, ChunkCount(rows, size));
  }

  lemma {:induction false} StartsGrow(size: nat, i: nat, j: nat)
    requires i <= j
    ensures Start(size, i) <= Start(size, j)
  {
    if i < j {
      StartsGrow(size, i, j - 1);
    }
  }

  lemma ChunksFitShards(rows: nat, numShards: nat)
    requires 0 < rows && 0 < numShards
    ensures var size := ShardSize(rows, numShards); 0 < size && 0 < ChunkCount(rows, size) <= numShards
  {
    var size := ShardSize(rows, numShards);
    assert rows + numShards - 1 < size * numShards + numShards;
    assert rows <= numShards * size;
    assert size == 0 ==> numShards * size == 0;
    ChunkCountExact(rows, size, numShards);
    StartIsProduct(size, numShards);
    ChunkCountExact(rows, size, 0);
  }

  // ----- what is in the directory after writing

  lemma {:induction false} WrittenChunk<T>(dir: Directory<T>, name: Naming, rows: seq<T>, size: nat, k: nat, i: nat)
    requires i < k && Chunk(rows, size, i) != [] && Injective(name)
    ensures Holds(Written(dir, name, rows, size, k), name(i), Chunk(rows, size, i))
  {
    if i == k - 1 {
      RoundWrites(dir, name, rows, size, k);
    } else {
      WrittenChunk(dir, name, rows, size, k - 1, i);
      LaterRoundKeeps(dir, name, rows, size, k, name(i), Chunk(rows, size, i));
    }
  }

  lemma RoundWrites<T>(dir: Directory<T>, name: Naming, rows: seq<T>, size: nat, k: nat)
    requires 0 < k && Chunk(rows, size, k - 1) != []
    ensures Holds(Written(dir, name, rows, size, k), name(k - 1), Chunk(rows, size, k - 1))
  {
  }

  lemma LaterRoundKeeps<T>(dir: Directory<T>, name: Naming, rows: seq<T>, size: nat, k: nat, file: string,
      chunk: seq<T>)
    requires 0 < k && Holds(Written(dir, name, rows, size, k - 1), file, chunk) && name(k - 1) != file
    ensures Holds(Written(dir, name, rows, size, k), file, chunk)
  {
  }

  predicate Holds<T(==)>(dir: Directory<T>, file: string, rows: seq<T>) {
    file in dir && dir[file] == rows
  }

  lemma {:induction false} WrittenElsewhere<T>(dir: Directory<T>, name: Naming, rows: seq<T>, size: nat, k: nat,
      file: string)
    requires forall i :: 0 <= i < k && name(i) == file ==> Chunk(rows, size, i) == []
    ensures file in Written(dir, name, rows, size, k) <==> file in dir
    ensures file in dir ==> Written(dir, name, rows, size, k)[file] == dir[file]
  {
    if k > 0 {
      WrittenElsewhere(dir, name, rows, size, k - 1, file);
      assert name(k - 1) == file ==> Chunk(rows, size, k - 1) == [];
    }
  }

  // ----- the shard files after writing

  /** The names of the shards numbered below `c`, and their set. */
  function UsedNames(name: Naming, c: nat): (names: seq<string>)
    ensures |names| == c && forall i :: 0 <= i < c ==> names[i] == name(i)
  {
    seq(c, i requires 0 <= i < c => name(i))
  }

  function Used(name: Naming, c: nat): set<string> {
    set i | 0 <= i < c :: name(i)
  }

  /** The shards of an earlier run that a run using `c` shards does not overwrite. */
  function Stale<T>(dir: Directory<T>, name: Naming, c: nat): set<string> {
    ShardNames(dir) - Used(name, c)
  }

  /** Their names in the order in which they are read, and their rows. */
  function StaleFiles<T>(dir: Directory<T>, name: Naming, c: nat): (files: seq<string>)
    ensures AllIn(dir, files)
  {
    var files := SortSet(Stale(dir, name, c));
    assert forall i :: 0 <= i < |files| ==> files[i] in files;
    files
  }

  function StaleRows<T>(dir: Directory<T>, name: Naming, c: nat): seq<T> {
    var files := StaleFiles(dir, name, c);
    Concat(dir, files, |files|)
  }

  /** The directory `after` holds the chunks under the used names, and under every other name what `dir` holds. */
  ghost predicate Overwritten<T>(dir: Directory<T>, after: Directory<T>, name: Naming, rows: seq<T>, size: nat,
      c: nat)
  {
    && (forall i :: 0 <= i < c ==> Holds(after, name(i), Chunk(rows, size, i)))
    && (forall file :: file !in Used(name, c) ==> Same(dir, after, file))
  }

  ghost predicate Same<T>(dir: Directory<T>, after: Directory<T>, file: string) {
    (file in after <==> file in dir) && (file in dir ==> after[file] == dir[file])
  }

  lemma WritingOverwrites<T>(dir: Directory<T>, name: Naming, rows: seq<T>, size: nat, k: nat)
    requires 0 < size && ChunkCount(|rows|, size) <= k && Injective(name)
    ensures Overwritten(dir, Written(dir, name, rows, size, k), name, rows, size, ChunkCount(|rows|, size))
  {
    var c, after := ChunkCount(|rows|, size), Written(dir, name, rows, size, k);
    forall i | 0 <= i < c ensures Holds(after, name(i), Chunk(rows, size, i)) {
      ChunkCountExact(|rows|, size, i);
      WrittenChunk(dir, name, rows, size, k, i);
    }
    forall file | file !in Used(name, c) ensures Same(dir, after, file) {
      forall i | 0 <= i < k && name(i) == file ensures Chunk(rows, size, i) == [] {
        ChunkCountExact(|rows|, size, i);
      }
      WrittenElsewhere(dir, name, rows, size, k, file);
    }
  }

  lemma ShardsAfter<T>(dir: Directory<T>, after: Directory<T>, name: Naming, rows: seq<T>, size: nat, c: nat)
    requires Overwritten(dir, after, name, rows, size, c) && forall i :: IsShardName(name(i))
    ensures ShardNames(after) == Used(name, c) + Stale(dir, name, c)
  {
    forall file ensures file in ShardNames(after) <==> file in Used(name, c) + Stale(dir, name, c) {
      if file in Used(name, c) {
        var i :| 0 <= i < c && file == name(i);
        assert Holds(after, name(i), Chunk(rows, size, i));
      } else {
        assert Same(dir, after, file);
      }
    }
  }

  // ----- reading when the names are in order

  /** Names sort as their numbers do, up to `k`. */
  ghost predicate InOrder(name: Naming, k: nat) {
    forall i, j :: 0 <= i < j < k ==> StringLe(name(i), name(j)) && name(i) != name(j)
  }

  lemma ShardNamesInOrder(c: nat)
    requires c <= 100
    ensures InOrder(ShardName, c)
  {
    forall i: nat, j: nat | i < j < c ensures StringLe(ShardName(i), ShardName(j)) && ShardName(i) != ShardName(j) {
      NamesInOrder(i, j);
    }
  }

  /** Every stale shard sorts after all used ones. */
  ghost predicate StaleAfter<T>(dir: Directory<T>, name: Naming, c: nat) {
    forall file, i :: file in Stale(dir, name, c) && 0 <= i < c ==> StringLe(name(i), file)
  }

  /** Then the used shards are read first, in numeric order, and the stale ones after them. */
  lemma UsedThenStale<T>(dir: Directory<T>, after: Directory<T>, name: Naming, rows: seq<T>, size: nat, c: nat)
    requires Overwritten(dir, after, name, rows, size, c) && forall i :: IsShardName(name(i))
    requires InOrder(name, c) && StaleAfter(dir, name, c)
    ensures ShardFiles(after) == UsedNames(name, c) + StaleFiles(dir, name, c)
  {
    var used, stale := UsedNames(name, c), StaleFiles(dir, name, c);
    ShardsAfter(dir, after, name, rows, size, c);
    UsedListed(name, c);
    forall i, j | 0 <= i < |used| && 0 <= j < |stale| ensures StringLe(used[i], stale[j]) && used[i] != stale[j] {
      assert stale[j] in stale && name(i) in Used(name, c);
    }
    JoinSorted(used, stale);
    SortedIsUnique(used + stale, ShardNames(after));
  }

  lemma UsedListed(name: Naming, c: nat)
    ensures forall x :: x in UsedNames(name, c) <==> x in Used(name, c)
  {
    forall x | x in Used(name, c) ensures x in UsedNames(name, c) {
      var i :| 0 <= i < c && x == name(i);
      assert UsedNames(name, c)[i] == x;
    }
  }

  lemma JoinSorted(a: seq<string>, b: seq<string>)
    requires Sorted(a) && Distinct(a) && Sorted(b) && Distinct(b)
    requires forall i, j :: 0 <= i < |a| && 0 <= j < |b| ==> StringLe(a[i], b[j]) && a[i] != b[j]
    ensures Sorted(a + b) && Distinct(a + b)
  {
  }

  /** The chunks, read in order, are a prefix of the rows. */
  lemma {:induction false} ChunksReadBack<T>(after: Directory<T>, names: seq<string>, rows: seq<T>, size: nat, i: nat)
    requires 0 < size && i <= ChunkCount(|rows|, size) && i <= |names| && AllIn(after, names)
    requires forall j :: 0 <= j < i ==> after[names[j]] == Chunk(rows, size, j)
    ensures Concat(after, names, i) == rows[..if Start(size, i) <= |rows| then Start(size, i) else |rows|]
  {
    if i > 0 {
      ChunksReadBack(after, names, rows, size, i - 1);
      ChunkCountExact(|rows|, size, i - 1);
      NextChunk(rows, size, i);
    }
  }

  lemma NextChunk<T>(rows: seq<T>, size: nat, i: nat)
    requires 0 < i && Start(size, i - 1) < |rows|
    ensures rows[..Start(size, i - 1)] + Chunk(rows, size, i - 1)
      == rows[..if Start(size, i) <= |rows| then Start(size, i) else |rows|]
  {
  }

  lemma UsedRows<T>(dir: Directory<T>, after: Directory<T>, name: Naming, rows: seq<T>, size: nat, files: seq<string>)
    requires 0 < size && Overwritten(dir, after, name, rows, size, ChunkCount(|rows|, size))
    requires AllIn(after, files) && UsedNames(name, ChunkCount(|rows|, size)) <= files
    ensures Concat(after, files, ChunkCount(|rows|, size)) == rows
  {
    var c := ChunkCount(|rows|, size);
    forall j | 0 <= j < c ensures after[files[j]] == Chunk(rows, size, j) {
      assert files[j] == UsedNames(name, c)[j];
      assert Holds(after, name(j), Chunk(rows, size, j));
    }
    ChunksReadBack(after, files, rows, size, c);
    ChunkCountExact(|rows|, size, c);
    assert rows[..|rows|] == rows;
  }

  /** What is read after the first files, when those that follow are unchanged. */
  lemma {:induction false} ConcatTail<T>(dir: Directory<T>, after: Directory<T>, front: seq<string>, back: seq<string>,
      k: nat)
    requires k <= |back| && AllIn(dir, back) && AllIn(after, front + back)
    requires forall i :: 0 <= i < |back| ==> Same(dir, after, back[i])
    ensures Concat(after, front + back, |front| + k) == Concat(after, front + back, |front|) + Concat(dir, back, k)
  {
    if k > 0 {
      ConcatTail(dir, after, front, back, k - 1);
      assert (front + back)[|front| + k - 1] == back[k - 1] && Same(dir, after, back[k - 1]);
    }
  }

  lemma ReadInOrder<T>(dir: Directory<T>, after: Directory<T>, name: Naming, rows: seq<T>, size: nat)
    requires 0 < size && rows != [] && forall i :: IsShardName(name(i))
    requires Overwritten(dir, after, name, rows, size, ChunkCount(|rows|, size))
    requires InOrder(name, ChunkCount(|rows|, size)) && StaleAfter(dir, name, ChunkCount(|rows|, size))
    ensures ReadBack(after) == rows + StaleRows(dir, name, ChunkCount(|rows|, size))
  {
    var c := ChunkCount(|rows|, size);
    UsedThenStale(dir, after, name, rows, size, c);
    ShardFilesPresent(after);
    StaleIsSame(dir, after, name, rows, size, c);
    UsedRows(dir, after, name, rows, size, ShardFiles(after));
    ChunkCountExact(|rows|, size, 0);
    RowsOfBoth(dir, after, UsedNames(name, c), StaleFiles(dir, name, c));
  }

  lemma StaleIsSame<T>(dir: Directory<T>, after: Directory<T>, name: Naming, rows: seq<T>, size: nat, c: nat)
    requires Overwritten(dir, after, name, rows, size, c)
    ensures var files := StaleFiles(dir, name, c); forall i :: 0 <= i < |files| ==> Same(dir, after, files[i])
  {
    var files := StaleFiles(dir, name, c);
    forall i | 0 <= i < |files| ensures Same(dir, after, files[i]) {
      assert files[i] in files;
    }
  }

  lemma RowsOfBoth<T>(dir: Directory<T>, after: Directory<T>, front: seq<string>, back: seq<string>)
    requires front != [] && ShardFiles(after) == front + back && AllIn(after, front + back) && AllIn(dir, back)
    requires forall i :: 0 <= i < |back| ==> Same(dir, after, back[i])
    ensures ReadBack(after) == Concat(after, front + back, |front|) + Concat(dir, back, |back|)
  {
    ConcatTail(dir, after, front, back, |back|);
    ReadFiles(after, front + back);
  }

  lemma ReadFiles<T>(dir: Directory<T>, files: seq<string>)
    requires files != [] && ShardFiles(dir) == files && AllIn(dir, files)
    ensures ReadBack(dir) == Concat(dir, files, |files|)
  {
  }

  // ----- the round trip

  predicate HasRows<T>(dir: Directory<T>) {
    MAIN_TABLE in dir && dir[MAIN_TABLE] != []
  }

  function ShardsUsed<T>(dir: Directory<T>, numShards: nat): (c: nat)
    requires HasRows(dir) && 0 < numShards
    ensures 0 < c <= numShards
  {
    var n := |dir[MAIN_TABLE]|;
    ChunksFitShards(n, numShards);
    ChunkCount(n, ShardSize(n, numShards))
  }

  lemma ShardNamesAreShardNames()
    ensures forall i :: IsShardName(ShardName(i))
  {
    forall i ensures IsShardName(ShardName(i)) {
      ShardNameIsShardName(i);
    }
  }

  lemma ShardingOverwrites<T>(dir: Directory<T>, numShards: nat)
    requires HasRows(dir) && 0 < numShards
    ensures var rows := dir[MAIN_TABLE]; var size := ShardSize(|rows|, numShards);
            && 0 < size && ShardsUsed(dir, numShards) == ChunkCount(|rows|, size)
            && Overwritten(dir, ShardCsvOf(dir, numShards), ShardName, rows, size, ChunkCount(|rows|, size))
  {
    var rows := dir[MAIN_TABLE];
    ChunksFitShards(|rows|, numShards);
    ShardNamesDiffer();
    WritingOverwrites(dir, ShardName, rows, ShardSize(|rows|, numShards), numShards);
  }

  /** Sharding over the shards of an earlier run, however many and whatever else the glob matches: when at most 100 are
      used and the stale ones sort after them, the new rows are read back and then the stale rows. */
  lemma ReshardReadsBack<T>(dir: Directory<T>, numShards: nat)
    requires HasRows(dir) && 0 < numShards && ShardsUsed(dir, numShards) <= 100
    requires StaleAfter(dir, ShardName, ShardsUsed(dir, numShards))
    ensures ReadBack(ShardCsvOf(dir, numShards))
            == dir[MAIN_TABLE] + StaleRows(dir, ShardName, ShardsUsed(dir, numShards))
  {
    ShardingOverwrites(dir, numShards);
    ShardNamesInOrder(ShardsUsed(dir, numShards));
    ShardNamesAreShardNames();
    var rows := dir[MAIN_TABLE];
    ReadInOrder(dir, ShardCsvOf(dir, numShards), ShardName, rows, ShardSize(|rows|, numShards));
  }

  /** Every shard file has a number below 100. */
  ghost predicate NumberedBelow100<T>(dir: Directory<T>) {
    forall name :: name in ShardNames(dir) ==> exists i :: 0 <= i < 100 && name == ShardName(i)
  }

  /** Stale shards numbered below 100 sort after the used ones. */
  lemma StaleBelow100<T>(dir: Directory<T>, c: nat)
    requires NumberedBelow100(dir) && c <= 100
    ensures StaleAfter(dir, ShardName, c)
  {
    forall file, i | file in Stale(dir, ShardName, c) && 0 <= i < c ensures StringLe(ShardName(i), file) {
      var j :| 0 <= j < 100 && file == ShardName(j);
      assert j >= c;
      NamesInOrder(i, j);
    }
  }

  /** From a directory without shards, the rows read back are the rows written, while at most 100 shards are used. */
  lemma ShardRoundTrip<T>(dir: Directory<T>, numShards: nat)
    requires HasRows(dir) && 0 < numShards && ShardNames(dir) == {} && ShardsUsed(dir, numShards) <= 100
    ensures ReadBack(ShardCsvOf(dir, numShards)) == dir[MAIN_TABLE]
  {
    NothingStale(dir, ShardsUsed(dir, numShards));
    ReshardReadsBack(dir, numShards);
  }

  lemma NothingStale<T>(dir: Directory<T>, c: nat)
    requires ShardNames(dir) == {}
    ensures Stale(dir, ShardName, c) == {} && StaleRows(dir, ShardName, c) == [] && StaleAfter(dir, ShardName, c)
  {
    assert Stale(dir, ShardName, c) == {};
    assert StaleFiles(dir, ShardName, c) == [];
  }

  lemma {:induction false} ConcatAt<T>(dir: Directory<T>, names: seq<string>, k: nat, p: nat)
    requires p < k <= |names| && AllIn(dir, names) && dir[names[p]] != []
    ensures |Concat(dir, names, p)| < |Concat(dir, names, k)|
    ensures Concat(dir, names, k)[|Concat(dir, names, p)|] == dir[names[p]][0]
  {
    if p < k - 1 {
      ConcatAt(dir, names, k - 1, p);
    }
  }

  /** Exactly so, when no two rows are equal and no stale shard is empty: another order is read back as soon as a 101st
      shard is used or a stale shard sorts before a used one. */
  lemma ReshardInOrderExactly<T>(dir: Directory<T>, numShards: nat)
    requires HasRows(dir) && 0 < numShards
    requires Distinct(dir[MAIN_TABLE] + StaleRows(dir, ShardName, ShardsUsed(dir, numShards)))
    requires forall file :: file in Stale(dir, ShardName, ShardsUsed(dir, numShards)) ==> dir[file] != []
    ensures ReadBack(ShardCsvOf(dir, numShards))
            == dir[MAIN_TABLE] + StaleRows(dir, ShardName, ShardsUsed(dir, numShards)) <==>
            ShardsUsed(dir, numShards) <= 100 && StaleAfter(dir, ShardName, ShardsUsed(dir, numShards))
  {
    var c, after, rows := ShardsUsed(dir, numShards), ShardCsvOf(dir, numShards), dir[MAIN_TABLE];
    if c <= 100 && StaleAfter(dir, ShardName, c) {
      ReshardReadsBack(dir, numShards);
    } else {
      ShardingOverwrites(dir, numShards);
      ShardNamesAreShardNames();
      if c > 100 {
        HundredSortsBeforeEleven();
        var all := rows + StaleRows(dir, ShardName, c);
        HigherShardFirst(dir, after, ShardName, rows, ShardSize(|rows|, numShards), all, 100, 11);
      } else {
        var file, i :| file in Stale(dir, ShardName, c) && 0 <= i < c && !StringLe(ShardName(i), file);
        StaleShardFirst(dir, after, ShardName, rows, ShardSize(|rows|, numShards), file, i);
      }
    }
  }

  /** A used shard that sorts before one with a smaller number brings its rows forward. */
  lemma HigherShardFirst<T>(dir: Directory<T>, after: Directory<T>, name: Naming, rows: seq<T>, size: nat, all: seq<T>,
      high: nat, low: nat)
    requires 0 < size && low < high < ChunkCount(|rows|, size) && IsShardName(name(high)) && IsShardName(name(low))
    requires Overwritten(dir, after, name, rows, size, ChunkCount(|rows|, size)) && rows <= all && Distinct(all)
    requires StringLe(name(high), name(low)) && name(high) != name(low)
    ensures ReadBack(after) != all
  {
    FirstOfChunk(dir, after, name, rows, size, high);
    FirstOfChunk(dir, after, name, rows, size, low);
    StartsGrow(size, low + 1, high);
    assert Start(size, low) < Start(size, high);
    EarlierFileFirst(after, all, name(high), name(low), Start(size, high), Start(size, low));
  }

  /** A stale shard that sorts before a used one puts its rows before that one's. */
  lemma StaleShardFirst<T>(dir: Directory<T>, after: Directory<T>, name: Naming, rows: seq<T>, size: nat, file: string,
      i: nat)
    requires 0 < size && i < ChunkCount(|rows|, size) && forall i :: IsShardName(name(i))
    requires Overwritten(dir, after, name, rows, size, ChunkCount(|rows|, size))
    requires Distinct(rows + StaleRows(dir, name, ChunkCount(|rows|, size)))
    requires file in Stale(dir, name, ChunkCount(|rows|, size)) && dir[file] != [] && !StringLe(name(i), file)
    ensures ReadBack(after) != rows + StaleRows(dir, name, ChunkCount(|rows|, size))
  {
    var c := ChunkCount(|rows|, size);
    var rest := StaleRows(dir, name, c);
    var j := StaleRowAt(dir, name, c, file);
    FirstOfChunk(dir, after, name, rows, size, i);
    assert Same(dir, after, file);
    LaterRowsFirst(after, rows, rest, file, name(i), j, Start(size, i));
  }

  lemma LaterRowsFirst<T>(dir: Directory<T>, rows: seq<T>, rest: seq<T>, first: string, second: string, j: nat, i: nat)
    requires first in ShardNames(dir) && second in ShardNames(dir) && !StringLe(second, first)
    requires dir[first] != [] && dir[second] != [] && Distinct(rows + rest)
    requires j < |rest| && i < |rows| && dir[first][0] == rest[j] && dir[second][0] == rows[i]
    ensures ReadBack(dir) != rows + rest
  {
    StringLeTotal(first, second);
    StringLeTotal(second, second);
    assert (rows + rest)[|rows| + j] == rest[j];
    EarlierFileFirst(dir, rows + rest, first, second, |rows| + j, i);
  }

  lemma StaleRowAt<T>(dir: Directory<T>, name: Naming, c: nat, file: string) returns (j: nat)
    requires file in Stale(dir, name, c) && dir[file] != []
    ensures j < |StaleRows(dir, name, c)| && StaleRows(dir, name, c)[j] == dir[file][0]
  {
    var files := StaleFiles(dir, name, c);
    assert file in files;
    var p :| 0 <= p < |files| && files[p] == file;
    ConcatAt(dir, files, |files|, p);
    j := |Concat(dir, files, p)|;
  }

  lemma FirstOfChunk<T>(dir: Directory<T>, after: Directory<T>, name: Naming, rows: seq<T>, size: nat, i: nat)
    requires 0 < size && i < ChunkCount(|rows|, size)
    requires Overwritten(dir, after, name, rows, size, ChunkCount(|rows|, size))
    ensures Start(size, i) < |rows| && name(i) in after && after[name(i)] != []
    ensures after[name(i)][0] == rows[Start(size, i)]
  {
    ChunkCountExact(|rows|, size, i);
    assert Holds(after, name(i), Chunk(rows, size, i));
  }

  /** Of two shards, the one whose name comes first cannot have the later rows. */
  lemma EarlierFileFirst<T>(dir: Directory<T>, all: seq<T>, first: string, second: string, i: nat, j: nat)
    requires first in ShardNames(dir) && second in ShardNames(dir) && StringLe(first, second) && first != second
    requires dir[first] != [] && dir[second] != [] && Distinct(all)
    requires j < i < |all| && dir[first][0] == all[i] && dir[second][0] == all[j]
    ensures ReadBack(dir) != all
  {
    var names := ShardFiles(dir);
    ShardFilesPresent(dir);
    assert first in names && second in names;
    var p :| 0 <= p < |names| && names[p] == first;
    var q :| 0 <= q < |names| && names[q] == second;
    StringLeTotal(first, second);
    assert p < q;
    if ReadBack(dir) == all {
      EarlierFileEarlierRow(dir, names, all, p, q, i, j);
    }
  }

  /** So with distinct rows a fresh table comes back in order exactly while at most 100 shards are used. */
  lemma ShardRoundTripExactly<T>(dir: Directory<T>, numShards: nat)
    requires HasRows(dir) && 0 < numShards && ShardNames(dir) == {} && Distinct(dir[MAIN_TABLE])
    ensures ReadBack(ShardCsvOf(dir, numShards)) == dir[MAIN_TABLE] <==> ShardsUsed(dir, numShards) <= 100
  {
    NothingStale(dir, ShardsUsed(dir, numShards));
    assert dir[MAIN_TABLE] + [] == dir[MAIN_TABLE];
    ReshardInOrderExactly(dir, numShards);
  }

  /** A stale shard 100 is read after the used shard 10 and before the used shard 11. */
  lemma StaleHundredComesBetween<T>(dir: Directory<T>, numShards: nat)
    requires HasRows(dir) && 0 < numShards && 11 < ShardsUsed(dir, numShards) <= 100 && ShardName(100) in dir
    ensures ShardName(100) in Stale(dir, ShardName, ShardsUsed(dir, numShards))
    ensures StringLe(ShardName(10), ShardName(100)) && StringLe(ShardName(100), ShardName(11))
    ensures !StaleAfter(dir, ShardName, ShardsUsed(dir, numShards))
  {
    var c := ShardsUsed(dir, numShards);
    ShardNameIsShardName(100);
    assert ShardName(100) !in Used(ShardName, c) by {
      ShardNamesDiffer();
    }
    TenSortsBeforeHundred();
    HundredSortsBeforeEleven();
    StringLeTotal(ShardName(100), ShardName(11));
  }

  lemma EarlierFileEarlierRow<T>(dir: Directory<T>, names: seq<string>, rows: seq<T>, p: nat, q: nat, i: nat, j: nat)
    requires p < q < |names| && AllIn(dir, names) && Concat(dir, names, |names|) == rows && Distinct(rows)
    requires i < |rows| && dir[names[p]] != [] && dir[names[p]][0] == rows[i]
    requires j < |rows| && dir[names[q]] != [] && dir[names[q]][0] == rows[j]
    ensures i < j
  {
    ConcatAt(dir, names, |names|, p);
    ConcatAt(dir, names, |names|, q);
    ConcatAt(dir, names, q, p);
  }

  /** From a directory without shards, the shards in it afterwards are exactly the used ones, at most `numShards`. */
  lemma ShardsAreTheUsedOnes<T>(dir: Directory<T>, numShards: nat, file: string)
    requires HasRows(dir) && 0 < numShards && ShardNames(dir) == {}
    ensures file in ShardNames(ShardCsvOf(dir, numShards)) <==>
            exists i :: 0 <= i < ShardsUsed(dir, numShards) && file == ShardName(i)
  {
    var rows := dir[MAIN_TABLE];
    var size := ShardSize(|rows|, numShards);
    ChunksFitShards(|rows|, numShards);
    ShardNamesDiffer();
    forall i ensures IsShardName(ShardName(i)) {
      ShardNameIsShardName(i);
    }
    NewShardsAreChunks(dir, ShardName, rows, size, numShards, file);
  }

  lemma NewShardsAreChunks<T>(dir: Directory<T>, name: Naming, rows: seq<T>, size: nat, k: nat, file: string)
    requires 0 < size && ChunkCount(|rows|, size) <= k && Injective(name) && ShardNames(dir) == {}
    requires forall i :: IsShardName(name(i))
    ensures file in ShardNames(Written(dir, name, rows, size, k)) <==>
            exists i :: 0 <= i < ChunkCount(|rows|, size) && file == name(i)
  {
    NewFilesAreChunks(dir, name, rows, size, k, file);
    if IsShardName(file) {
      assert file !in ShardNames(dir);
    }
  }

  /** A file that was not there before is there afterwards exactly when it is one of the chunks. */
  lemma NewFilesAreChunks<T>(dir: Directory<T>, name: Naming, rows: seq<T>, size: nat, k: nat, file: string)
    requires 0 < size && ChunkCount(|rows|, size) <= k && Injective(name)
    ensures file !in dir ==>
      (file in Written(dir, name, rows, size, k) <==> exists i :: 0 <= i < ChunkCount(|rows|, size) && file == name(i))
    ensures (exists i :: 0 <= i < ChunkCount(|rows|, size) && file == name(i)) ==>
      file in Written(dir, name, rows, size, k)
  {
    if i :| 0 <= i < ChunkCount(|rows|, size) && file == name(i) {
      ChunkCountExact(|rows|, size, i);
      WrittenChunk(dir, name, rows, size, k, i);
    } else {
      forall i | 0 <= i < k && name(i) == file ensures Chunk(rows, size, i) == [] {
        ChunkCountExact(|rows|, size, i);
      }
      WrittenElsewhere(dir, name, rows, size, k, file);
    }
  }

  /** Every used shard but the last holds exactly `ceil(n/k)` rows, the last at least one. */
  lemma ShardSizes<T>(dir: Directory<T>, numShards: nat, i: nat)
    requires HasRows(dir) && 0 < numShards && i < ShardsUsed(dir, numShards)
    ensures var after, size := ShardCsvOf(dir, numShards), ShardSize(|dir[MAIN_TABLE]|, numShards);
            && ShardName(i) in after
            && (if i + 1 < ShardsUsed(dir, numShards) then |after[ShardName(i)]| == size
              else 0 < |after[ShardName(i)]| <= size)
  {
    var rows := dir[MAIN_TABLE];
    var size := ShardSize(|rows|, numShards);
    ChunksFitShards(|rows|, numShards);
    ChunkCountExact(|rows|, size, i);
    ChunkCountExact(|rows|, size, i + 1);
    ShardNamesDiffer();
    WrittenChunk(dir, ShardName, rows, size, numShards, i);
  }

  /** The size is the least with which all rows fit into the shards asked for. */
  lemma ShardSizeExactly(rows: nat, numShards: nat)
    requires 0 < numShards
    ensures var size := ShardSize(rows, numShards);
            rows <= size * numShards && (rows > 0 ==> size > 0 && (size - 1) * numShards < rows)
  {
    var size := ShardSize(rows, numShards);
    var sum := rows + numShards - 1;
    assert sum == size * numShards + sum % numShards;
    assert (size - 1) * numShards == size * numShards - numShards;
    assert size == 0 ==> size * numShards == 0;
  }

  /** The paths returned after `k` rounds are those of the used shards, in order. */
  lemma NamesReturned<T>(name: Naming, rows: seq<T>, size: nat, k: nat)
    requires 0 < size
    ensures var names, c := NamesWritten(name, rows, size, k), ChunkCount(|rows|, size);
            |names| == (if k <= c then k else c) && forall i :: 0 <= i < |names| ==> names[i] == name(i)
  {
    var c := ChunkCount(|rows|, size);
    forall i: nat ensures i < c <==> Chunk(rows, size, i) != [] {
      ChunkCountExact(|rows|, size, i);
    }
    NamesUpTo(name, rows, size, k, c);
  }

  lemma {:induction false} NamesUpTo<T>(name: Naming, rows: seq<T>, size: nat, k: nat, c: nat)
    requires forall i: nat :: i < c <==> Chunk(rows, size, i) != []
    ensures var names := NamesWritten(name, rows, size, k);
            |names| == (if k <= c then k else c) && forall i :: 0 <= i < |names| ==> names[i] == name(i)
  {
    if k > 0 {
      NamesUpTo(name, rows, size, k - 1, c);
      NamesStep(name, rows, size, k, k - 1 < c);
      NamesAppended(name, NamesWritten(name, rows, size, k - 1), k, c);
    }
  }

  lemma NamesStep<T>(name: Naming, rows: seq<T>, size: nat, k: nat, taken: bool)
    requires 0 < k && (taken <==> Chunk(rows, size, k - 1) != [])
    ensures NamesWritten(name, rows, size, k)
            == NamesWritten(name, rows, size, k - 1) + (if taken then [name(k - 1)] else [])
  {
  }

  lemma NamesAppended(name: Naming, names: seq<string>, k: nat, c: nat)
    requires 0 < k && |names| == (if k - 1 <= c then k - 1 else c)
    requires forall i :: 0 <= i < |names| ==> names[i] == name(i)
    ensures var more := names + (if k - 1 < c then [name(k - 1)] else []);
            |more| == (if k <= c then k else c) && forall i :: 0 <= i < |more| ==> more[i] == name(i)
  {
  }

  /** Without shards the main table is read, when there is one. */
  lemma ReadWithoutShards<T>(dir: Directory<T>)
    requires ShardNames(dir) == {}
    ensures ReadBack(dir) == if MAIN_TABLE in dir then dir[MAIN_TABLE] else []
  {
    assert ShardFiles(dir) == [];
  }
}
