/**
 * `verify_batches`: the batch verifier. It takes the `.json` names of a
 * directory listing in name order, loads each batch file and collects the
 * `(episode_number, title, filename)` triple of every entry, sorts the
 * triples stably by episode number, counts duplicated numbers, computes the
 * numbers missing between the smallest and the largest, and picks the first
 * and last five triples for display.
 *
 * The listing and the loading of a batch file are parameters: `load` gives
 * `Unreadable` when opening or parsing the file fails, and otherwise the
 * file's entries, where `Malformed` stands for an entry without one of the
 * three keys (its lookup raises, which ends the file's loop).
 */
module Verifier {
  import opened Wrappers
  import opened Text
  import opened Ordering

  /** The triple collected for one transcript entry. */
  datatype Entry = Entry(episodeNumber: int, title: string, filename: string)

  /** One element of a batch file's list. */
  datatype Item = Item(entry: Entry) | Malformed

  /** What loading one batch file gives. */
  datatype Load = Unreadable | Parsed(items: seq<Item>)

  /**
   * The gap report, made when there is at least one triple: the smallest and
   * largest numbers, the numbers missing between them, and the ascending list
   * of those numbers when it is printed.
   */
  datatype Gap = Gap(lo: int, hi: int, missing: set<int>, listed: Option<seq<int>>)

  /**
   * What a run reports. `duplicated` is present only when `duplicates > 0`
   * (the branch that builds the counting dictionary), `gap` only when some
   * triple was collected; `first` and `last` are the two display windows.
   */
  datatype Verification =
    | NoBatchFiles
    | Verified(batchFiles: seq<string>, failedLoads: seq<string>, total: nat, files: seq<Entry>,
               duplicates: nat, duplicated: Option<seq<int>>, gap: Option<Gap>,
               first: seq<Entry>, last: seq<Entry>)

  /** `[f for f in listing if f.endswith(".json")]`; the test is case-sensitive. */
  function JsonNames(listing: seq<string>): (r: seq<string>)
    ensures |r| <= |listing|
    ensures forall n :: n in r <==> n in listing && EndsWith(n, ".json")
  {
    if listing == [] then []
    else
      var last := listing[|listing| - 1];
      JsonNames(listing[..|listing| - 1]) + (if EndsWith(last, ".json") then [last] else [])
  }

  /** The filter keeps a single name exactly when it ends in ".json". */
  lemma JsonNamesOne(x: string)
    ensures JsonNames([x]) == if EndsWith(x, ".json") then [x] else []
  {
    assert [x][..0] == [];
  }

  /** The filter keeps the listing's order: it distributes over concatenation. */
  lemma {:induction false} JsonNamesAppend(a: seq<string>, b: seq<string>)
    ensures JsonNames(a + b) == JsonNames(a) + JsonNames(b)
    decreases |b|
  {
    if b == [] {
      assert a + b == a;
    } else {
      var b' := b[..|b| - 1];
      var last := b[|b| - 1];
      assert (a + b)[..|a + b| - 1] == a + b';
      assert (a + b)[|a + b| - 1] == last;
      JsonNamesAppend(a, b');
      assert b == b' + [last];
    }
  }

  /** Number of entries before the first malformed one. */
  function LeadingEntries(items: seq<Item>): (n: nat)
    ensures n <= |items|
    ensures forall m :: 0 <= m < n ==> items[m].Item?
    ensures n < |items| ==> items[n].Malformed?
  {
    if items == [] || items[0].Malformed? then 0 else 1 + LeadingEntries(items[1..])
  }

  /** The triples of a run of well-formed entries. */
  function EntriesOf(items: seq<Item>): (r: seq<Entry>)
    requires forall m :: 0 <= m < |items| ==> items[m].Item?
    ensures |r| == |items|
  {
    seq(|items|, m requires 0 <= m < |items| => items[m].entry)
  }

  /**
   * What one batch file adds to `files`: nothing when it cannot be loaded,
   * otherwise the triples of its entries up to the first malformed one.
   */
  function Taken(load: Load): seq<Entry>
  {
    match load
    case Unreadable => []
    case Parsed(items) => EntriesOf(items[..LeadingEntries(items)])
  }

  /** A batch file whose handling ends in the `except` branch. */
  predicate LoadFails(load: Load)
  {
    load.Unreadable? || LeadingEntries(load.items) < |load.items|
  }

  /** `files` after the batch files `names` have been handled in order. */
  function Aggregate(names: seq<string>, load: string -> Load): seq<Entry>
  {
    if names == [] then []
    else Aggregate(names[..|names| - 1], load) + Taken(load(names[|names| - 1]))
  }

  /** The batch files reported as unreadable, in order. */
  function FailedLoads(names: seq<string>, load: string -> Load): seq<string>
  {
    if names == [] then []
    else
      var last := names[|names| - 1];
      FailedLoads(names[..|names| - 1], load) + (if LoadFails(load(last)) then [last] else [])
  }

  function EntryKey(e: Entry): int
  {
    e.episodeNumber
  }

  /** `[file_data[0] for file_data in files]`. */
  function Numbers(files: seq<Entry>): (r: seq<int>)
    ensures |r| == |files|
  {
    seq(|files|, i requires 0 <= i < |files| => files[i].episodeNumber)
  }

  /** `set(nums)`. */
  function NumberSet(nums: seq<int>): set<int>
  {
    set x | x in nums
  }

  /** No number occurs twice. */
  predicate Distinct(nums: seq<int>)
  {
    forall i, j :: 0 <= i < j < |nums| ==> nums[i] != nums[j]
  }

  /** How often each number occurs: the final `dup_dict`. */
  function Counts(nums: seq<int>): map<int, nat>
  {
    map x | x in nums :: multiset(nums)[x]
  }

  /** The numbers in the order they first occur: the key order of `dup_dict`. */
  function FirstOccurrences(nums: seq<int>): (r: seq<int>)
    ensures forall x :: x in r <==> x in nums
    ensures Distinct(r)
  {
    if nums == [] then []
    else
      var front := FirstOccurrences(nums[..|nums| - 1]);
      var last := nums[|nums| - 1];
      assert forall x :: x in nums <==> x in nums[..|nums| - 1] || x == last by {
        assert nums == nums[..|nums| - 1] + [last];
      }
      if last in front then front else front + [last]
  }

  /** `[k for k, v in counts.items() if v > 1]` with the keys in `keys` order. */
  function Repeated(keys: seq<int>, counts: map<int, nat>): seq<int>
    requires forall k :: k in keys ==> k in counts
  {
    if keys == [] then []
    else
      var last := keys[|keys| - 1];
      Repeated(keys[..|keys| - 1], counts) + (if counts[last] > 1 then [last] else [])
  }

  /** Python's `min` of a non-empty list. */
  function SeqMin(s: seq<int>): (r: int)
    requires s != []
    ensures r in s && forall x :: x in s ==> r <= x
  {
    if |s| == 1 then s[0]
    else
      var front := s[..|s| - 1];
      var last := s[|s| - 1];
      var m := SeqMin(front);
      assert forall x :: x in s <==> x in front || x == last by {
        assert s == front + [last];
      }
      if last < m then last else m
  }

  /** Python's `max` of a non-empty list. */
  function SeqMax(s: seq<int>): (r: int)
    requires s != []
    ensures r in s && forall x :: x in s ==> x <= r
  {
    if |s| == 1 then s[0]
    else
      var front := s[..|s| - 1];
      var last := s[|s| - 1];
      var m := SeqMax(front);
      assert forall x :: x in s <==> x in front || x == last by {
        assert s == front + [last];
      }
      if last > m then last else m
  }

  /** `set(range(lo, hi + 1))`. */
  function Interval(lo: int, hi: int): (r: set<int>)
    ensures forall x :: x in r <==> lo <= x <= hi
    ensures |r| == if hi < lo then 0 else hi - lo + 1
    decreases hi - lo
  {
    if hi < lo then {}
    else
      var front := Interval(lo, hi - 1);
      assert hi !in front;
      front + {hi}
  }

  /** `sorted(list(missing))`: the numbers of `lo..hi` outside `present`, ascending. */
  function MissingList(lo: int, hi: int, present: set<int>): (r: seq<int>)
    ensures forall x :: x in r <==> lo <= x <= hi && x !in present
    ensures forall i, j :: 0 <= i < j < |r| ==> r[i] < r[j]
    decreases hi - lo
  {
    if hi < lo then []
    else
      var front := MissingList(lo, hi - 1, present);
      var r := front + (if hi in present then [] else [hi]);
      assert forall i :: 0 <= i < |front| ==> front[i] < hi by {
        forall i | 0 <= i < |front|
          ensures front[i] < hi
        {
          assert front[i] in front;
        }
      }
      r
  }

  /** End of the first display window: `min(5, n)`. */
  function FirstEnd(n: nat): nat
  {
    if n < 5 then n else 5
  }

  /** Start of the last display window: `max(0, n - 5)`. */
  function LastStart(n: nat): nat
  {
    if n < 5 then 0 else n - 5
  }

  /** The gap report for the sorted numbers. */
  function GapOf(nums: seq<int>): (r: Gap)
    requires nums != []
    ensures r.lo in nums && r.hi in nums && forall x :: x in nums ==> r.lo <= x <= r.hi
    ensures r.listed.Some? <==> 0 < |r.missing| < 50
  {
    var lo := SeqMin(nums);
    var hi := SeqMax(nums);
    var missing := Interval(lo, hi) - NumberSet(nums);
    Gap(lo, hi, missing, if 0 < |missing| < 50 then Some(MissingList(lo, hi, NumberSet(nums))) else None)
  }

  /** The whole run as one function of its inputs. */
  function Verify(listing: seq<string>, load: string -> Load): (r: Verification)
    ensures r.NoBatchFiles? <==> JsonNames(listing) == []
    ensures r.Verified? ==> NamesSorted(r.batchFiles) && multiset(r.batchFiles) == multiset(JsonNames(listing))
  {
    var batchFiles := SortNames(JsonNames(listing));
    if batchFiles == [] then NoBatchFiles
    else Summary(batchFiles, FailedLoads(batchFiles, load), Aggregate(batchFiles, load))
  }

  /** The report on the triples `collected` from `batchFiles`, once sorted by number. */
  function Summary(batchFiles: seq<string>, failedLoads: seq<string>, collected: seq<Entry>): Verification
  {
    SortedSummary(batchFiles, failedLoads, |collected|, SortBy(collected, EntryKey))
  }

  /** The report on `total` triples, `files` being those triples sorted by number. */
  function SortedSummary(batchFiles: seq<string>, failedLoads: seq<string>, total: nat, files: seq<Entry>): Verification
  {
    var nums := Numbers(files);
    NumberSetSize(nums);
    var duplicates := |nums| - |NumberSet(nums)|;
    Verified(batchFiles, failedLoads, total, files, duplicates,
             if duplicates > 0 then Some(Repeated(FirstOccurrences(nums), Counts(nums))) else None,
             if files == [] then None else Some(GapOf(nums)),
             files[..FirstEnd(|files|)], files[LastStart(|files|)..])
  }

  /**
   * `len(file_nums) - len(file_set)` is never negative, and it is zero
   * exactly when no number occurs twice.
   */
  lemma {:induction false} NumberSetSize(nums: seq<int>)
    ensures |NumberSet(nums)| <= |nums|
    ensures |NumberSet(nums)| == |nums| <==> Distinct(nums)
  {
    if nums != [] {
      var front := nums[..|nums| - 1];
      var last := nums[|nums| - 1];
      NumberSetSize(front);
      assert nums == front + [last];
      DistinctSnoc(front, last);
      assert NumberSet(nums) == NumberSet(front) + {last};
      if last !in front {
        assert |NumberSet(nums)| == |NumberSet(front)| + 1;
      }
    }
  }

  /** A list with one more number has no repeats iff the shorter one has none and lacks it. */
  lemma DistinctSnoc(front: seq<int>, last: int)
    ensures Distinct(front + [last]) <==> Distinct(front) && last !in front
  {
    var nums := front + [last];
    if Distinct(front) && last !in front {
      forall i, j | 0 <= i < j < |nums|
        ensures nums[i] != nums[j]
      {
        if j < |front| {
          assert nums[i] == front[i] && nums[j] == front[j];
        } else {
          assert nums[i] in front;
        }
      }
    }
    if Distinct(nums) {
      forall i, j | 0 <= i < j < |front|
        ensures front[i] != front[j]
      {
        assert nums[i] == front[i] && nums[j] == front[j];
      }
      forall i | 0 <= i < |front|
        ensures front[i] != last
      {
        assert nums[i] == front[i] && nums[|nums| - 1] == last;
      }
    }
  }

  /**
   * `verify_batches`. The result is what the run reports; the contract names
   * the promises a reader of the report relies on.
   */
  method VerifyBatches(listing: seq<string>, load: string -> Load) returns (report: Verification)
    ensures report == Verify(listing, load)
  {
    var batchFiles := SortNames(JsonNames(listing));
    if batchFiles == [] {
      return NoBatchFiles;
    }
    var files, failed := CollectEntries(batchFiles, load);
    report := Summarise(batchFiles, failed, files);
  }

  /**
   * The part of `verify_batches` after the loading loops: the stable sort by
   * episode number, the duplicate count and list, the gap report and the two
   * display windows.
   */
  method Summarise(batchFiles: seq<string>, failed: seq<string>, files: seq<Entry>) returns (report: Verification)
    ensures report == Summary(batchFiles, failed, files)
  {
    var sorted := SortBy(files, EntryKey);
    report := ReportSorted(batchFiles, failed, |files|, sorted);
  }

  /** The report once the triples are sorted. */
  method ReportSorted(batchFiles: seq<string>, failed: seq<string>, total: nat, sorted: seq<Entry>)
    returns (report: Verification)
    ensures report == SortedSummary(batchFiles, failed, total, sorted)
  {
    var fileNums := Numbers(sorted);
    var duplicates, duplicated := ReportDuplicates(fileNums);
    var gap := if sorted == [] then None else Some(GapOf(fileNums));
    ghost var expected := SortedSummary(batchFiles, failed, total, sorted);
    assert expected.duplicates == duplicates;
    assert expected.duplicated == duplicated;
    assert expected.gap == gap;
    report := Verified(batchFiles, failed, total, sorted, duplicates, duplicated, gap,
                       sorted[..FirstEnd(|sorted|)], sorted[LastStart(|sorted|)..]);
  }

  /** `duplicates`, and the duplicate list when `duplicates > 0`. */
  method ReportDuplicates(fileNums: seq<int>) returns (duplicates: nat, duplicated: Option<seq<int>>)
    ensures duplicates == |fileNums| - |NumberSet(fileNums)|
    ensures duplicated == if duplicates > 0 then Some(Repeated(FirstOccurrences(fileNums), Counts(fileNums))) else None
  {
    var fileSet := NumberSet(fileNums);
    NumberSetSize(fileNums);
    duplicates := |fileNums| - |fileSet|;
    duplicated := None;
    if duplicates > 0 {
      var dupDict, keyOrder := CountNumbers(fileNums);
      duplicated := Some(Repeated(keyOrder, dupDict));
    }
  }

  /**
   * The nested loops of `verify_batches`: for each batch file in order, the
   * triples of its entries are appended until the first malformed entry; a
   * file that cannot be loaded adds nothing. Both kinds of failure are
   * reported.
   */
  method CollectEntries(batchFiles: seq<string>, load: string -> Load)
    returns (files: seq<Entry>, failed: seq<string>)
    ensures files == Aggregate(batchFiles, load)
    ensures failed == FailedLoads(batchFiles, load)
  {
    files := [];
    failed := [];
    for i := 0 to |batchFiles|
      invariant files == Aggregate(batchFiles[..i], load)
      invariant failed == FailedLoads(batchFiles[..i], load)
    {
      var batchFile := batchFiles[i];
      CollectStep(batchFiles, i, load);
      match load(batchFile) {
        case Unreadable =>
          failed := failed + [batchFile];
        case Parsed(batchData) =>
          var complete;
          files, complete := AppendEntries(files, batchData);
          if !complete {
            failed := failed + [batchFile];
          }
      }
    }
    assert batchFiles[..|batchFiles|] == batchFiles;
  }

  /**
   * The inner loop of `verify_batches` on one loaded batch file: the triple
   * of each entry is appended to `files` until an entry lacks a key, which
   * ends the loop; `complete` tells whether every entry was taken.
   */
  method AppendEntries(files: seq<Entry>, batchData: seq<Item>) returns (extended: seq<Entry>, complete: bool)
    ensures extended == files + Taken(Parsed(batchData))
    ensures complete <==> !LoadFails(Parsed(batchData))
  {
    extended := files;
    var j := 0;
    while j < |batchData|
      invariant j <= LeadingEntries(batchData)
      invariant extended == files + EntriesOf(batchData[..j])
    {
      match batchData[j] {
        case Malformed =>
          break;
        case Item(fileEntry) =>
          EntriesStep(batchData, j);
          extended := extended + [fileEntry];
          j := j + 1;
      }
    }
    assert j == LeadingEntries(batchData);
    complete := j == |batchData|;
  }

  /** One more batch file handled. */
  lemma CollectStep(names: seq<string>, i: nat, load: string -> Load)
    requires i < |names|
    ensures Aggregate(names[..i + 1], load) == Aggregate(names[..i], load) + Taken(load(names[i]))
    ensures FailedLoads(names[..i + 1], load)
            == FailedLoads(names[..i], load) + (if LoadFails(load(names[i])) then [names[i]] else [])
  {
    assert names[..i + 1][..i] == names[..i];
  }

  /** One more well-formed entry appended. */
  lemma EntriesStep(items: seq<Item>, j: nat)
    requires j < |items| && forall m :: 0 <= m <= j ==> items[m].Item?
    ensures EntriesOf(items[..j + 1]) == EntriesOf(items[..j]) + [items[j].entry]
  {
  }

  /**
   * The counting loop: `dup_dict[num] = dup_dict.get(num, 0) + 1` for every
   * number. A dictionary is returned as its contents and its key order
   * (insertion order: a key is added when first seen).
   */
  method CountNumbers(nums: seq<int>) returns (dupDict: map<int, nat>, keyOrder: seq<int>)
    ensures dupDict == Counts(nums)
    ensures keyOrder == FirstOccurrences(nums)
    ensures forall k :: k in keyOrder <==> k in dupDict
  {
    dupDict := map[];
    keyOrder := [];
    for i := 0 to |nums|
      invariant dupDict == Counts(nums[..i])
      invariant keyOrder == FirstOccurrences(nums[..i])
    {
      var num := nums[i];
      CountingStep(nums, i);
      if num !in dupDict {
        keyOrder := keyOrder + [num];
      }
      dupDict := dupDict[num := (if num in dupDict then dupDict[num] else 0) + 1];
    }
    assert nums[..|nums|] == nums;
  }

  /** What one more turn of the counting loop does to the counts and to the key order. */
  lemma CountingStep(nums: seq<int>, i: nat)
    requires i < |nums|
    ensures var counts := Counts(nums[..i]);
            Counts(nums[..i + 1]) == counts[nums[i] := (if nums[i] in counts then counts[nums[i]] else 0) + 1]
    ensures FirstOccurrences(nums[..i + 1])
            == if nums[i] in Counts(nums[..i]) then FirstOccurrences(nums[..i])
               else FirstOccurrences(nums[..i]) + [nums[i]]
  {
    var front := nums[..i];
    assert nums[..i + 1] == front + [nums[i]];
    assert nums[..i + 1][..i] == front;
    CountsStep(front, nums[i]);
  }

  lemma CountsStep(front: seq<int>, x: int)
    ensures Counts(front + [x])
            == Counts(front)[x := (if x in Counts(front) then Counts(front)[x] else 0) + 1]
  {
    var s := front + [x];
    assert multiset(s) == multiset(front) + multiset{x};
    assert forall y :: y in s <==> y in front || y == x;
  }

  /** Strictly increasing. */
  predicate Increasing(s: seq<int>)
  {
    forall i, j :: 0 <= i < j < |s| ==> s[i] < s[j]
  }

  /** Non-decreasing, as `file_nums` is after the sort. */
  predicate NonDecreasing(s: seq<int>)
  {
    forall i, j :: 0 <= i < j < |s| ==> s[i] <= s[j]
  }

  /** The filter keeps exactly the keys whose count is above one, in key order. */
  lemma {:induction false} RepeatedFilter(keys: seq<int>, counts: map<int, nat>)
    requires forall k :: k in keys ==> k in counts
    ensures forall x :: x in Repeated(keys, counts) <==> x in keys && counts[x] > 1
  {
    if keys != [] {
      var front := keys[..|keys| - 1];
      var last := keys[|keys| - 1];
      RepeatedFilter(front, counts);
      assert keys == front + [last];
    }
  }

  /** The filter keeps a list without repeats free of repeats. */
  lemma {:induction false} RepeatedDistinct(keys: seq<int>, counts: map<int, nat>)
    requires forall k :: k in keys ==> k in counts
    requires Distinct(keys)
    ensures Distinct(Repeated(keys, counts))
  {
    if keys != [] {
      var front := keys[..|keys| - 1];
      var last := keys[|keys| - 1];
      RepeatedDistinct(front, counts);
      RepeatedFilter(front, counts);
      var r := Repeated(keys, counts);
      var rf := Repeated(front, counts);
      if counts[last] > 1 {
        assert r == rf + [last];
        assert last !in front;
        forall i, j | 0 <= i < j < |r|
          ensures r[i] != r[j]
        {
          if j == |r| - 1 {
            assert r[i] in rf;
          } else {
            assert r[i] == rf[i] && r[j] == rf[j];
          }
        }
      } else {
        assert r == rf;
      }
    }
  }

  /** The filter keeps an increasing list increasing. */
  lemma {:induction false} RepeatedIncreasing(keys: seq<int>, counts: map<int, nat>)
    requires forall k :: k in keys ==> k in counts
    requires Increasing(keys)
    ensures Increasing(Repeated(keys, counts))
  {
    if keys != [] {
      var front := keys[..|keys| - 1];
      var last := keys[|keys| - 1];
      RepeatedIncreasing(front, counts);
      RepeatedFilter(front, counts);
      var r := Repeated(keys, counts);
      var rf := Repeated(front, counts);
      if counts[last] > 1 {
        assert r == rf + [last];
        forall i, j | 0 <= i < j < |r|
          ensures r[i] < r[j]
        {
          if j == |r| - 1 {
            assert r[i] in rf;
            var m :| 0 <= m < |front| && front[m] == r[i];
            assert keys[m] == r[i];
          } else {
            assert r[i] == rf[i] && r[j] == rf[j];
          }
        }
      } else {
        assert r == rf;
      }
    }
  }

  /** In a sorted list, the numbers first occur in strictly increasing order. */
  lemma {:induction false} FirstOccurrencesIncreasing(nums: seq<int>)
    requires NonDecreasing(nums)
    ensures Increasing(FirstOccurrences(nums))
  {
    if nums != [] {
      var front := nums[..|nums| - 1];
      var last := nums[|nums| - 1];
      FirstOccurrencesIncreasing(front);
      var f := FirstOccurrences(front);
      if last !in f {
        var r := f + [last];
        forall i, j | 0 <= i < j < |r|
          ensures r[i] < r[j]
        {
          if j == |r| - 1 {
            assert r[i] in front;
            var m :| 0 <= m < |front| && front[m] == r[i];
            assert nums[m] == r[i];
          } else {
            assert r[i] == f[i] && r[j] == f[j];
          }
        }
      }
    }
  }

  /** No number occurs twice exactly when every count is at most one. */
  lemma {:induction false} DistinctCounts(nums: seq<int>)
    ensures Distinct(nums) <==> forall x :: multiset(nums)[x] <= 1
  {
    if nums != [] {
      var front := nums[..|nums| - 1];
      var last := nums[|nums| - 1];
      DistinctCounts(front);
      assert nums == front + [last];
      assert multiset(nums) == multiset(front) + multiset{last};
      if Distinct(nums) {
        assert last !in front;
        assert Distinct(front) by {
          forall i, j | 0 <= i < j < |front|
            ensures front[i] != front[j]
          {
            assert nums[i] == front[i] && nums[j] == front[j];
          }
        }
      } else {
        var i, j :| 0 <= i < j < |nums| && nums[i] == nums[j];
        if j < |front| {
          assert front[i] == front[j];
          var x :| multiset(front)[x] > 1;
          assert multiset(nums)[x] > 1;
        } else {
          assert front[i] == last;
          assert multiset(front)[last] >= 1;
          assert multiset(nums)[last] >= 2;
        }
      }
    }
  }

  /**
   * The duplicate report: the list holds exactly the numbers that occur more
   * than once, each once, ascending when the numbers are sorted.
   */
  lemma DuplicateList(nums: seq<int>)
    ensures var listed := Repeated(FirstOccurrences(nums), Counts(nums));
            && (forall x :: x in listed <==> multiset(nums)[x] > 1)
            && Distinct(listed)
            && (NonDecreasing(nums) ==> Increasing(listed))
  {
    var keys := FirstOccurrences(nums);
    var counts := Counts(nums);
    RepeatedFilter(keys, counts);
    RepeatedDistinct(keys, counts);
    if NonDecreasing(nums) {
      FirstOccurrencesIncreasing(nums);
      RepeatedIncreasing(keys, counts);
    }
    forall x | multiset(nums)[x] > 0
      ensures x in keys && counts[x] == multiset(nums)[x]
    {
      assert x in nums;
    }
  }

  /** `duplicates > 0` exactly when the duplicate list is not empty. */
  lemma DuplicatesListed(nums: seq<int>)
    ensures |nums| - |NumberSet(nums)| > 0 <==> Repeated(FirstOccurrences(nums), Counts(nums)) != []
  {
    DuplicateList(nums);
    NumberSetSize(nums);
    DistinctCounts(nums);
    if |nums| - |NumberSet(nums)| > 0 {
      var x :| multiset(nums)[x] > 1;
      assert x in Repeated(FirstOccurrences(nums), Counts(nums));
    }
  }

  /**
   * The gap set: the smallest and largest numbers are not missing, a number
   * is missing exactly when it lies between them and does not occur, and the
   * number of missing values is the width of the range less the number of
   * distinct values.
   */
  lemma GapSet(nums: seq<int>)
    requires nums != []
    ensures var g := GapOf(nums);
            && g.lo == SeqMin(nums) && g.hi == SeqMax(nums)
            && g.lo !in g.missing && g.hi !in g.missing
            && (forall x :: x in g.missing <==> g.lo <= x <= g.hi && x !in nums)
            && |g.missing| == (g.hi - g.lo + 1) - |NumberSet(nums)|
  {
    var lo := SeqMin(nums);
    var hi := SeqMax(nums);
    var present := NumberSet(nums);
    var range := Interval(lo, hi);
    var missing := range - present;
    assert present <= range;
    assert range == missing + present && missing * present == {};
  }

  /**
   * The missing list is printed exactly when between 1 and 49 numbers are
   * missing, and then it lists each missing number once, ascending.
   */
  lemma GapListed(nums: seq<int>)
    requires nums != []
    ensures var g := GapOf(nums);
            && (g.listed.Some? <==> 0 < |g.missing| < 50)
            && (g.listed.Some? ==> Increasing(g.listed.value) && NumberSet(g.listed.value) == g.missing
                                   && |g.listed.value| == |g.missing|)
  {
    var g := GapOf(nums);
    var list := MissingList(g.lo, g.hi, NumberSet(nums));
    assert NumberSet(list) == g.missing;
    NumberSetSize(list);
    assert Distinct(list);
  }

  /** Nothing is missing exactly when every number of the range occurs. */
  lemma NothingMissing(nums: seq<int>)
    requires nums != []
    ensures GapOf(nums).missing == {} <==> forall x :: SeqMin(nums) <= x <= SeqMax(nums) ==> x in nums
  {
    var g := GapOf(nums);
    if g.missing == {} {
      forall x | g.lo <= x <= g.hi
        ensures x in nums
      {
        assert x in Interval(g.lo, g.hi);
        assert x !in g.missing;
      }
    }
  }

  /** With the numbers sorted, the smallest is the first and the largest the last. */
  lemma SortedEnds(nums: seq<int>)
    requires nums != [] && NonDecreasing(nums)
    ensures SeqMin(nums) == nums[0] && SeqMax(nums) == nums[|nums| - 1]
  {
    var lo := SeqMin(nums);
    var hi := SeqMax(nums);
    var i :| 0 <= i < |nums| && nums[i] == lo;
    var j :| 0 <= j < |nums| && nums[j] == hi;
    assert nums[0] in nums && nums[|nums| - 1] in nums;
    if 0 < i {
      assert nums[0] <= nums[i];
    }
    if j < |nums| - 1 {
      assert nums[j] <= nums[|nums| - 1];
    }
  }

  /**
   * The display windows: each holds `min(5, n)` triples from inside the list,
   * the first a prefix and the last a suffix; they overlap exactly when
   * 0 < n < 10, and for n <= 5 both are the whole list.
   */
  lemma Windows(files: seq<Entry>)
    ensures var n := |files|;
            var first := files[..FirstEnd(n)];
            var last := files[LastStart(n)..];
            && |first| == |last| == (if n < 5 then n else 5)
            && first == files[..|first|] && last == files[n - |last|..]
            && (LastStart(n) < FirstEnd(n) <==> 0 < n < 10)
            && (n <= 5 ==> first == files && last == files)
  {
  }

  /**
   * A malformed entry at position `k` ends the file's loop: the triples of
   * the entries before it are kept, and the file is reported.
   */
  lemma PartialFileKept(items: seq<Item>, k: nat)
    requires k < |items| && items[k].Malformed?
    requires forall m :: 0 <= m < k ==> items[m].Item?
    ensures LeadingEntries(items) == k
    ensures Taken(Parsed(items)) == EntriesOf(items[..k])
    ensures LoadFails(Parsed(items))
  {
  }

  /** There is no report exactly when no name of the listing ends in ".json". */
  lemma NoReport(listing: seq<string>, load: string -> Load)
    ensures Verify(listing, load).NoBatchFiles? <==> forall n :: n in listing ==> !EndsWith(n, ".json")
  {
    var json := JsonNames(listing);
    var batchFiles := SortNames(json);
    if batchFiles == [] {
      assert multiset(json) == multiset{};
      assert json == [];
    } else {
      assert batchFiles[0] in multiset(json);
      assert batchFiles[0] in json;
    }
  }

  /**
   * What a report promises: the batch files are the `.json` names in name
   * order, `total` counts every collected triple, and the triples are those
   * collected, sorted by number (SortedReport gives the rest).
   */
  lemma VerifyReport(listing: seq<string>, load: string -> Load)
    requires Verify(listing, load).Verified?
    ensures var v := Verify(listing, load);
            && NamesSorted(v.batchFiles) && multiset(v.batchFiles) == multiset(JsonNames(listing))
            && v == SortedSummary(v.batchFiles, FailedLoads(v.batchFiles, load), v.total, v.files)
            && v.total == |v.files| == |Aggregate(v.batchFiles, load)|
            && SortedBy(v.files, EntryKey) && multiset(v.files) == multiset(Aggregate(v.batchFiles, load))
    ensures var v := Verify(listing, load);
            forall k :: KeyClass(v.files, EntryKey, k) == KeyClass(Aggregate(v.batchFiles, load), EntryKey, k)
  {
    var batchFiles := SortNames(JsonNames(listing));
    var collected := Aggregate(batchFiles, load);
    var sorted := SortBy(collected, EntryKey);
    var v := SortedSummary(batchFiles, FailedLoads(batchFiles, load), |collected|, sorted);
    assert Verify(listing, load) == v;
    SortedReport(batchFiles, FailedLoads(batchFiles, load), |collected|, sorted);
    assert v.batchFiles == batchFiles;
    forall k
      ensures KeyClass(sorted, EntryKey, k) == KeyClass(collected, EntryKey, k)
    {
      SortByIsStable(collected, EntryKey, k);
    }
  }

  /**
   * The report on sorted triples: the duplicate count is zero exactly when no
   * number repeats, and the list is present exactly when it is not zero; the
   * gap report, present exactly when there is a triple, spans the first and
   * the last number.
   */
  lemma SortedReport(batchFiles: seq<string>, failedLoads: seq<string>, total: nat, files: seq<Entry>)
    requires SortedBy(files, EntryKey)
    ensures var v := SortedSummary(batchFiles, failedLoads, total, files);
            && v.Verified? && v.files == files && v.total == total
            && (v.duplicates == 0 <==> Distinct(Numbers(files)))
            && (v.duplicated.Some? <==> v.duplicates > 0)
            && (v.gap.Some? <==> files != [])
            && (v.gap.Some? ==> v.gap.value.lo == files[0].episodeNumber
                                && v.gap.value.hi == files[|files| - 1].episodeNumber)
  {
    SummaryCounts(batchFiles, failedLoads, total, files);
    SummaryGap(batchFiles, failedLoads, total, files);
  }

  /** The counting part of SortedReport, which holds whatever the order. */
  lemma SummaryCounts(batchFiles: seq<string>, failedLoads: seq<string>, total: nat, files: seq<Entry>)
    ensures var v := SortedSummary(batchFiles, failedLoads, total, files);
            && v.Verified? && v.files == files && v.total == total
            && (v.duplicates == 0 <==> Distinct(Numbers(files)))
            && (v.duplicated.Some? <==> v.duplicates > 0)
  {
    NumberSetSize(Numbers(files));
  }

  /** The gap part of SortedReport. */
  lemma SummaryGap(batchFiles: seq<string>, failedLoads: seq<string>, total: nat, files: seq<Entry>)
    requires SortedBy(files, EntryKey)
    ensures var v := SortedSummary(batchFiles, failedLoads, total, files);
            && (v.gap.Some? <==> files != [])
            && (v.gap.Some? ==> v.gap.value.lo == files[0].episodeNumber
                                && v.gap.value.hi == files[|files| - 1].episodeNumber)
  {
    var nums := Numbers(files);
    assert SortedSummary(batchFiles, failedLoads, total, files).gap
        == (if files == [] then None else Some(GapOf(nums)));
    if files != [] {
      assert NonDecreasing(nums) by {
        forall i, j | 0 <= i < j < |nums|
          ensures nums[i] <= nums[j]
        {
          assert EntryKey(files[i]) <= EntryKey(files[j]);
        }
      }
      SortedEnds(nums);
    }
  }
}
