/**
 * `process_files`: the transcript batcher. It keeps the `.txt` names of a
 * directory listing, numbers each name, sorts the numbered names stably by
 * number, reads every file in that order (a file that cannot be read is
 * counted as an error and skipped), cuts the records read into consecutive
 * chunks of `batch_size` and names the chunks `batch_001.json`,
 * `batch_002.json`, ... It returns how many batches it attempted to write.
 *
 * The directory listing, file reads and batch writes are parameters: the
 * listing is `None` when the input directory does not exist, `read` gives a
 * file's text or `None` when reading fails, and `writeOk` says whether the
 * write of a batch file of that name succeeds.
 */
module Batcher {
  import opened Wrappers
  import opened Text
  import opened Ordering
  import opened FilenameParser

  /** An element of `numbered_files`: the file number, the name, the index in the listing. */
  datatype Numbered = Numbered(number: int, filename: string, index: nat)

  /** A transcript record as it is written into a batch file. */
  datatype Record = Record(episodeNumber: int, title: string, transcript: string, filename: string)

  /** A batch file: its name and the records it holds. */
  datatype Batch = Batch(name: string, records: seq<Record>)

  /**
   * What a run does. `discovered` is `len(filenames)`, `order` is
   * `numbered_files` after the sort, `records` is `all_files`, `batches` are
   * the batch files whose writes were attempted, and `failedWrites` names
   * those whose write failed.
   */
  datatype Conversion =
    | InputDirMissing
    | Converted(discovered: nat, order: seq<Numbered>, records: seq<Record>, errorCount: nat,
                batches: seq<Batch>, failedWrites: seq<string>)

  /** `f.lower().endswith(".txt")`. */
  predicate IsTxtName(name: string)
  {
    EndsWith(Lower(name), ".txt")
  }

  /** `[f for f in listing if f.lower().endswith(".txt")]`. */
  function TxtNames(listing: seq<string>): (r: seq<string>)
    ensures |r| <= |listing|
    ensures forall n :: n in r <==> n in listing && IsTxtName(n)
  {
    if listing == [] then []
    else
      var last := listing[|listing| - 1];
      TxtNames(listing[..|listing| - 1]) + (if IsTxtName(last) then [last] else [])
  }

  /** The filter keeps a single name exactly when it ends in ".txt". */
  lemma TxtNamesOne(x: string)
    ensures TxtNames([x]) == if IsTxtName(x) then [x] else []
  {
    assert [x][..0] == [];
  }

  /** The filter keeps the listing's order: it distributes over concatenation. */
  lemma {:induction false} TxtNamesAppend(a: seq<string>, b: seq<string>)
    ensures TxtNames(a + b) == TxtNames(a) + TxtNames(b)
    decreases |b|
  {
    if b == [] {
      assert a + b == a;
    } else {
      var b' := b[..|b| - 1];
      var last := b[|b| - 1];
      assert (a + b)[..|a + b| - 1] == a + b';
      assert (a + b)[|a + b| - 1] == last;
      TxtNamesAppend(a, b');
      assert b == b' + [last];
    }
  }

  function NumberOf(e: Numbered): int
  {
    e.number
  }

  function IndexOf(e: Numbered): int
  {
    e.index
  }

  /** What the first loop builds: every name with its file number and its position. */
  function Numbering(names: seq<string>): seq<Numbered>
  {
    seq(|names|, i requires 0 <= i < |names| => Numbered(EpisodeNumber(names[i], Some(i)), names[i], i))
  }

  /** The number of an entry is the one its name and index give. */
  predicate WellNumbered(entries: seq<Numbered>)
  {
    forall e :: e in entries ==> e.number == EpisodeNumber(e.filename, Some(e.index))
  }

  /** The record made for an entry whose file reads as `text`. */
  function MakeRecord(e: Numbered, text: string): Record
  {
    var p := ExtractData(e.filename, Some(e.index));
    Record(p.number, p.title, text, e.filename)
  }

  /** `all_files` after the reading loop has handled `entries`. */
  function ReadRecords(entries: seq<Numbered>, read: string -> Option<string>): seq<Record>
  {
    if entries == [] then []
    else
      var e := entries[|entries| - 1];
      ReadRecords(entries[..|entries| - 1], read)
        + (match read(e.filename) case Some(text) => [MakeRecord(e, text)] case None => [])
  }

  /** `error_count` after the reading loop has handled `entries`. */
  function ReadErrors(entries: seq<Numbered>, read: string -> Option<string>): nat
  {
    if entries == [] then 0
    else
      var e := entries[|entries| - 1];
      ReadErrors(entries[..|entries| - 1], read) + (if read(e.filename).None? then 1 else 0)
  }

  /** `[s[i : i + size] for i in range(0, len(s), size)]`. */
  function Chunks<T>(s: seq<T>, size: nat): (r: seq<seq<T>>)
    requires size > 0
    ensures forall i :: 0 <= i < |r| ==> 0 < |r[i]| <= size
    decreases |s|
  {
    if s == [] then []
    else
      var n := if |s| < size then |s| else size;
      [s[..n]] + Chunks(s[n..], size)
  }

  function Flatten<T>(cs: seq<seq<T>>): seq<T>
  {
    if cs == [] then [] else cs[0] + Flatten(cs[1..])
  }

  /** `f"batch_{k:03d}.json"`. */
  function BatchName(k: nat): (r: string)
    ensures |r| >= 14 && r[..6] == "batch_" && r[|r| - 5..] == ".json"
  {
    "batch_" + ZeroPad(k, 3) + ".json"
  }

  /** The chunks with their names, counted from 1. */
  function Label(chunks: seq<seq<Record>>): (r: seq<Batch>)
    ensures |r| == |chunks|
  {
    if chunks == [] then []
    else Label(chunks[..|chunks| - 1]) + [Batch(BatchName(|chunks|), chunks[|chunks| - 1])]
  }

  /** The batch at position `m` holds chunk `m` and is named after `m + 1`. */
  lemma {:induction false} LabelAt(chunks: seq<seq<Record>>, m: nat)
    requires m < |chunks|
    ensures Label(chunks)[m] == Batch(BatchName(m + 1), chunks[m])
  {
    if m < |chunks| - 1 {
      LabelAt(chunks[..|chunks| - 1], m);
    }
  }

  /** The names of the first `count` batch files whose write fails, in order. */
  function FailedWrites(count: nat, writeOk: string -> bool): seq<string>
  {
    if count == 0 then []
    else FailedWrites(count - 1, writeOk) + (if writeOk(BatchName(count)) then [] else [BatchName(count)])
  }

  /** The whole run as one function of its inputs. */
  function Convert(listing: Option<seq<string>>, read: string -> Option<string>, writeOk: string -> bool,
                   batchSize: int): (r: Conversion)
    requires batchSize != 0
    ensures listing.None? <==> r.InputDirMissing?
    ensures r.Converted? ==> r.discovered == |TxtNames(listing.value)|
    ensures r.Converted? && batchSize < 0 ==> r.batches == [] && r.failedWrites == []
  {
    match listing
    case None => InputDirMissing
    case Some(all) =>
      var names := TxtNames(all);
      var order := SortBy(Numbering(names), NumberOf);
      var records := ReadRecords(order, read);
      // `range(0, n, size)` with a negative step is empty: nothing is written.
      var batches := if batchSize > 0 then Label(Chunks(records, batchSize)) else [];
      Converted(|names|, order, records, ReadErrors(order, read), batches, FailedWrites(|batches|, writeOk))
  }

  /**
   * `process_files`. Returns the number of batches it attempted to write (0
   * when the input directory is missing) and what the run did.
   */
  method ProcessFiles(listing: Option<seq<string>>, read: string -> Option<string>, writeOk: string -> bool,
                      batchSize: int)
    returns (batchCount: nat, conversion: Conversion)
    requires batchSize != 0
    ensures conversion == Convert(listing, read, writeOk, batchSize)
    ensures listing.None? <==> conversion.InputDirMissing?
    ensures listing.None? ==> batchCount == 0
    ensures conversion.Converted? ==>
              && conversion.discovered == |TxtNames(listing.value)|
              && |conversion.records| + conversion.errorCount == conversion.discovered
              && batchCount == |conversion.batches|
              && (batchSize > 0 ==> batchCount == CeilDiv(|conversion.records|, batchSize))
              && (batchSize > 0 ==> Flatten(BatchContents(conversion.batches)) == conversion.records)
              && (batchSize < 0 ==> batchCount == 0)
  {
    if listing.None? {
      return 0, InputDirMissing;
    }
    var filenames := TxtNames(listing.value);
    var numbered := NumberFiles(filenames);
    numbered := SortBy(numbered, NumberOf);
    var allFiles, errorCount := ReadFiles(numbered, read);
    var batches, failed := [], [];
    batchCount := 0;
    if batchSize > 0 {
      batchCount, batches, failed := WriteBatches(allFiles, writeOk, batchSize);
    }
    conversion := Converted(|filenames|, numbered, allFiles, errorCount, batches, failed);
  }

  /** The first loop of `process_files`: `numbered_files` before the sort. */
  method NumberFiles(filenames: seq<string>) returns (numbered: seq<Numbered>)
    ensures numbered == Numbering(filenames)
    ensures |numbered| == |filenames|
    ensures forall j :: 0 <= j < |numbered| ==> numbered[j].filename == filenames[j] && numbered[j].index == j
    ensures WellNumbered(numbered)
  {
    numbered := [];
    var i := 0;
    while i < |filenames|
      invariant 0 <= i <= |filenames|
      invariant numbered == Numbering(filenames)[..i]
    {
      var fileNumber := EpisodeNumber(filenames[i], Some(i));
      assert Numbering(filenames)[..i + 1] == Numbering(filenames)[..i] + [Numbered(fileNumber, filenames[i], i)];
      numbered := numbered + [Numbered(fileNumber, filenames[i], i)];
      i := i + 1;
    }
    assert Numbering(filenames)[..i] == Numbering(filenames);
  }

  /**
   * The reading loop of `process_files`: a record for every entry whose file
   * reads, in the order of `numbered`, and a count of the others.
   */
  method ReadFiles(numbered: seq<Numbered>, read: string -> Option<string>)
    returns (allFiles: seq<Record>, errorCount: nat)
    ensures allFiles == ReadRecords(numbered, read)
    ensures errorCount == ReadErrors(numbered, read)
    ensures |allFiles| + errorCount == |numbered|
  {
    allFiles := [];
    errorCount := 0;
    var j := 0;
    while j < |numbered|
      invariant 0 <= j <= |numbered|
      invariant allFiles == ReadRecords(numbered[..j], read)
      invariant errorCount == ReadErrors(numbered[..j], read)
    {
      var entry := numbered[j];
      var p := ExtractData(entry.filename, Some(entry.index));
      ReadStep(numbered, j, read);
      match read(entry.filename) {
        case Some(transcript) =>
          allFiles := allFiles + [Record(p.number, p.title, transcript, entry.filename)];
        case None =>
          errorCount := errorCount + 1;
      }
      j := j + 1;
    }
    assert numbered[..|numbered|] == numbered;
    ReadAccounting(numbered, read);
  }

  /**
   * The batching loop of `process_files`: one batch per slice
   * `all_files[k : k + batch_size]`, numbered from 1 before its write is
   * attempted, so the count does not depend on which writes fail.
   */
  method WriteBatches(allFiles: seq<Record>, writeOk: string -> bool, batchSize: nat)
    returns (batchCount: nat, batches: seq<Batch>, failed: seq<string>)
    requires batchSize > 0
    ensures batches == Label(Chunks(allFiles, batchSize))
    ensures failed == FailedWrites(batchCount, writeOk)
    ensures batchCount == |batches| == CeilDiv(|allFiles|, batchSize)
    ensures Flatten(BatchContents(batches)) == allFiles
  {
    batches := [];
    failed := [];
    ghost var done: seq<seq<Record>> := [];
    batchCount := 0;
    var k: nat := 0;
    while k < |allFiles|
      invariant k <= |allFiles|
      invariant done + Chunks(allFiles[k..], batchSize) == Chunks(allFiles, batchSize)
      invariant batchCount == |done|
      invariant batches == Label(done)
      invariant failed == FailedWrites(batchCount, writeOk)
      decreases |allFiles| - k
    {
      // `all_files[k : k + batch_size]`, clamped at the end of the list
      var hi := if k + batchSize < |allFiles| then k + batchSize else |allFiles|;
      var batchData := allFiles[k..hi];
      ChunkStep(done, allFiles, k, hi, batchSize);
      batchCount := batchCount + 1;
      var outputName := BatchName(batchCount);
      batches := batches + [Batch(outputName, batchData)];
      done := done + [batchData];
      failed := failed + (if writeOk(outputName) then [] else [outputName]);
      k := hi;
    }
    assert done == Chunks(allFiles, batchSize);
    LabelledChunks(allFiles, batchSize);
  }

  lemma LabelledChunks(s: seq<Record>, size: nat)
    requires size > 0
    ensures |Label(Chunks(s, size))| == CeilDiv(|s|, size)
    ensures Flatten(BatchContents(Label(Chunks(s, size)))) == s
  {
    ChunksLaw(s, size);
    LabelContents(Chunks(s, size));
  }

  /** The slice from `k` is the first chunk of what is left from `k` on. */
  lemma ChunkStep<T>(done: seq<seq<T>>, s: seq<T>, k: nat, hi: nat, size: nat)
    requires k < |s| && size > 0
    requires hi == if k + size < |s| then k + size else |s|
    requires done + Chunks(s[k..], size) == Chunks(s, size)
    ensures (done + [s[k..hi]]) + Chunks(s[hi..], size) == Chunks(s, size)
  {
    var d := s[k..];
    assert d[..hi - k] == s[k..hi];
    assert d[hi - k..] == s[hi..];
    assert Chunks(d, size) == [s[k..hi]] + Chunks(s[hi..], size);
  }

  /** The records of each batch, in order. */
  function BatchContents(batches: seq<Batch>): (r: seq<seq<Record>>)
    ensures |r| == |batches|
  {
    seq(|batches|, k requires 0 <= k < |batches| => batches[k].records)
  }

  lemma LabelContents(chunks: seq<seq<Record>>)
    ensures BatchContents(Label(chunks)) == chunks
  {
    var contents := BatchContents(Label(chunks));
    forall m | 0 <= m < |chunks|
      ensures contents[m] == chunks[m]
    {
      LabelAt(chunks, m);
    }
  }

  /** One more entry read: a record when the read succeeds, an error otherwise. */
  lemma ReadStep(entries: seq<Numbered>, j: nat, read: string -> Option<string>)
    requires j < |entries|
    ensures ReadRecords(entries[..j + 1], read)
              == ReadRecords(entries[..j], read)
                 + (match read(entries[j].filename) case Some(text) => [MakeRecord(entries[j], text)] case None => [])
    ensures ReadErrors(entries[..j + 1], read)
              == ReadErrors(entries[..j], read) + (if read(entries[j].filename).None? then 1 else 0)
  {
    assert entries[..j + 1][..j] == entries[..j];
  }

  /** Every sorted file is either read into a record or counted as an error. */
  lemma {:induction false} ReadAccounting(entries: seq<Numbered>, read: string -> Option<string>)
    ensures |ReadRecords(entries, read)| + ReadErrors(entries, read) == |entries|
  {
    if entries != [] {
      ReadAccounting(entries[..|entries| - 1], read);
    }
  }

  /**
   * The chunking law: the chunks concatenate back to `s`, none is empty, all
   * but the last hold exactly `size` elements, and their number `c` is the
   * ceiling of |s| / size, i.e. (c - 1) * size < |s| <= c * size.
   */
  lemma ChunksLaw<T>(s: seq<T>, size: nat)
    requires size > 0
    ensures Flatten(Chunks(s, size)) == s
    ensures forall c :: c in Chunks(s, size) ==> 0 < |c| <= size
    ensures forall k :: 0 <= k < |Chunks(s, size)| - 1 ==> |Chunks(s, size)[k]| == size
    ensures (|Chunks(s, size)| - 1) * size < |s| <= |Chunks(s, size)| * size
    ensures |Chunks(s, size)| == CeilDiv(|s|, size)
  {
    ChunksShape(s, size);
    ChunksCount(s, size);
    CeilingOfBounds(|Chunks(s, size)|, |s|, size);
  }

  lemma {:induction false} ChunksShape<T>(s: seq<T>, size: nat)
    requires size > 0
    ensures Flatten(Chunks(s, size)) == s
    ensures forall c :: c in Chunks(s, size) ==> 0 < |c| <= size
    ensures forall k :: 0 <= k < |Chunks(s, size)| - 1 ==> |Chunks(s, size)[k]| == size
  {
    if s != [] {
      var n := if |s| < size then |s| else size;
      var rest := Chunks(s[n..], size);
      ChunksShape(s[n..], size);
      assert Chunks(s, size) == [s[..n]] + rest;
      assert Chunks(s, size)[1..] == rest;
      assert s == s[..n] + s[n..];
      forall k | 0 < k < |Chunks(s, size)| - 1
        ensures |Chunks(s, size)[k]| == size
      {
        assert Chunks(s, size)[k] == rest[k - 1];
      }
    }
  }

  lemma {:induction false} ChunksCount<T>(s: seq<T>, size: nat)
    requires size > 0
    ensures (|Chunks(s, size)| - 1) * size < |s| <= |Chunks(s, size)| * size
  {
    if s != [] {
      var n := if |s| < size then |s| else size;
      var m := |Chunks(s[n..], size)|;
      ChunksCount(s[n..], size);
      assert |Chunks(s, size)| == m + 1;
      if n < size {
        assert s[n..] == [];
        OneChunk(|Chunks(s, size)|, |s|, size);
      } else {
        CountStep(|Chunks(s, size)|, m, |s|, |s[n..]|, size);
      }
    }
  }

  lemma OneChunk(c: int, len: int, d: int)
    requires c == 1 && 0 < len <= d
    ensures (c - 1) * d < len <= c * d
  {
  }

  /** One more full chunk in front adds one to the count. */
  lemma CountStep(c: int, m: int, len: int, rest: int, d: int)
    requires c == m + 1 && len == rest + d
    requires (m - 1) * d < rest <= m * d
    ensures (c - 1) * d < len <= c * d
  {
    assert c * d == m * d + d;
    assert (m - 1) * d == m * d - d;
  }

  /** The ceiling of n / d. */
  function CeilDiv(n: nat, d: nat): nat
    requires d > 0
  {
    (n + d - 1) / d
  }

  /** The number c with (c - 1) * d < n <= c * d is the ceiling of n / d. */
  lemma CeilingOfBounds(c: int, n: nat, d: nat)
    requires d > 0 && (c - 1) * d < n <= c * d
    ensures c == CeilDiv(n, d)
  {
    var q := (n + d - 1) / d;
    var r := (n + d - 1) % d;
    assert q * d + r == n + d - 1 && 0 <= r < d;
    if c < q {
      MulMonotone(c, q - 1, d);
    } else if c > q {
      MulMonotone(q + 1, c, d);
    }
  }

  lemma MulMonotone(a: int, b: int, d: int)
    requires a <= b && d >= 0
    ensures a * d <= b * d
  {
    assert b * d - a * d == (b - a) * d;
  }

  /**
   * The sorted numbering: non-decreasing in file number, a permutation of
   * the numbering of the listing, entries with equal numbers in listing
   * order, and every entry still carrying the number its name and index give.
   */
  lemma SortedNumbering(names: seq<string>)
    ensures var order := SortBy(Numbering(names), NumberOf);
            && SortedBy(order, NumberOf)
            && multiset(order) == multiset(Numbering(names))
            && RankedWithinKeys(order, NumberOf, IndexOf)
            && WellNumbered(order)
  {
    var numbering := Numbering(names);
    var order := SortBy(numbering, NumberOf);
    SortByKeepsRankOrder(numbering, NumberOf, IndexOf);
    forall e | e in order
      ensures e.number == EpisodeNumber(e.filename, Some(e.index))
    {
      assert e in multiset(numbering);
    }
  }

  /** Every record in `all_files` was made from an entry whose file could be read. */
  lemma {:induction false} RecordsSound(entries: seq<Numbered>, read: string -> Option<string>, r: Record)
    requires r in ReadRecords(entries, read)
    ensures exists e :: e in entries && MadeFrom(r, e, read)
  {
    var front := entries[..|entries| - 1];
    var last := entries[|entries| - 1];
    assert entries == front + [last];
    if r in ReadRecords(front, read) {
      RecordsSound(front, read, r);
      var e :| e in front && MadeFrom(r, e, read);
      assert e in entries;
    } else {
      assert MadeFrom(r, last, read);
    }
  }

  /** Every entry whose file could be read has its record in `all_files`. */
  lemma {:induction false} RecordsComplete(entries: seq<Numbered>, read: string -> Option<string>, e: Numbered)
    requires e in entries && read(e.filename).Some?
    ensures MakeRecord(e, read(e.filename).value) in ReadRecords(entries, read)
  {
    var front := entries[..|entries| - 1];
    var last := entries[|entries| - 1];
    assert entries == front + [last];
    if e != last {
      assert e in front;
      RecordsComplete(front, read, e);
    }
  }

  /** `r` is the record the reading loop makes for `e`. */
  predicate MadeFrom(r: Record, e: Numbered, read: string -> Option<string>)
  {
    read(e.filename).Some? && r == MakeRecord(e, read(e.filename).value)
  }

  /**
   * `all_files` keeps the sorted order: when the entries are sorted by number
   * and well numbered, the records are non-decreasing in episode number.
   */
  lemma {:induction false} RecordsInOrder(entries: seq<Numbered>, read: string -> Option<string>)
    requires SortedBy(entries, NumberOf) && WellNumbered(entries)
    ensures forall i, j :: 0 <= i < j < |ReadRecords(entries, read)| ==>
              ReadRecords(entries, read)[i].episodeNumber <= ReadRecords(entries, read)[j].episodeNumber
  {
    if entries != [] {
      var front := entries[..|entries| - 1];
      var last := entries[|entries| - 1];
      assert SortedBy(front, NumberOf) && WellNumbered(front);
      RecordsInOrder(front, read);
      var before := ReadRecords(front, read);
      match read(last.filename)
      case None =>
        assert ReadRecords(entries, read) == before;
      case Some(text) =>
        var rec := MakeRecord(last, text);
        assert ReadRecords(entries, read) == before + [rec];
        assert rec.episodeNumber == last.number by {
          assert last in entries;
        }
        forall i | 0 <= i < |before|
          ensures before[i].episodeNumber <= rec.episodeNumber
        {
          RecordBeforeLast(entries, read, before[i]);
        }
        InOrderSnoc(before, rec);
    }
  }

  /** A record read before the last entry has a number no larger than the last entry's. */
  lemma RecordBeforeLast(entries: seq<Numbered>, read: string -> Option<string>, r: Record)
    requires entries != [] && SortedBy(entries, NumberOf) && WellNumbered(entries)
    requires r in ReadRecords(entries[..|entries| - 1], read)
    ensures r.episodeNumber <= entries[|entries| - 1].number
  {
    var front := entries[..|entries| - 1];
    RecordsSound(front, read, r);
    var e :| e in front && MadeFrom(r, e, read);
    var m :| 0 <= m < |front| && front[m] == e;
    assert entries[m] == e;
    assert e in entries;
  }

  lemma InOrderSnoc(before: seq<Record>, rec: Record)
    requires forall i, j :: 0 <= i < j < |before| ==> before[i].episodeNumber <= before[j].episodeNumber
    requires forall i :: 0 <= i < |before| ==> before[i].episodeNumber <= rec.episodeNumber
    ensures forall i, j :: 0 <= i < j < |before + [rec]| ==>
              (before + [rec])[i].episodeNumber <= (before + [rec])[j].episodeNumber
  {
    var all := before + [rec];
    forall i, j | 0 <= i < j < |all|
      ensures all[i].episodeNumber <= all[j].episodeNumber
    {
      assert all[i] == before[i];
      if j < |before| {
        assert all[j] == before[j];
      }
    }
  }

  /** A batch name is `batch_`, then the counter in at least three digits, then `.json`. */
  lemma BatchNameDigits(k: nat)
    ensures var name := BatchName(k);
            && |name| >= 14
            && name[..6] == "batch_"
            && name[|name| - 5..] == ".json"
            && AllDigits(name[6..|name| - 5])
            && DecimalValue(name[6..|name| - 5]) == k
            && |name[6..|name| - 5]| == if |Decimal(k)| < 3 then 3 else |Decimal(k)|
  {
    var digits := ZeroPad(k, 3);
    var name := BatchName(k);
    assert name == "batch_" + digits + ".json";
    assert name[6..|name| - 5] == digits;
  }

  /** Different counters give different batch names. */
  lemma BatchNameInjective(a: nat, b: nat)
    requires BatchName(a) == BatchName(b)
    ensures a == b
  {
    BatchNameDigits(a);
    BatchNameDigits(b);
  }

  lemma BatchNameExamples()
    ensures BatchName(1) == "batch_001.json"
    ensures BatchName(42) == "batch_042.json"
    ensures BatchName(1000) == "batch_1000.json"
  {
    BatchNameOfOne();
    BatchNameOfTwoDigits();
    BatchNameOfFourDigits();
  }

  lemma BatchNameOfOne()
    ensures BatchName(1) == "batch_001.json"
  {
    assert Decimal(1) == "1";
  }

  lemma BatchNameOfTwoDigits()
    ensures BatchName(42) == "batch_042.json"
  {
    assert Decimal(42) == "42";
  }

  lemma BatchNameOfFourDigits()
    ensures BatchName(1000) == "batch_1000.json"
  {
    assert Decimal(1000) == "1000";
  }

  /**
   * A name is reported as a failed write exactly when it is the name of one
   * of the first `count` batches and its write fails.
   */
  lemma {:induction false} FailedWritesAre(count: nat, writeOk: string -> bool, name: string)
    ensures name in FailedWrites(count, writeOk)
            <==> exists k :: 1 <= k <= count && name == BatchName(k) && !writeOk(name)
  {
    if count > 0 {
      FailedWritesAre(count - 1, writeOk, name);
      var newest := BatchName(count);
      var tail := if writeOk(newest) then [] else [newest];
      assert FailedWrites(count, writeOk) == FailedWrites(count - 1, writeOk) + tail;
      if exists k :: 1 <= k <= count && name == BatchName(k) && !writeOk(name) {
        var k :| 1 <= k <= count && name == BatchName(k) && !writeOk(name);
        if k == count {
          assert name in tail;
        }
      }
    }
  }
}
