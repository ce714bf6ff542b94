# Transcript batches: a Dafny model

This project models two small command-line tools that handle podcast transcripts.

- **The converter** (`process_files` in `utils/txt_to_batches.py`) works in these steps:
  - It lists the `.txt` transcripts of a directory.
  - It numbers each transcript from its file name, using `extract_data_from_filename`.
  - It sorts them stably by that number.
  - It reads each file, counting the ones it cannot read.
  - It cuts the records it did read into consecutive batches of `batch_size`.
  - It writes each batch as `batch_NNN.json`.
- **The verifier** (`verify_batches` in `utils/verify_batches.py`) works in these steps:
  - It loads the `.json` batch files in name order.
  - It collects the `(episode_number, title, filename)` triple of every entry.
  - It sorts the triples stably by number.
  - It counts duplicated numbers and lists them.
  - It computes the numbers missing between the smallest and the largest.
  - It picks the first and last five triples for display.

The model is organised in these modules:

| module | file | what it holds |
|---|---|---|
| `Wrappers` | `wrappers.dfy` | `Option` |
| `Text` | `text.dfy` | String primitives the tools rely on: `\d` and `\s` runs, `str.strip`, `int()`, `f"{n:03d}"`, `str.lower` and Python's string order |
| `Ordering` | `ordering.dfy` | `list.sort(key=...)` as a stable insertion sort, and `sorted()` on strings |
| `FilenameParser` | `filename_parser.dfy` | `extract_data_from_filename`, as pure functions |
| `Batcher` | `batcher.dfy` | `process_files` |
| `Verifier` | `verifier.dfy` | `verify_batches` |

`Batcher` and `Verifier` follow the source's loops. Each is a method with loops, and each loop is proved against a specification function of its inputs:
- `Batcher.Convert` for the converter;
- `Verifier.Verify` for the verifier.

The properties the tools promise are then proved as lemmas about those functions.

The outside world enters the model as parameters:
- A directory listing is a sequence of names. For the converter it is `None` when the directory is missing.
- Reading a transcript is a function from a name to `Some(text)`, or to `None` when the read fails.
- Writing a batch is a function from the batch name to success or failure.
- Loading a batch file is a function from a name to either:
  - `Unreadable`, when the file cannot be opened or parsed;
  - its list of entries, where `Malformed` marks an entry that lacks one of the three keys.

Two consequences of the code are worth stating:
- **Order of the duplicate list.** The list is ascending. The counting dictionary is filled from `file_nums`, which comes from the already sorted triples (`utils/verify_batches.py:50-61`). `Verifier.DuplicateList` proves this.
- **Missing batch directory.** A missing batch directory makes `os.listdir` raise, and nothing catches it (`utils/verify_batches.py:22`). The verifier therefore takes its listing as an input.

## Model

| member | source | states |
|---|---|---|
| Text.LeadingDigits | utils/txt_to_batches.py:24 | The greedy `\d+` run at the start of a name: every character in it is a digit, and the next one is not |
| Text.LeadingDigitsOf | utils/txt_to_batches.py:24 | A digit run followed by a non-digit is exactly the run the regex takes |
| Text.LeadingSpaces | utils/txt_to_batches.py:28 | The greedy `\s*` run: all whitespace, and the next character is not whitespace |
| Text.LeadingSpacesOf | utils/txt_to_batches.py:28 | A whitespace run followed by a non-space is exactly the run `\s*` takes |
| Text.TrimEndSpaces | utils/txt_to_batches.py:30 | The trailing whitespace run that strip drops: all whitespace, and the character before it is not |
| Text.TrimEndOf | utils/txt_to_batches.py:30 | Those two properties determine where the trailing run starts |
| Text.Strip | utils/txt_to_batches.py:30 | `str.strip()`: the result is no longer than the input and neither starts nor ends with whitespace (that it is the input minus a whitespace prefix and suffix is StripShape) |
| Text.StripShape | utils/txt_to_batches.py:30 | `str.strip()`: the result neither starts nor ends with whitespace, and it is `s` minus an all-whitespace prefix and suffix |
| Text.StripAfterSpaces | utils/txt_to_batches.py:30 | Whitespace in front of a string does not change what strip gives |
| Text.DecimalValueLeadingZero | utils/txt_to_batches.py:25 | `int()` ignores a leading zero |
| Text.Decimal | utils/txt_to_batches.py:77 | `str(n)`: a non-empty digit string without a leading zero whose value is `n` |
| Text.DecimalValueAfterZeros | utils/txt_to_batches.py:77 | Zero padding does not change the value of a numeral |
| Text.ZeroPad | utils/txt_to_batches.py:77 | `f"{n:03d}"`: digits whose value is `n`, and the length is the larger of the width and the length of `str(n)` |
| Text.Lower | utils/txt_to_batches.py:39 | `str.lower()` keeps the length and lower-cases each character on its own |
| Text.LexLeTotal | utils/verify_batches.py:22 | Python's string order compares any two names |
| Ordering.InsertBySorted | utils/txt_to_batches.py:49 | One insertion step of the stable sort keeps a sorted list sorted |
| Ordering.SortBy | utils/txt_to_batches.py:49 | `list.sort(key=)`: the result is sorted by the key and is a permutation of the input |
| Ordering.InsertByKeepsClasses | utils/txt_to_batches.py:49 | An insertion keeps the relative order of the elements with any given key |
| Ordering.SortByIsStable | utils/txt_to_batches.py:49 | Stability: for every key, the sort keeps the elements with that key in their original order |
| Ordering.InsertByRanked | utils/txt_to_batches.py:49 | Inserting an element that ranks before all others keeps equal keys in rank order |
| Ordering.SortByKeepsRankOrder | utils/txt_to_batches.py:49 | When the input is in increasing rank, equal keys come out in increasing rank |
| Ordering.InsertName | utils/verify_batches.py:22 | One insertion step of `sorted()`: the names plus the new one, as a multiset |
| Ordering.InsertNameSorted | utils/verify_batches.py:22 | An insertion step keeps sorted names sorted |
| Ordering.SortNames | utils/verify_batches.py:22 | `sorted()` on names: in Python's string order, and a permutation of the input |
| FilenameParser.NumberPrefix | utils/txt_to_batches.py:24-25 | `re.match(r"(\d+)-", filename)` matches exactly when the name starts with one or more digits followed by `-` (the value read is in NumberOfDigitPrefix) |
| FilenameParser.Truncated | utils/txt_to_batches.py:27 | `filename[:-4]`: the name without its last four characters, or empty when the name is shorter than four |
| FilenameParser.Line | utils/txt_to_batches.py:28 | The `(.*)` group: the longest prefix without a line feed |
| FilenameParser.AfterSpaces | utils/txt_to_batches.py:28 | `\s*` leaves a suffix of the input whose dropped front is all whitespace and which does not start with whitespace: exactly the longest whitespace run is consumed |
| FilenameParser.DashTitle | utils/txt_to_batches.py:28 | The `\s*-\s*(.*)` tail: a captured group holds no line feed and does not start with whitespace (when it matches: DashTitleMatches) |
| FilenameParser.HashTitle | utils/txt_to_batches.py:28 | The title pattern: a captured group holds no line feed and does not start with whitespace (when it matches: HashTitleMatches) |
| FilenameParser.HashTitleNeedsMarker | utils/txt_to_batches.py:28-30 | The title pattern matches only behind a `<digits>-#` marker |
| FilenameParser.EpisodeNumber | utils/txt_to_batches.py:24-25 | A name without a `<digits>-` prefix gets the index, or 0 when there is none; a prefixed name gets a number that is never negative |
| FilenameParser.ExtractData | utils/txt_to_batches.py:23-32 | `extract_data_from_filename`: a name with a `<digits>-` prefix gets the prefix's value as its number, any other name gets the index or 0; a name whose truncated form lacks the `<digits>-#` marker keeps that form as its title (marked names: TitleOfHashPattern, TitleUnmatched) |
| FilenameParser.Title | utils/txt_to_batches.py:27-30 | A name whose truncated form lacks the marker keeps the name minus its last four characters as its title (names with the marker: TitleUnmatched, TitleOfHashPattern) |
| FilenameParser.NumberOfDigitPrefix | utils/txt_to_batches.py:24-25 | A name starting with digits and `-` has their decimal value as its number, whatever the index |
| FilenameParser.LineWithoutNewline | utils/txt_to_batches.py:28 | `(.*)` takes all of a string that has no line feed |
| FilenameParser.AfterDigitRunOf | utils/txt_to_batches.py:28 | `\d+` consumes exactly a maximal digit run |
| FilenameParser.AfterSpacesOf | utils/txt_to_batches.py:28 | Whitespace put in front of a string is all consumed by `\s*`: the result is what `\s*` leaves of the string itself |
| FilenameParser.DashTitleOfPattern | utils/txt_to_batches.py:28 | On `<spaces>-<spaces><rest>` the tail pattern captures `rest` without its leading whitespace, up to a line feed |
| FilenameParser.HashTitleOfPattern | utils/txt_to_batches.py:28 | The title pattern on `<digits>-#<digits><spaces>-<spaces><rest>` captures what the tail pattern captures on `rest` |
| FilenameParser.DashTitleCapture | utils/txt_to_batches.py:28 | On any string of the shape `<spaces>-<rest>` the tail pattern matches and captures `rest` after its leading whitespace, up to a line feed |
| FilenameParser.DashTitleMatches | utils/txt_to_batches.py:28 | The tail pattern matches a string if and only if the string has the shape `<spaces>-<rest>` |
| FilenameParser.HashTitleCapture | utils/txt_to_batches.py:28 | On any string of the shape `<digits>-#<digits><spaces>-<rest>` the title pattern matches and captures `rest` after its leading whitespace, up to a line feed |
| FilenameParser.HashTitleMatches | utils/txt_to_batches.py:28 | The title pattern matches a string if and only if the string has the shape `<digits>-#<digits><spaces>-<rest>` (non-empty digit runs) |
| FilenameParser.HashShapeOfMatch | utils/txt_to_batches.py:28 | A string the title pattern matches has that shape |
| FilenameParser.HashTitleStages | utils/txt_to_batches.py:28 | On a match, the title pattern has consumed a digit run, `-#` and a second digit run before handing the rest to the tail pattern |
| FilenameParser.HashShapeOfStages | utils/txt_to_batches.py:28 | The consumed stages reassemble into the shape `<digits>-#<digits><spaces>-<rest>` |
| FilenameParser.TitleUnmatched | utils/txt_to_batches.py:27-30 | A name whose truncated form does not have the title pattern's shape keeps the truncated form as its title, marker or not |
| FilenameParser.TitleOfHashPattern | utils/txt_to_batches.py:27-30 | For `<digits>-#<digits><spaces>-<spaces><rest>` plus a four-character extension, the title is `rest` stripped, when `rest` has no line feed |
| FilenameParser.StripOfTrimmed | utils/txt_to_batches.py:30 | A string without surrounding whitespace strips to itself |
| FilenameParser.HashMarkedName | utils/txt_to_batches.py:23-32 | `"<d>-#<d> - <word>.txt"` parses to the digit's value and the word, whatever the index |
| FilenameParser.IntroExample | utils/txt_to_batches.py:23-32 | `"1-#1 - Intro.txt"` gives `(1, "Intro")` and `"2-#2 - Second.txt"` gives `(2, "Second")` |
| Batcher.TxtNames | utils/txt_to_batches.py:39 | The names kept are exactly the listed names whose lower-cased form ends in `.txt` |
| Batcher.TxtNamesOne | utils/txt_to_batches.py:39 | A single name is kept exactly when it ends in `.txt` after lower-casing |
| Batcher.TxtNamesAppend | utils/txt_to_batches.py:39 | The filter distributes over concatenation, so the kept names keep the listing's order and multiplicity |
| Batcher.Convert | utils/txt_to_batches.py:35-88 | The run as a function of its inputs: it stops at once exactly when the input directory is missing; otherwise it discovers every `.txt` name, and a negative batch size writes nothing |
| Batcher.ProcessFiles | utils/txt_to_batches.py:35-88 | The run equals `Convert`. A missing directory returns 0 with nothing done. `len(all_files) + error_count == len(filenames)`. The returned count is `ceil(N/B)`, or 0 for a negative batch size. The batches concatenate to `all_files` |
| Batcher.NumberFiles | utils/txt_to_batches.py:44-47 | Each name gets its listing index and the number its name and index give |
| Batcher.SortedNumbering | utils/txt_to_batches.py:44-49 | `numbered_files` after the sort is non-decreasing in number and a permutation of the numbering. Equal numbers stay in listing order, and every entry keeps the number its name and index give |
| Batcher.ReadFiles | utils/txt_to_batches.py:51-71 | The reading loop yields `ReadRecords` and `ReadErrors`, and every entry is counted once |
| Batcher.ReadStep | utils/txt_to_batches.py:57-71 | One read adds a record when it succeeds and one error otherwise |
| Batcher.ReadAccounting | utils/txt_to_batches.py:51-71 | Every sorted file is either a record or an error |
| Batcher.RecordsSound | utils/txt_to_batches.py:57-67 | Every record in `all_files` was made from an entry whose file could be read |
| Batcher.RecordsComplete | utils/txt_to_batches.py:57-67 | Every entry whose file could be read has its record in `all_files` |
| Batcher.RecordsInOrder | utils/txt_to_batches.py:49-67 | `all_files` keeps the sorted order: its episode numbers are non-decreasing |
| Batcher.WriteBatches | utils/txt_to_batches.py:73-84 | Batches are the chunks named `batch_001`, `batch_002`, and so on. Failed writes are reported in order. The count is `ceil(N/B)` whatever fails, and the contents concatenate to `all_files` |
| Batcher.Chunks | utils/txt_to_batches.py:74-75 | The slices `all_files[i:i+B]` for `i` in `range(0, N, B)`: each is non-empty and holds at most B records (concatenation and count are in ChunksLaw) |
| Batcher.BatchName | utils/txt_to_batches.py:77 | `f"batch_{k:03d}.json"` starts with `batch_` and ends with `.json` (the digits in between are in BatchNameDigits) |
| Batcher.Label | utils/txt_to_batches.py:76-77 | Naming the chunks gives one batch per chunk |
| Batcher.LabelAt | utils/txt_to_batches.py:76-77 | Batch `m` holds chunk `m` and is named after counter `m + 1` |
| Batcher.LabelContents | utils/txt_to_batches.py:74-77 | The batches hold exactly the chunks, in order |
| Batcher.LabelledChunks | utils/txt_to_batches.py:74-77 | There are `ceil(N/B)` batches, and their contents concatenate back to `all_files` |
| Batcher.ChunkStep | utils/txt_to_batches.py:74-75 | The slice `all_files[i:i+B]` is the next chunk of the range loop |
| Batcher.ChunksLaw | utils/txt_to_batches.py:74-75 | The chunks concatenate to the input and none is empty. All but the last hold exactly B. Their number `c` satisfies `(c-1)*B < N <= c*B` and is `ceil(N/B)` |
| Batcher.ChunksShape | utils/txt_to_batches.py:74-75 | The chunks concatenate to the input, each holds between 1 and B elements, and all but the last hold exactly B |
| Batcher.ChunksCount | utils/txt_to_batches.py:74-75 | The number of chunks `c` satisfies `(c-1)*B < N <= c*B` |
| Batcher.BatchNameDigits | utils/txt_to_batches.py:77 | A batch name is `batch_`, then digits that read back as the counter and are at least three long, then `.json` |
| Batcher.BatchNameInjective | utils/txt_to_batches.py:77 | Different counters give different batch names |
| Batcher.BatchNameExamples | utils/txt_to_batches.py:77 | Counters 1, 42 and 1000 give `batch_001.json`, `batch_042.json` and `batch_1000.json` |
| Batcher.FailedWritesAre | utils/txt_to_batches.py:79-83 | A name is reported as a failed write exactly when it names one of the written batches and its write fails |
| Verifier.JsonNames | utils/verify_batches.py:22 | The names kept are exactly the listed names ending in `.json`, case-sensitively |
| Verifier.JsonNamesOne | utils/verify_batches.py:22 | A single name is kept exactly when it ends in `.json`, case-sensitively |
| Verifier.JsonNamesAppend | utils/verify_batches.py:22 | The filter distributes over concatenation, so the kept names keep the listing's order and multiplicity and each `.json` file is loaded once |
| Verifier.Verify | utils/verify_batches.py:20-84 | The run as a function of its inputs: it stops early exactly when no name ends in `.json`; otherwise the batch files are those names rearranged into name order, none added or dropped |
| Verifier.NoReport | utils/verify_batches.py:22-26 | The run stops before loading exactly when no name ends in `.json` |
| Verifier.VerifyBatches | utils/verify_batches.py:20-84 | The report is `Verify(listing, load)` |
| Verifier.VerifyReport | utils/verify_batches.py:20-54 | The batch files are the `.json` names in name order. `total` counts the collected triples. The triples shown are those collected, sorted by number, and the triples sharing a number keep the order in which they were collected (the sort is stable) |
| Verifier.SortedReport | utils/verify_batches.py:50-76 | On sorted triples: the duplicate count is 0 exactly when no number repeats, and the list is present exactly when the count is not 0. The gap report is present exactly when there are triples, and runs from the first number to the last |
| Verifier.CollectEntries | utils/verify_batches.py:30-45 | The loading loops give `Aggregate` (the triples, in file order) and `FailedLoads` (the files reported as unreadable) |
| Verifier.AppendEntries | utils/verify_batches.py:36-43 | A file's entries are appended up to the first malformed one, which is reported |
| Verifier.LeadingEntries | utils/verify_batches.py:36-43 | The number of entries before the first malformed one |
| Verifier.CollectStep | utils/verify_batches.py:30-45 | Handling one more batch file appends what it contributes, and reports it when its handling raised |
| Verifier.EntriesStep | utils/verify_batches.py:36-43 | A well-formed entry appends its triple |
| Verifier.PartialFileKept | utils/verify_batches.py:36-45 | A malformed entry at position `k` keeps the `k` triples before it, and the file is reported |
| Verifier.Summarise | utils/verify_batches.py:47-84 | The part after loading equals `Summary` |
| Verifier.ReportSorted | utils/verify_batches.py:52-84 | Once the triples are sorted, the report equals `SortedSummary` |
| Verifier.ReportDuplicates | utils/verify_batches.py:52-61 | The duplicate count is `len(file_nums) - len(set(file_nums))`, and the list is built only when that is positive |
| Verifier.NumberSetSize | utils/verify_batches.py:52-54 | The duplicate count is never negative, and it is 0 exactly when the numbers are distinct |
| Verifier.CountNumbers | utils/verify_batches.py:58-60 | The counting loop yields each number's number of occurrences, with keys in first-seen order |
| Verifier.CountsStep | utils/verify_batches.py:59-60 | `dup_dict[num] = dup_dict.get(num, 0) + 1` adds one occurrence of `num` |
| Verifier.FirstOccurrences | utils/verify_batches.py:58-60 | The dictionary's key order holds each number once, and only numbers that occur |
| Verifier.RepeatedFilter | utils/verify_batches.py:61 | The comprehension keeps exactly the keys whose count exceeds one |
| Verifier.RepeatedDistinct | utils/verify_batches.py:61 | The comprehension keeps a repeat-free key list free of repeats |
| Verifier.RepeatedIncreasing | utils/verify_batches.py:61 | The comprehension keeps an increasing key list increasing |
| Verifier.FirstOccurrencesIncreasing | utils/verify_batches.py:50-60 | For sorted numbers the keys are inserted in strictly increasing order |
| Verifier.DistinctCounts | utils/verify_batches.py:53-60 | The numbers are distinct exactly when every count is at most one |
| Verifier.DuplicateList | utils/verify_batches.py:56-61 | The duplicate list holds exactly the numbers occurring more than once, each once, and is ascending because `file_nums` is sorted |
| Verifier.DuplicatesListed | utils/verify_batches.py:54-61 | The duplicate count is positive exactly when the duplicate list is not empty |
| Verifier.SeqMin | utils/verify_batches.py:64 | `min`: an element no larger than any other |
| Verifier.SeqMax | utils/verify_batches.py:65 | `max`: an element no smaller than any other |
| Verifier.Interval | utils/verify_batches.py:66 | `set(range(lo, hi + 1))` holds exactly `lo..hi`, and it has `hi - lo + 1` elements |
| Verifier.MissingList | utils/verify_batches.py:74 | `sorted(list(missing))` holds exactly the missing numbers, in strictly increasing order |
| Verifier.GapOf | utils/verify_batches.py:63-74 | `min_file` and `max_file` are numbers that occur, and every number lies between them; the missing list is printed exactly when 1 to 49 numbers are missing |
| Verifier.GapSet | utils/verify_batches.py:63-67 | The minimum and maximum are never missing. A number is missing exactly when it lies between them and is absent. `len(missing) == (max - min + 1) - len(set(file_nums))` |
| Verifier.GapListed | utils/verify_batches.py:69-74 | The explicit list is printed exactly when 1 to 49 numbers are missing, and it lists each missing number once, ascending |
| Verifier.NothingMissing | utils/verify_batches.py:69-76 | The success message (nothing missing) is printed exactly when every number of `min..max` occurs |
| Verifier.SortedEnds | utils/verify_batches.py:50-65 | For sorted numbers, `min` is the first and `max` the last |
| Verifier.Windows | utils/verify_batches.py:78-84 | Each window holds `min(5, n)` triples: the first is a prefix and the last a suffix. They overlap exactly when `0 < n < 10`, and for `n <= 5` both are the whole list |

## Left out

- Input and output, which become parameters:
  - directory listing and creation: `os.listdir` and `os.makedirs`;
  - file reading and writing;
  - JSON encoding and decoding, including `indent=2` and `ensure_ascii=False`;
  - `argparse` and `main`.
- The text of the `print` messages. The report records which branch is taken and the values it prints.
- FilenameParser.EpisodeNumber: `\d` is modelled as the ASCII digits only. Python's `re` also accepts other Unicode decimal digits, and `int()` accepts them too.
- Text.Lower: only ASCII letters are lower-cased. Python's `str.lower` also lowers other Unicode letters and can change the length of a string.
- Text.LexLeTotal: names are compared code point by code point, which is what Python does for `str`. No locale or normalisation is involved.
- Batcher.ProcessFiles: requires a non-zero batch size. Python's `range` raises `ValueError` for step 0, and the model does not follow that exception. A negative batch size is modelled: the range is empty and nothing is written.
- Verifier.CollectEntries: a batch file whose JSON is not a list of objects is modelled as `Unreadable` or as a malformed entry. Values that are not integers are out of scope, because the model's episode numbers are integers; this includes mixed types that Python's sort would reject.
- Verifier.CountNumbers: the dictionary is modelled as a map plus the sequence of its keys in insertion order.
- Verifier.VerifyBatches: a missing batch directory raises in the source and is not modelled. The listing is an input.
- Ordering.SortBy: Python's sort algorithm (Timsort) is modelled by a stable insertion sort. The model proves that the result is sorted, a permutation and stable, and those three properties fix the result.
