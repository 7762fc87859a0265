# allen_deduper in Dafny

A model of `allen_deduper.py`, a script that removes PCR duplicates from a
chromosome-sorted SAM file. Each alignment line is reduced to its UMI (the
text after the last `:` of the read name), chromosome, strand (bit 0x10 of
FLAG) and a 5'-adjusted position computed from the CIGAR string. Lines
sharing the key (UMI, adjusted position, strand) on one chromosome are PCR
duplicates. When the chromosome changes, and again at the end of the file,
the script writes the first line of every key whose UMI is in the allow-list.
It counts each key whose UMI is not allow-listed once. Header lines (`@…`)
are copied as they come.

Modules:

- `Wrappers`: `Option` and `Result`; the Python exceptions the script can
  raise (`IndexError`, `ValueError`, `KeyError`) are `Err` values.
- `Text`: `str.split` on one separator character, and `int()` on the
  decimal fields of a SAM line, including the ASCII whitespace `int()`
  skips around a number. The script's own `.strip()` calls are not modelled
  (see "## Left out").
- `RevComp`: `rev_comp`, as a reference function and as the loop-based method.
- `SamRecord`: `extract_SAM_info`.
- `Cigar`: the two `re.findall` token lists and `pos_adj`, as a
  specification function and as the tallying method, with the per-strand
  formulas proved over CIGAR operations.
- `Groups`: the insertion-ordered `chr_dict`, `filter_pcr_dupes`, and a
  reference definition of what one chromosome run keeps (the first line of
  each allow-listed key).
- `Deduper`: the main loop. `Pass` folds a step function over the lines and
  stops at the first exception. `Deduplicate` is the imperative loop, with
  `chr_dict`, `firstchr`, `current_chr` and the running total, and is proved
  equal to `Pass`.
- `PassProperties`: what the pass guarantees. It completes exactly when no
  line raises. Chromosome runs are filtered independently. Headers reach the
  output unchanged.

The pass returns `Completed(output, wrongUmis)` or `Failed(written, error)`.
Because the output file is closed by `with`, the lines written before an
exception stay in the file.

Two behaviours of the code are kept as written:

- The first alignment line is filed twice: once by the `firstchr == True`
  branch and again by the `firstchr == False` branch that follows it in the
  same iteration. `Groups.DoubledHead` shows this does not change the output
  or the count.
- On a chromosome change, the old run is filtered and written before
  `pos_adj` runs on the new line. So when `pos_adj` raises on that line, the
  previous run is already in the output (`Deduper.Step`).

## Model

| member | source | states |
|---|---|---|
| RevComp.Complement | allen_deduper.py:16 | the base dictionary maps exactly A, C, G and T, each to a different base |
| RevComp.ReverseComplement | allen_deduper.py:14-21 | succeeds exactly when every character is A, C, G or T, and otherwise raises KeyError; the result has the input's length and is again made of bases |
| RevComp.RevComp | allen_deduper.py:14-21 | the loop over the reversed sequence returns the reference reverse complement, or KeyError |
| RevComp.ReverseComplementAt | allen_deduper.py:18-20 | position k of the result is the complement of position n-1-k of the input |
| RevComp.ReverseComplementAppend | allen_deduper.py:18-21 | the reverse complement of a + b is that of b followed by that of a |
| RevComp.ReverseComplementInvolution | allen_deduper.py:14-21 | reverse-complementing twice gives back any sequence of bases |
| Text.Split | allen_deduper.py:29 | `str.split(sep)` gives at least one part, and no part contains the separator |
| Text.JoinSplit | allen_deduper.py:29 | joining the parts of a split with the separator rebuilds the string |
| Text.SplitJoin | allen_deduper.py:29 | splitting separator-free parts joined by the separator gives the parts back |
| Text.SplitLast | allen_deduper.py:35-36 | the last part of a split is a suffix of the string; it is all of it when there is one part, and otherwise it is preceded by the separator |
| Text.Strip | allen_deduper.py:39 | the result is a contiguous slice of the field; everything cut off before or after it is whitespace `int()` ignores, and the slice neither starts nor ends with such whitespace |
| Text.StripLeft | allen_deduper.py:39 | leading whitespace is dropped: the result is a suffix whose first character is not whitespace, and every dropped character is whitespace |
| Text.StripRight | allen_deduper.py:39 | trailing whitespace is dropped: the result is a prefix whose last character is not whitespace, and every dropped character is whitespace |
| Text.ParseInt | allen_deduper.py:39 | `int()` on a field either gives a number or raises ValueError |
| Text.ParseIntOfShow | allen_deduper.py:39 | `int()` reads back the decimal text of every natural number |
| Text.ParseIntOfShowNegative | allen_deduper.py:43 | `int()` reads back a minus sign followed by the decimal text of a number as that negative number |
| Text.ParseIntOfForeignLead | allen_deduper.py:39 | a field starting with anything other than whitespace `int()` skips, a sign or a digit makes `int()` raise ValueError |
| Text.ParseIntOfSeparatorPadded | allen_deduper.py:39 | `int()` raises ValueError on a digit preceded by U+001C, which `str.isspace()` accepts but `int()` does not skip |
| Text.ParseIntNeedsADigit | allen_deduper.py:39 | a field without a digit makes `int()` raise ValueError |
| SamRecord.StrandOf | allen_deduper.py:43-47 | the strand is minus exactly when the FLAG value modulo 32 is at least 16, i.e. bit 0x10 is set |
| SamRecord.StrandOfBit | allen_deduper.py:43-47 | the strand is minus exactly when bit 0x10 of FLAG is set, whatever the other bits and the sign |
| SamRecord.UmiOf | allen_deduper.py:34-36 | the UMI is colon-free, is a suffix of the read name, and is either the whole name or is preceded by a colon |
| SamRecord.UmiOfSuffix | allen_deduper.py:34-36 | a colon-free tail written after the read name's last colon is exactly the UMI extracted |
| SamRecord.ExtractSamInfo | allen_deduper.py:23-52 | extraction succeeds exactly when there are at least six tab fields and POS and FLAG are integers; the error is IndexError or ValueError in the order the fields are read; on success the fields are RNAME, POS, CIGAR, the FLAG strand and the read-name UMI |
| SamRecord.ExtractFromFields | allen_deduper.py:23-52 | extraction recovers the UMI, chromosome, position, CIGAR and strand from a line assembled out of them |
| SamRecord.ShortLineRejected | allen_deduper.py:29-41 | a line with fewer than six tab fields always raises |
| Cigar.Numbers | allen_deduper.py:62-69 | the number list has at most one number per character of the CIGAR; `Cigar.NumbersOfRender` gives its contents |
| Cigar.Letters | allen_deduper.py:63-68 | the letter list holds only upper-case letters and is no longer than the CIGAR |
| Cigar.DigitRunLength | allen_deduper.py:62 | a `\d+` match is the maximal run of digits, and it is non-empty when the text starts with a digit |
| Cigar.LettersOfRender | allen_deduper.py:63-68 | the letters found in a written-out CIGAR are its operation codes, in order |
| Cigar.NumbersOfRender | allen_deduper.py:62-69 | the numbers found in a written-out CIGAR are its operation lengths, in order |
| Cigar.AdjustedPosition | allen_deduper.py:71-92 | forward strand: raises IndexError exactly when there are no letters or a leading S has no number, and never moves the position forward; reverse strand: raises IndexError exactly when a counted letter has no number |
| Cigar.Adjusted | allen_deduper.py:54-93 | `pos_adj` changes only the position, and its only exception is IndexError |
| Cigar.PosAdj | allen_deduper.py:54-93 | the tallying loop gives the position the specification function gives, or IndexError |
| Cigar.TallyOfOps | allen_deduper.py:81-87 | each tally over the first n tokens is the total length of the operations with that code |
| Cigar.PlusStrandFormula | allen_deduper.py:72-73 | forward strand: position minus a leading soft clip, unchanged without one, IndexError for an empty CIGAR |
| Cigar.MinusStrandFormula | allen_deduper.py:75-92 | reverse strand: position - 1 + the M, D and N lengths + a trailing soft clip |
| Cigar.PlusLeadingClip | allen_deduper.py:72-73 | on the forward strand, a leading kS shifts the result back by k |
| Cigar.MinusLeadingClipIgnored | allen_deduper.py:88-90 | on the reverse strand, a leading soft clip does not change the result |
| Cigar.MinusTrailingClipCounted | allen_deduper.py:88-92 | on the reverse strand, a trailing kS adds k |
| Cigar.MinusIgnoresNonReferenceOps | allen_deduper.py:81-92 | on the reverse strand, a non-final operation other than M, D and N does not change the result |
| Cigar.AdjustedOfRender | allen_deduper.py:54-93 | `pos_adj` on a written-out CIGAR agrees with the formulas over its operations |
| Cigar.ForwardClipExample | allen_deduper.py:72-73 | 5S95M on the forward strand at 100 gives 95 |
| Cigar.ForwardMatchExample | allen_deduper.py:72-73 | 100M on the forward strand at 100 gives 100 |
| Cigar.ReverseTrailingClipExample | allen_deduper.py:75-92 | 90M10S on the reverse strand at 100 gives 199 |
| Cigar.ReverseLeadingClipExample | allen_deduper.py:75-92 | 10S90M on the reverse strand at 100 gives 189 |
| Cigar.UnavailableCigar | allen_deduper.py:68-92 | CIGAR `*` raises IndexError on the forward strand and gives position - 1 on the reverse strand |
| Groups.Put | allen_deduper.py:153-154 | assigning a key sets its list and leaves every other key and list as it was; a new key goes last in iteration order, an existing key keeps its place |
| Groups.Insert | allen_deduper.py:171-175 | appending a line to the dictionary keeps its invariant: every key listed once in iteration order, every list non-empty |
| Groups.InsertLists | allen_deduper.py:171-175 | appending a line sets its key's list to the old list (empty for a new key) plus the line, changes no other list, and adds a new key last in iteration order |
| Groups.EmittedSnoc | allen_deduper.py:100-108 | a key iterated last adds its head line to the filter's output when its UMI is allow-listed and one wrong UMI otherwise |
| Groups.FilterPcrDupes | allen_deduper.py:96-108 | the loop over the dictionary returns the first line of each allow-listed key in iteration order, and the number of other keys |
| Groups.EmittedPlusWrong | allen_deduper.py:96-108 | the lines written plus the wrong-UMI count equal the number of keys |
| Groups.EmittedFrame | allen_deduper.py:104 | only the head of each list matters to the filter |
| Groups.InsertExisting | allen_deduper.py:171-172 | appending to a key already present keeps the iteration order and the filter's output |
| Groups.InsertFresh | allen_deduper.py:173-175 | a new key goes last in iteration order and adds its line, or one wrong UMI, to the filter's result |
| Groups.GroupOfFilter | allen_deduper.py:96-108 | filtering the dictionary built from a run gives the run's kept lines and wrong count: the first line of each allow-listed key in first-seen order |
| Groups.KeptSnoc | allen_deduper.py:171-175 | a new line adds itself to the kept lines only when its key is new and allow-listed, and adds one wrong UMI only when its key is new and not allow-listed |
| Groups.FirstWins | allen_deduper.py:96-108 | every kept entry is the earliest entry of its key and has an allow-listed UMI; no key is kept twice; every allow-listed key is kept |
| Groups.KeptFrom | allen_deduper.py:104 | every kept line is a line of the run |
| Groups.KeptPlusWrong | allen_deduper.py:96-108 | kept lines plus wrong UMIs equal the number of distinct keys in the run |
| Groups.KeptIdempotent | allen_deduper.py:96-108 | filtering what was kept keeps all of it and counts no wrong UMI |
| Groups.DoubledHead | allen_deduper.py:144-175 | filing the first line twice does not change the kept lines or the wrong count |
| Deduper.Classify | allen_deduper.py:139-168 | a line is classified as a header exactly when it starts with `@`, and the header keeps the line |
| Deduper.Step | allen_deduper.py:137-194 | one line raises exactly when it is not a header and either extraction or `pos_adj` raises |
| Deduper.StepMoves | allen_deduper.py:137-194 | one line only appends to the output and never lowers the total; a header changes nothing else; a good alignment line becomes the last entry of its chromosome's run; on the current chromosome an alignment writes nothing |
| Deduper.Finish | allen_deduper.py:196-206 | at end of input the output and total only grow, and by exactly the number of distinct keys of the last run together |
| Deduper.ParseSnoc | allen_deduper.py:137 | classifying one more line appends its classification |
| Deduper.PassFinished | allen_deduper.py:196-206 | when the loop reaches the end of input, the pass writes the last run's kept lines and adds its wrong count |
| Deduper.PassStopped | allen_deduper.py:137-194 | when a line raises, the pass fails with that exception and what was written before it |
| Deduper.FeedError | allen_deduper.py:137-194 | when the loop stops, the exception is one raised by one of the lines read |
| Deduper.Run | allen_deduper.py:130-206 | the pass over classified lines fails only with an exception one of the lines raises |
| Deduper.ClassifyErrors | allen_deduper.py:23-93 | a line raises only IndexError or ValueError, from `extract_SAM_info` or `pos_adj` |
| Deduper.ParseErrors | allen_deduper.py:137-168 | an exception raised by any line of a file is IndexError or ValueError |
| Deduper.Pass | allen_deduper.py:130-206 | the whole pass over the SAM lines never raises KeyError: it fails only with IndexError or ValueError |
| Deduper.Parse | allen_deduper.py:137 | every input line is classified |
| Deduper.FeedStopped | allen_deduper.py:130-194 | once an exception is raised, later lines change nothing |
| Deduper.Join | allen_deduper.py:165-175 | adjusting a line and filing it keeps the dictionary equal to the one built from the run's entries |
| Deduper.FilterRun | allen_deduper.py:181-183 | the dictionary's filter output is the run's kept lines and wrong count |
| Deduper.StartRun | allen_deduper.py:189-194 | after the dictionary is cleared, the new line is its only entry |
| Deduper.ReadFirst | allen_deduper.py:144-175 | the first alignment line starts the first run, or its exception stops the pass |
| Deduper.ReadSame | allen_deduper.py:164-175 | a line on the current chromosome joins the run, or `pos_adj`'s exception stops the pass |
| Deduper.ReadNew | allen_deduper.py:177-194 | a chromosome change writes the run's kept lines, adds its wrong count and starts a new run; a `pos_adj` exception stops the pass after that write |
| Deduper.ReadLine | allen_deduper.py:137-194 | one iteration of the loop does what the step function says |
| Deduper.Deduplicate | allen_deduper.py:130-206 | the imperative pass produces exactly the specified outcome: the written lines and the total, or the lines written before the exception |
| PassProperties.FeedAppend | allen_deduper.py:137 | feeding a + b is feeding a, then b, unless a raised |
| PassProperties.FeedNextIff | allen_deduper.py:137-194 | the loop gets through the lines exactly when each is a header or an alignment that extracts and adjusts |
| PassProperties.ClassifyGood | allen_deduper.py:139-168 | a non-header line is unreadable exactly when extraction raises, with that error; it goes through exactly when extraction and `pos_adj` succeed; an alignment's chromosome is its RNAME, its only `pos_adj` error is IndexError, and a good line is filed under its UMI, adjusted position and strand |
| PassProperties.PassCompletesIff | allen_deduper.py:130-206 | the pass completes exactly when every line is a header or extracts and adjusts without error |
| PassProperties.FeedRun | allen_deduper.py:164-175 | lines on the current chromosome are appended to the run, nothing is written |
| PassProperties.FeedNewRun | allen_deduper.py:177-194 | a run on a new chromosome flushes the old run and becomes the run |
| PassProperties.SingleRun | allen_deduper.py:130-206 | a file on one chromosome outputs its kept lines and wrong count |
| PassProperties.RunsIsolated | allen_deduper.py:130-206 | a file of runs on successive different chromosomes outputs each run's kept lines in turn, and the total is the sum of the runs' wrong counts |
| PassProperties.Headers | allen_deduper.py:139-140 | the header lines of a file are header lines of it |
| PassProperties.HeadersAppend | allen_deduper.py:139-140 | the headers of a + b are those of a followed by those of b |
| PassProperties.ParseHeaders | allen_deduper.py:139-142 | classifying keeps every header line and no alignment line as a header |
| PassProperties.FeedHeaders | allen_deduper.py:139-194 | while the loop runs, the headers written are the file's headers so far, and no run holds a header |
| PassProperties.StepHeaders | allen_deduper.py:139-194 | one line writes its header line when it is one, and no header line otherwise |
| PassProperties.PassHeaders | allen_deduper.py:139-140 | a completed pass writes the file's header lines, verbatim and in order |
| PassProperties.Body | allen_deduper.py:139-140 | the non-header lines of a file hold no header line |
| PassProperties.BodyAppend | allen_deduper.py:139-140 | the non-header lines of a + b are those of a followed by those of b |
| PassProperties.BodyOfHeaderless | allen_deduper.py:139-140 | a file without header lines is all body |
| PassProperties.HeaderStep | allen_deduper.py:139-140 | a header line is written and leaves the non-header output, the run, the chromosome and the total as they were |
| PassProperties.StepSameBody | allen_deduper.py:143-194 | an alignment or unreadable line does the same to two states that differ only in the header lines written |
| PassProperties.FeedWithoutHeaders | allen_deduper.py:137-194 | the loop over a file and over the file without its header lines raise alike and keep the same run, chromosome, total and non-header output |
| PassProperties.ParseBody | allen_deduper.py:137-140 | classifying the non-header lines gives the classification of the file without its headers |
| PassProperties.PassWithoutHeaders | allen_deduper.py:130-206 | header lines never change how the pass ends: it completes or raises alike with or without them, with the same wrong-UMI total or exception and the same non-header lines written |
| PassProperties.RunsIsolatedWithHeaders | allen_deduper.py:130-206 | with header lines anywhere among runs on successive different chromosomes, the pass completes, its non-header output is each run's kept lines in turn, its total the sum of the runs' wrong counts, and its header output the file's headers |
| PassProperties.SingleRunWithHeaders | allen_deduper.py:130-206 | with header lines anywhere among one chromosome's lines, the pass completes with that run's kept lines as its non-header output, its wrong count, and the file's headers |

## Left out

- Argument parsing, opening and reading the files, and writing: the SAM file is a sequence of lines, the UMI file is the allow-list `umis`, and the output file is the returned sequence of lines.
- The closing print of the total: the total is returned instead.
- `rev_UMI_list` (allen_deduper.py:116, 125-126): it is never used by the filter. Building it applies `rev_comp` to each UMI, which raises KeyError at start-up when a UMI has a character other than A, C, G or T; that start-up failure is not modelled.
- Reading the UMI file and stripping its lines (allen_deduper.py:120-123): the allow-list is given as it is after stripping.
- Text.ParseInt: does not model `int()`'s underscores between digits or non-ASCII digits and whitespace, because SAM fields are ASCII.
- Text.ParseInt: `int()` is modelled without CPython's limit of 4300 decimal digits (the behaviour of Python before 3.11, or with PYTHONINTMAXSTRDIGITS=0); a longer field raises ValueError in the script but parses in the model.
- Text.ParseIntOfShow: `int()` is modelled without CPython's limit of 4300 decimal digits (the behaviour of Python before 3.11, or with PYTHONINTMAXSTRDIGITS=0); the read-back holds for numbers of at most 4300 digits on current CPython.
- Text.ParseIntOfShowNegative: `int()` is modelled without CPython's limit of 4300 decimal digits (the behaviour of Python before 3.11, or with PYTHONINTMAXSTRDIGITS=0); the read-back holds for numbers of at most 4300 digits on current CPython.
- SamRecord.ExtractSamInfo: `int()` is modelled without CPython's limit of 4300 decimal digits (the behaviour of Python before 3.11, or with PYTHONINTMAXSTRDIGITS=0); "POS and FLAG are integers" means they parse under that model.
- SamRecord.ExtractFromFields: `int()` is modelled without CPython's limit of 4300 decimal digits (the behaviour of Python before 3.11, or with PYTHONINTMAXSTRDIGITS=0); a POS or FLAG field longer than that raises ValueError in the script.
- Cigar.Numbers: `int()` is modelled without CPython's limit of 4300 decimal digits (the behaviour of Python before 3.11, or with PYTHONINTMAXSTRDIGITS=0); `int(numbers[i])` on a longer CIGAR length raises ValueError in the script.
- Cigar.AdjustedPosition: `int()` is modelled without CPython's limit of 4300 decimal digits (the behaviour of Python before 3.11, or with PYTHONINTMAXSTRDIGITS=0); a CIGAR length longer than that makes `pos_adj` raise ValueError, which the IndexError conditions do not cover.
- Cigar.Adjusted: `int()` is modelled without CPython's limit of 4300 decimal digits (the behaviour of Python before 3.11, or with PYTHONINTMAXSTRDIGITS=0); beyond it `pos_adj` can also raise ValueError, not only IndexError.
- Cigar.PosAdj: `int()` is modelled without CPython's limit of 4300 decimal digits (the behaviour of Python before 3.11, or with PYTHONINTMAXSTRDIGITS=0); beyond it the loop's `int(numbers[i])` can also raise ValueError.
- PassProperties.ClassifyGood: `int()` is modelled without CPython's limit of 4300 decimal digits (the behaviour of Python before 3.11, or with PYTHONINTMAXSTRDIGITS=0); beyond it an alignment line's `pos_adj` can raise ValueError rather than only IndexError.
- Cigar.Numbers: `\d` is read as the ASCII digits 0-9; Python's `\d` also matches other Unicode digits.
- The `samline.strip()` on allen_deduper.py:28 has no effect, since its result is overwritten on the next line. The model follows the code: the trailing newline stays in the last field, and the line is written with it.
- Groups.FilterPcrDupes: requires every key to have a non-empty list. The loop never builds an empty list; on one, the source would raise IndexError.
- The whole-pass properties in `PassProperties` are stated over classified lines (`Parse`) and tied back to raw lines by `PassCompletesIff`, `PassHeaders` and `PassWithoutHeaders`.
- PassProperties.SingleRun: stated for classified lines without headers; `SingleRunWithHeaders` gives the same for a file with header lines anywhere.
- PassProperties.RunsIsolated: stated for classified lines without headers; `RunsIsolatedWithHeaders` gives the same for a file with header lines anywhere.
