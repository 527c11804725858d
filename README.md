# pswap, modelled in Dafny

pswap reports how much swap each Linux process uses. It lists `/proc` and
keeps the entries that are directories named only by decimal digits. For
each one it reads `/proc/<pid>/status` line by line and pulls out the `Pid`,
`Name` and `VmSwap` fields. It then prints one line per process and can
print the total swap.

This project models that pipeline and proves properties of it. There are
six modules:

- `Wrappers` (`wrappers.dfy`): `Option` and `Result`.
- `RustStr` (`rust_str.dfy`): the Rust string operations the parser relies
  on, each with its edge cases:
  - `str::trim` over the full Unicode `White_Space` set.
  - `split_once`.
  - `strip_suffix`.
  - The `FromStr` parsers for `i32` and `usize`.
  - The decimal text `Display` writes.
- `Status` (`status.dfy`): `read_process_status`, on three levels:
  - `ReadProcessStatus` is the loop itself, with its `line` buffer and
    `status` record. It is proved equal to the function `ParseStatus`.
  - `ParseStatus` replays the loop's effect in two steps. `Fields` turns
    the lines into (label, trimmed value) pairs. `Apply` turns those into
    the record.
  - `ParseStatusSummary` describes the result without any replay. It is
    `InvalidValue` if any `Pid` or `VmSwap` value is malformed. Otherwise it
    is the read error, if one occurred. Otherwise it is the last `Pid`, the
    concatenation of all `Name` values and the last `VmSwap`.
- `StatusProperties` (`status_properties.dfy`): what happens to whole status
  records:
  - Round trips of the kernel's own record lines.
  - Later lines overriding or extending earlier ones.
  - The first invalid line deciding the result.
  - The effect of a line without a `:`.
- `ProcessReader` (`process_reader.dfy`): the parts that handle `/proc`:
  - `is_all_digits` and `is_process_subdir`.
  - The `ProcessStatusReader` iterator and its `next`. The listing is fixed
    up front, and the filter is applied on demand inside `next`.
  - `create_process_status_reader`.
  - The loop in `main` that collects the items and adds up `total`.
- `ProcScenario` (`scenario.dfy`): the four-directory scenario `1`, `2`,
  `abc`, `self`, run through the filter, the reader and the total.

The file system is an input. A listing is a sequence of entries. Each entry
carries its name, whether it is a directory, and a `StatusFile`. A
`StatusFile` says either that opening failed, or which lines the successive
`read_line` calls return and whether reading then ended cleanly or with an
error.

Behaviours of the code a reader might not expect, all reproduced by the
model:

- **Lines without a `:` are not ignored.** The `continue` in
  `read_process_status` skips `line.clear()`, so such a line stays in the
  buffer and becomes the front of the next line's label.
  `Status.ColonlessLineJoinsNext` proves this.
  `StatusProperties.ColonlessLineMasksPid` shows a `Pid` line being lost
  that way.
- **The empty name counts as all digits.** `is_all_digits("")` is true. An
  entry of `read_dir` never has an empty name, so this cannot change which
  directories are kept.
- **An `Err` entry in the listing is not forwarded as an item.**
  `is_process_subdir` unwraps the entry, so an `Err` entry panics inside
  the filter. The `Err` arm of `next` can never be reached. The model makes
  "every entry is `Ok`" a precondition and leaves that arm out.
- **A record without a `Pid` line is not rejected for lacking one.** When
  it reads successfully its pid is 0, which `StatusProperties.NoPidLineMeansZero`
  proves; it can still fail on an invalid `VmSwap` value or a read error.
  A record with none of the three labels reads as the default record
  (`StatusProperties.UnknownLabelsGiveDefault`).
- **Each `Name` value is trimmed before it is appended.**

## Model

| member | source | states |
|---|---|---|
| RustStr.Trim | src/main.rs:69 | the result neither starts nor ends with whitespace; it is the slice of the input between a whitespace-only prefix and a whitespace-only suffix |
| RustStr.LeadingWhitespaceAfter | src/main.rs:69 | a whitespace prefix lengthens the leading whitespace run by exactly its own length |
| RustStr.TrailingWhitespaceBefore | src/main.rs:69 | a whitespace suffix lengthens the trailing whitespace run by exactly its own length |
| RustStr.TrimPadded | src/main.rs:69 | trimming a text padded with whitespace on either side gives back the text, when the text has no surrounding whitespace itself |
| RustStr.SplitOnce | src/main.rs:67 | `None` exactly when the separator does not occur; otherwise the input is head + separator + tail, and the separator does not occur in the head (the split is at the first occurrence) |
| RustStr.SplitOnceAt | src/main.rs:67 | splitting `k + [c] + v` with no `c` in `k` gives exactly `(k, v)` |
| RustStr.StripSuffix | src/main.rs:77 | a stripped result followed by the suffix is the input |
| RustStr.StripSuffixOf | src/main.rs:77-78 | the result is `Some(p)` for every `p` such that the input is `p` + suffix; with the ensures of `StripSuffix`, `Some(p)` exactly when the input is `p` + suffix |
| RustStr.FormatNat | src/main.rs:79 | the canonical decimal text of a number, which builds the kernel-style `VmSwap` lines of the round-trip lemmas: a non-empty run of digits, with a leading `0` only for zero, whose decimal value is the number |
| RustStr.FormatInt | src/main.rs:73 | the canonical decimal text of an integer, which builds the kernel-style `Pid` lines of the round-trip lemmas: non-empty and without surrounding whitespace |
| RustStr.ParseI32 | src/main.rs:73 | the empty text, `+` and `-` are rejected; an accepted text is an optional sign followed by a non-empty run of digits, and its value is that run's value, negated after `-` |
| RustStr.ParseUsize | src/main.rs:79 | the empty text, `+` and any text starting with `-` are rejected; an accepted text is an optional `+` followed by a non-empty run of digits whose value is the result |
| RustStr.ParseI32Signed | src/main.rs:73 | a sign and digits parse to the signed value exactly when it lies in the `i32` range |
| RustStr.ParseI32Unsigned | src/main.rs:73 | unsigned digits parse to their value exactly when it is below 2^31 |
| RustStr.ParseI32OfFormat | src/main.rs:73 | every `i32` printed in decimal parses back to itself, `i32::MIN` included |
| RustStr.ParseI32OutOfRange | src/main.rs:73 | decimal text beyond the `i32` range, on either side, is rejected rather than wrapped |
| RustStr.ParseUsizeDigits | src/main.rs:79 | every non-empty run of digits, with or without a leading `+` and with leading zeros allowed, parses to its value when that is below 2^64 and is rejected otherwise |
| RustStr.ParseUsizeOfFormat | src/main.rs:79 | every `usize` printed in decimal, with or without a leading `+`, parses back to itself |
| RustStr.ParseUsizeOutOfRange | src/main.rs:79 | decimal text of 2^64 or more is rejected rather than wrapped |
| Status.Fields | src/main.rs:63-70 | after any sequence of lines, the text left in the buffer contains no `:`, and there are no more fields than lines |
| Status.SwapKb | src/main.rs:76-80 | the amount of a `VmSwap` value: `ParseUsize` of the text before ` kB`, `None` without that unit; `VmSwapLineValue`, `SwapWithoutUnitIsInvalid` and `VmSwapLeadingZeros` state what it gives on kernel values, on every value without the unit and on leading zeros |
| Status.Apply | src/main.rs:64-83 | the field updates applied in order to `ProcessStatus::default()`, stopping at the first error; `ApplySummary` states its result, `ApplyFails` and `ApplyFailureIsFinal` its failures |
| Status.ParseStatus | src/main.rs:60-89 | the result of one call on a status file; `ReadProcessStatus` is proved equal to it, and `ParseStatusSummary` states it without replaying the loop |
| Status.Summary | src/main.rs:64-88 | the record valid fields describe: the last `Pid` (0 when none), the concatenated `Name` values, the last `VmSwap` (`None` when none); `ApplySummary` proves the replay gives it |
| Status.ApplyField | src/main.rs:28-83 | a field fails exactly when it is a `Pid` that is not an `i32` or a `VmSwap` that is not `<usize> kB`, and then with `InvalidValue` (the `From` conversion of every `ParseIntError`, and the error for a missing ` kB`); a field only changes the record member its label names, and any other label changes nothing |
| Status.LastWith | src/main.rs:73-81 | the index found is the last field with the label, or there is no field with it |
| Status.Names | src/main.rs:74 | without a `Name` field the concatenated name is empty |
| Status.SummarySnoc | src/main.rs:72-83 | applying one more valid field to the summary of the earlier fields gives the summary of all of them |
| Status.ApplySummary | src/main.rs:64-88 | replaying the fields fails with `InvalidValue` exactly when some field is invalid, and otherwise gives the last pid, the concatenated names and the last swap amount |
| Status.ParseStatusSummary | src/main.rs:60-89 | the result of reading an opened record is `InvalidValue` if any field is invalid, else the read error if there was one, else the summary of the fields |
| Status.ReadLinesBefore | src/main.rs:66 | in the lines successive `read_line` calls return, every line followed by another was ended by `\n` |
| Status.FieldsExtend | src/main.rs:66-86 | reading more lines only adds fields after the ones already cut |
| Status.FieldsPrefix | src/main.rs:66-86 | the fields cut from the first `k` lines are a prefix of the fields cut from all of them |
| Status.FieldsOfColonLines | src/main.rs:66-86 | when every line has a `:`, each line is exactly one field, cut at its first `:`, and the buffer ends empty |
| Status.ColonlessLineJoinsNext | src/main.rs:67-68 | a line without a `:` is not dropped: it is glued to the front of the next line, and the two give a single field |
| Status.ApplyFails | src/main.rs:73-79 | replaying fails exactly when some field is invalid, and the error is then `InvalidValue` |
| Status.ApplyFailureIsFinal | src/main.rs:73-79 | once the replay has failed, further fields leave the result unchanged |
| Status.FailureIsFinal | src/main.rs:73-79 | once the lines read so far have produced an invalid field, the result of the whole record is that failure |
| Status.ReadProcessStatus | src/main.rs:60-89 | the loop, with its buffer that is not cleared after a line without a `:` and its early returns, returns exactly `ParseStatus` of the record, covering the open error, the first invalid field, the read error and success |
| StatusProperties.AppendFieldLine | src/main.rs:66-85 | after lines each ended by `\n` and a cleared buffer, one more `<label>:<value>` line (with no `\n` in the label and none before the end of the value, so that one `read_line` returns it whole) keeps the buffer clear and acts as one more field applied to the record read so far, an earlier failure standing |
| StatusProperties.FieldLineIsField | src/main.rs:66-69 | after lines each ended by `\n` and a cleared buffer, a `<label>:<value>` line that `read_line` returns whole (no `\n` in the label, none before the end of the value) is cut into exactly that label and the trimmed value |
| StatusProperties.NameLineValue | src/main.rs:69 | the value of a kernel-style `Name` line trims back to the name, for a name without surrounding whitespace |
| StatusProperties.PidLineValue | src/main.rs:69-73 | the value of a kernel-style `Pid` line parses back to the pid |
| StatusProperties.VmSwapLineValue | src/main.rs:69-80 | the value of a kernel-style `VmSwap` line, with any extra padding, gives back the amount |
| StatusProperties.AppendPidLine | src/main.rs:73 | after lines each ended by `\n`, with no colon-less line left in the buffer, a later `Pid` line overrides the pid read so far |
| StatusProperties.AppendNameLine | src/main.rs:74 | after lines each ended by `\n`, with no colon-less line left in the buffer, a `Name` line whose name holds no `\n` (so that it is one line) appends its value to the name read so far |
| StatusProperties.AppendVmSwapLine | src/main.rs:75-81 | after lines each ended by `\n`, with no colon-less line left in the buffer, a later `VmSwap` line, padded with whitespace other than `\n`, overrides the amount read so far |
| StatusProperties.NoLines | src/main.rs:63-64 | an empty record reads as the default record |
| StatusProperties.NameLineAlone | src/main.rs:74 | a record holding only a `Name` line, whose name holds no `\n`, reads as that name with pid 0 and no swap amount |
| StatusProperties.NameAndPidLines | src/main.rs:60-89 | a `Name` line followed by a `Pid` line reads as exactly that name and pid, for every name without surrounding whitespace and without `\n` |
| StatusProperties.PidAndNameLines | src/main.rs:60-89 | a `Pid` line followed by a `Name` line reads as exactly that pid and name, for every name without surrounding whitespace and without `\n` |
| StatusProperties.StatusLinesRoundTrip | src/main.rs:60-89 | every status whose name has no surrounding whitespace and no `\n` (which would split the `Name` line), written as the kernel writes it (with or without a `VmSwap` line, with any whitespace other than `\n` before the amount), reads back as itself |
| StatusProperties.InvalidLineIsFinal | src/main.rs:73-79 | in a file whose lines are what successive `read_line` calls return, with no colon-less line left in the buffer before it, after an invalid `Pid` or `VmSwap` line (read whole, with no `\n` before its end) the result is `InvalidValue`, whatever follows and even if a later read fails |
| StatusProperties.SwapWithoutUnitIsInvalid | src/main.rs:77-78 | every `VmSwap` value that does not end in ` kB` gives no amount and is invalid |
| StatusProperties.BareSwapAmountIsInvalid | src/main.rs:69-78 | the line value `\t128\n`, a bare amount without unit, is invalid rather than read as 128 |
| StatusProperties.UnknownLabelsGiveDefault | src/main.rs:64-82 | a record with none of the three labels reads as the default record: pid 0, empty name, no swap amount |
| StatusProperties.NoPidLineMeansZero | src/main.rs:63-73 | a successful read of a record without a `Pid` line has the default pid 0 |
| StatusProperties.NoVmSwapLineMeansNone | src/main.rs:38 | a successful read of a record without a `VmSwap` line has no swap amount |
| StatusProperties.VmSwapLeadingZeros | src/main.rs:76-80 | a `VmSwap` value with leading zeros is accepted: `0128 kB` gives 128 |
| StatusProperties.VmSwapZeroIsSomeZero | src/main.rs:75-81 | `VmSwap` of `0 kB` is the amount 0, distinct from an absent amount |
| StatusProperties.ColonlessLineMasksPid | src/main.rs:67-68 | a `Pid` line that sets the pid on its own is ignored after a line without a `:` (ended by `\n`), because the buffer is not cleared |
| StatusProperties.PidLineAlone | src/main.rs:73 | a record holding only a `Pid` line reads as that pid |
| StatusProperties.GluedPidLine | src/main.rs:66-82 | a colon-less line followed by a `Pid` line gives exactly one field, whose label none of the three cases matches |
| StatusProperties.GluedPidLabel | src/main.rs:67-82 | a `Pid` line glued to a colon-less line has a label that none of the three cases matches |
| StatusProperties.PidNameSwapLines | src/main.rs:60-89 | `Pid`, `Name` and `VmSwap` lines read as exactly those three values, for every name without surrounding whitespace and without `\n` |
| StatusProperties.WellFormedRecordExample | src/main.rs:60-89 | the record of the lines `Pid:\t42`, `Name:\tfoo`, `VmSwap:\t128 kB` (spelled out by `ExampleRecordLines`) reads as `(42, "foo", Some(128))` |
| ProcessReader.IsAllDigits | src/main.rs:12-14 | true exactly when every character is an ASCII decimal digit, so also for the empty name |
| ProcessReader.IsProcessSubdir | src/main.rs:46-53 | an entry is kept exactly when it is a directory whose name is valid UTF-8 and all ASCII digits |
| ProcessReader.ProcessSubdirs | src/main.rs:56 | the filter yields at most as many entries as the listing has |
| ProcessReader.ProcessSubdirsMembers | src/main.rs:46-56 | the filter keeps exactly the listed entries that are process directories |
| ProcessReader.ProcessSubdirsAppend | src/main.rs:56 | filtering keeps the listing's order: a split listing filters piece by piece |
| ProcessReader.ProcessStatusReader.constructor | src/main.rs:55-57 | a new reader holds the whole listing |
| ProcessReader.ProcessStatusReader.Next | src/main.rs:94-99 | `None` exactly when no process directory is left; otherwise the item is the result of reading the next process directory's status record, and that directory is consumed, with the rest left in order |
| ProcessReader.CreateProcessStatusReader | src/main.rs:45-58 | a failing `read_dir` is passed on as the error; otherwise a new reader over the listing |
| ProcessReader.Statuses | src/main.rs:96 | one item per directory, each the result of reading that directory's status record |
| ProcessReader.StatusesSnoc | src/main.rs:96 | reading one more directory adds its item at the end |
| ProcessReader.Report | src/main.rs:94-99 | the items the reader yields over a whole listing; `SwapReport` is proved to produce exactly it, and `ProcScenario.ScenarioReport` evaluates it on the four-directory scenario |
| ProcessReader.SwapKbOf | src/main.rs:122-127 | what one item adds to `total`: its `VmSwap` amount, 0 when absent (`unwrap_or(0)`) or when the item failed |
| ProcessReader.SwapTotal | src/main.rs:121-127 | `total` after visiting the items in order; `SwapTotalAppend`, `SwapTotalCovers` and `SwapTotalOfErrors` state that it is additive, counts every amount and ignores failures, and `SwapReport` that the loop computes it |
| ProcessReader.SwapTotalAppend | src/main.rs:121-127 | the total over a split item sequence is the sum of the totals of its parts |
| ProcessReader.SwapTotalCovers | src/main.rs:125-127 | every successful item's swap amount is included in the total |
| ProcessReader.SwapTotalOfErrors | src/main.rs:123 | failed items add nothing to the total |
| ProcessReader.SwapReport | src/main.rs:121-136 | the loop of `main` visits exactly the reader's items, in order (one per process directory, failures included), and `total` is the sum of their swap amounts with absent amounts and failures counted as 0 |
| ProcScenario.ScenarioSubdirs | src/main.rs:46-56 | of the directories `1`, `2`, `abc` and `self`, only `1` and `2` are kept, in that order |
| ProcScenario.ScenarioReport | src/main.rs:94-99 | in that scenario, with `2/status` missing, the items are `Ok((1, "init", None))` followed by the I/O failure for `2`, and the total is 0 |

## Left out

- Command-line handling is not modelled: `getopts`, `-h` and the help text, and the `-c` flag. The `-c` flag only decides whether `total` is printed; the model always computes `total`.
- Printing is not modelled. That covers the header, the per-process lines with their column widths, the diagnostic lines on standard error and the total line. `SwapReport` returns the items that are printed, in order.
- The file system is not modelled. `read_dir`, `is_dir`, `File::open` and `read_line` are inputs: a listing of entries, each carrying the outcome of opening and reading its `status` file.
- Timing is not modelled. The listing is fixed when the reader is created, and a process that exits between listing and reading shows up only as the outcome recorded in its entry. The filter itself is applied on demand inside `Next`, one entry at a time, as the source's lazy `Filter` does.
- `OsError` does not model the contents of an `io::Error`.
- `Line` is one `read_line` result: non-empty, with no `\n` before its last character. That a line not ended by `\n` can only be the last line of a file is the predicate `ReadLines`, not part of `StatusFile`. `ParseStatus` and `ReadProcessStatus` are defined for any sequence of lines. The lemmas that append a line require the lines before it to be ended by `\n` (`AllEnded`), and `InvalidLineIsFinal` requires `ReadLines` of the whole file.
- ProcessReader.SwapReport: `total` is an unbounded `nat`. In the source it is a `usize`, and `+=` panics on overflow in a debug build and wraps in a release build.
- ProcessReader.ProcessStatusReader.Next: it requires every remaining entry of the listing to be `Ok`. One call of the source's `next` unwraps only the entries up to the process directory it yields. So an `Err` entry after that directory is excluded here, although that call would not reach it; a later call would reach it and panic.
- ProcessReader.SwapReport: it requires `read_dir` to succeed and every entry to be `Ok`, because `main` unwraps the first and the filter unwraps the second.
- `usize` is taken to be 64 bits wide.
