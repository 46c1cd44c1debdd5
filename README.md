# dumpbin: a verified model of the report parser and the tool locator

The crate wraps Microsoft's `dumpbin.exe`. It finds the tool through the
Visual C++ installations recorded in the Windows registry, runs
`dumpbin /DEPENDENTS <file>`, and parses the printed report into a
`Dependents` value: the imported libraries, then the `(count, name)` rows of
the report's summary table. This project models three parts of it:

- the parser, `DumpBin::dependents` after the tool's output has been decoded;
- the locator's candidate-selection loop, run over an in-memory registry;
- the crate's error type.

Modules, one file each:

- `Wrappers` (`wrappers.dfy`): `Option` and `Result`.
- `Text` (`text.dfy`): the parts of Rust's string API the parser uses.
  - `char::is_whitespace`, the exact Unicode White_Space set;
  - `str::trim`;
  - `str::split` on one character, with `Join` as its inverse;
  - leftmost case-insensitive search for a literal phrase, which is what a
    case-insensitive `Regex` built from a literal does.
- `Decimal` (`decimal.dfy`): `u32::from_str`, and the decimal rendering of
  integers.
- `Errors` (`errors.dfy`): `DumpBinError`, with its `From` conversions,
  `Display` and `std::error::Error` methods.
- `ReportParser` (`report_parser.dfy`): the parser.
  - `Report` is the reference definition of what the parser returns.
  - `ParseDependents`, `ParseSections`, `PushLibraries` and `PushSummary`
    are the imperative code: they push into the result in `while` loops.
  - The lemmas state the per-entry shape guarantees.
- `ReportRender` (`report_render.dfy`): lays a `Dependents` value out in the
  shape of the report `dumpbin /DEPENDENTS` prints, and proves that parsing
  the layout gives the value back. The layout has CRLF line ends and a blank
  line after each heading. Each library is on its own line, indented by four
  spaces. Each summary row is on its own line, with its count written in
  decimal and right-aligned in eight columns after an indent of four. The
  tool prints these counts (section sizes) in hexadecimal. The banner and file
  lines that the tool prints before the dependency heading are not written.
- `Registry` (`registry.dfy`): a `Reader` class that stands in for the
  registry reader. Its contents are a fixed map from key paths to keys. It
  tracks the open handles, the next handle number, and a ghost log of the
  handles closed, in order.
- `Locator` (`locator.dfy`): `locate_dumpbin`, `locate_dumpbin_for_vc` and
  their shared loop. `Located`, `LocatedForVc` and `LastHit` are the
  reference definitions, over the registry map.

How a call of the parser ends is a `Run` value:

- `Returned(Ok(d))`;
- `Returned(Err(Other(message)))`;
- `Panicked`. The source slices `output[dll.end()..sum.start()]`, which
  panics when the first `Summary` starts before the dependency marker ends.

Two points of the code that the model keeps:

- **The installations key is closed on one path only.** `locate_dumpbin`
  closes it only when listing the installations fails (src/dumpbin.rs:92-98).
  It stays open when a `dumpbin.exe` is found, and also on the
  `No DumpBin found!` return. `locate_dumpbin_for_vc` never closes it
  (src/dumpbin.rs:137). The ensures clauses of `LocateDumpbin` and
  `LocateDumpbinForVc` state which handles stay open.
- **The dependency marker is checked first.** The code returns as soon as
  that marker is missing (src/dumpbin.rs:51-55). So a missing `Summary` is
  reported only when the dependency marker is present (src/dumpbin.rs:56-60).
  `Outcomes` states this order.

## Model

| member | source | states |
|---|---|---|
| `Text.TrimShape` | src/dumpbin.rs:61-69 | `trim` keeps characters of its input only, gives the empty string exactly when the input is all whitespace, and otherwise gives a string with no whitespace at either end |
| `Text.TrimStartShape` | src/dumpbin.rs:61 | `trim_start` keeps a suffix, drops only whitespace, and what it keeps does not start with whitespace |
| `Text.TrimEndShape` | src/dumpbin.rs:61 | `trim_end` keeps a prefix, drops only whitespace, and what it keeps does not end with whitespace |
| `Text.TrimOfTrimmed` | src/dumpbin.rs:61 | trimming a string with no whitespace at either end leaves it unchanged |
| `Text.TrimSurrounded` | src/dumpbin.rs:61 | trimming removes any whitespace placed around a string that has no whitespace at its ends |
| `Text.TrimBlankPrefix` | src/dumpbin.rs:61 | whitespace put before a string does not change its trim |
| `Text.TrimBlankSuffix` | src/dumpbin.rs:61 | whitespace put after a string does not change its trim |
| `Text.SplitAvoids` | src/dumpbin.rs:63 | no piece of `split(sep)` holds the separator |
| `Text.JoinSplit` | src/dumpbin.rs:63 | joining the pieces of `split(sep)` with `sep` gives back the string that was split |
| `Text.SplitJoin` | src/dumpbin.rs:68 | splitting a join of one or more separator-free pieces gives exactly those pieces |
| `Text.SplitPieceFree` | src/dumpbin.rs:63 | a string without the separator splits into itself alone |
| `Text.SplitConcat` | src/dumpbin.rs:68 | splitting at a separator splits each side independently |
| `Text.SplitSnoc` | src/dumpbin.rs:63 | a character other than the separator, appended to a string, is appended to the last piece of its split and to nothing else |
| `Text.Fold` | src/dumpbin.rs:51 | simple case folding changes only ASCII capitals, the long s and the Kelvin sign |
| `Text.FoldAlike` | src/dumpbin.rs:51-56 | two characters fold alike exactly when they are equal or both are case variants of one ASCII letter (`s`, `S` and the long s; `k`, `K` and the Kelvin sign) |
| `Text.FindLeftmost` | src/dumpbin.rs:51-57 | the case-insensitive search returns a match with no match before it, and returns nothing exactly when the phrase occurs nowhere |
| `Text.FindFromLeftmost` | src/dumpbin.rs:51-57 | the search from a position returns the first match at or after it, or nothing when there is none |
| `Text.FindAtOrBefore` | src/dumpbin.rs:52 | a match at `i` makes the search succeed at `i` or earlier |
| `Decimal.ParseU32` | src/dumpbin.rs:79 | `u32::from_str` succeeds exactly on an optional `+` followed by one or more ASCII digits spelling at most 4294967295, and gives the value those digits spell |
| `Decimal.ParseU32OfDecimal` | src/dumpbin.rs:79 | `u32::from_str` reads back the decimal rendering of every `u32`, with or without a leading `+` |
| `Decimal.ParseU32Overflow` | src/dumpbin.rs:79 | `u32::from_str` rejects the decimal rendering of every value past 4294967295 |
| `Decimal.NatToDecimalDigits` | src/err.rs:29 | the decimal rendering of `n` is a non-empty digit string whose value is `n`, with a leading `0` only for zero |
| `Decimal.NatToDecimalInjective` | src/err.rs:29 | distinct numbers have distinct decimal renderings |
| `Decimal.IntToDecimalInjective` | src/err.rs:29 | distinct integers, negative ones included, have distinct decimal renderings |
| `Errors.FromString` | src/err.rs:13-17 | `From<String>` gives the `Other` variant, which displays as exactly the string |
| `Errors.FromForensic` | src/err.rs:19-23 | `From<ForensicError>` always gives the `Other` variant, which displays as the error's debug rendering |
| `Errors.DisplayIo` | src/err.rs:28 | the I/O variant displays as `I/O error: ` followed by the foreign rendering, which can be read back after the prefix |
| `Errors.IntToDecimalShape` | src/err.rs:29 | a rendered exit code is a `-` or a digit, followed only by digits |
| `Errors.CutAtColon` | src/err.rs:29 | a rendered exit code followed by `: ` and the stderr text can be cut back apart at the first colon |
| `Errors.DisplayExitInjective` | src/err.rs:29 | the `SignTool exited with code {exit_code}: {stderr}` display of the exit variant determines both the code and the stderr text |
| `Errors.ErrorTraitMethods` | src/err.rs:36-46 | `source` is `None` and `cause` equals it for every variant, and `description` is the same fixed text for every pair of variants |
| `ReportParser.ParseDependents` | src/dumpbin.rs:50-81 | the method that searches for both markers and pushes libraries and rows returns exactly what the reference definition `Report` gives |
| `ReportParser.ParseSections` | src/dumpbin.rs:61-80 | slicing at the markers and running both loops gives the libraries of the window between the markers and the rows after `Summary` |
| `ReportParser.PushLibraries` | src/dumpbin.rs:61-65 | the first loop pushes, in order, every space-separated piece of the trimmed window that is not blank, each piece trimmed |
| `ReportParser.PushSummary` | src/dumpbin.rs:67-80 | the second loop pushes, in line order, one row per line of the trimmed tail that has two non-blank tokens, and skips every other line |
| `ReportParser.Outcomes` | src/dumpbin.rs:51-61 | each of the four outcomes happens exactly when its condition holds: the dependency marker missing (reported first, even when `Summary` is missing too); `Summary` missing; the first `Summary` before the end of the marker (a panic); both in order (success) |
| `ReportParser.SummaryFirstPanics` | src/dumpbin.rs:61 | a `Summary` starting before the end of the first dependency marker makes the call panic |
| `ReportParser.CountOfValue` | src/dumpbin.rs:79 | a row's count is the value its first token spells as a `u32` literal (optional `+`, digits only, at most 4294967295), and 0 for every other token, overflow included |
| `ReportParser.CountOfHexSize` | src/dumpbin.rs:79 | a hexadecimal section size as the tool prints it is read as a decimal literal: `1000` gives 1000, and `3B000` gives 0 |
| `ReportParser.LibrariesShape` | src/dumpbin.rs:61-65 | every library is non-empty, has no whitespace at either end and holds no space; there is at most one per space-separated piece of the trimmed window |
| `ReportParser.TrimmedFieldsShape` | src/dumpbin.rs:63-64 | each pushed library is non-empty with no whitespace at either end, and there are no more libraries than pieces |
| `ReportParser.TrimmedFieldsAvoid` | src/dumpbin.rs:63-64 | a character no piece holds is held by no library |
| `ReportParser.TrimmedFieldsOfWords` | src/dumpbin.rs:63-64 | pieces that are already non-empty and free of whitespace are all kept, unchanged and in order: nothing is deduplicated or re-cased |
| `ReportParser.NonBlankAvoid` | src/dumpbin.rs:69 | the tokens kept from a line are non-blank, and hold no character that no piece holds |
| `ReportParser.LineEntryRows` | src/dumpbin.rs:69-79 | a line yields a row exactly when it has at least two non-blank tokens; the row is the count of the first token and the second token verbatim |
| `ReportParser.LineEntryName` | src/dumpbin.rs:74-79 | the name of a row is non-blank and holds no space |
| `ReportParser.EntriesBound` | src/dumpbin.rs:68 | there is at most one row per line |
| `ReportParser.EntriesNames` | src/dumpbin.rs:68-79 | every row's name is non-blank and holds no space |
| `ReportParser.LibrariesIgnoreTrim` | src/dumpbin.rs:61-64 | trimming the window before splitting it changes no library: whitespace at its ends yields no piece that survives the filter |
| `ReportParser.SummaryIgnoresTrim` | src/dumpbin.rs:67-69 | trimming the tail before splitting it changes no row: whitespace at its ends yields no line with two tokens |
| `ReportParser.TrimmedFieldsConcat` | src/dumpbin.rs:63-64 | the libraries of two runs of pieces are the libraries of each run, in order |
| `ReportParser.EntriesConcat` | src/dumpbin.rs:68-79 | the rows of two runs of lines are the rows of each run, in order |
| `ReportParser.SummaryShape` | src/dumpbin.rs:67-80 | the summary has at most one row per newline-separated line of the trimmed tail, and every row's name is non-blank and holds no space |
| `ReportRender.RenderParses` | src/dumpbin.rs:50-81 | parsing the report layout of any well-formed `Dependents` value gives that value back: nothing is lost, reordered, deduplicated or re-cased |
| `ReportRender.RenderedDependencies` | src/dumpbin.rs:51-55 | in a rendered report the dependency marker is found at the start |
| `ReportRender.RenderedSummary` | src/dumpbin.rs:56-60 | in a rendered report the first `Summary` is the heading right after the library lines, because no library and no part of the text before it holds the word |
| `ReportRender.RenderedSlices` | src/dumpbin.rs:61-67 | the text between the marker and `Summary` is the blank lines, the indented library lines and the gap before the heading; the text after `Summary` is the blank line and the summary row lines |
| `ReportRender.FieldsOfLibraryLines` | src/dumpbin.rs:63-64 | indented library lines, between blank lines, split at spaces into exactly the libraries, in order |
| `ReportRender.LibrariesRoundTrip` | src/dumpbin.rs:61-65 | the libraries read from the rendered window are exactly the libraries rendered |
| `ReportRender.RowLineTrim` | src/dumpbin.rs:69 | a row line trims to `count name`: the indent, the alignment padding and the carriage return all go |
| `ReportRender.RowRoundTrip` | src/dumpbin.rs:69-79 | one rendered row line is read back as that row |
| `ReportRender.EntriesOfSummaryLines` | src/dumpbin.rs:68-80 | summary row lines, after lines that yield no row, yield exactly the rows, in order |
| `ReportRender.SummaryRoundTrip` | src/dumpbin.rs:67-80 | the rows read from the rendered tail are exactly the rows rendered |
| `ReportRender.NoSummaryInMarker` | src/dumpbin.rs:51-56 | the dependency marker holds no `Summary` in any case |
| `ReportRender.NoMatchInLibraryLines` | src/dumpbin.rs:56-57 | library lines hold no `Summary` when none of the libraries does |
| `Registry.Reader.constructor` | src/dumpbin.rs:91 | a new reader holds the given contents and no open handles |
| `Registry.Reader.OpenKey` | src/dumpbin.rs:104-107 | opening an existing subkey of an open key hands out the next handle and records it as open; any other open fails and changes nothing |
| `Registry.Reader.CloseKey` | src/dumpbin.rs:127 | closing an open handle removes it from the open set and appends it to the close log; anything else changes nothing |
| `Registry.Reader.EnumerateKeys` | src/dumpbin.rs:85-88 | listing succeeds exactly when the handle names a key whose subkeys can be listed, and gives those subkeys |
| `Registry.Reader.ReadValue` | src/dumpbin.rs:108-114 | reading succeeds exactly when the handle names a key that has the value, and gives that value |
| `Locator.CurrentArchInjective` | src/dumpbin.rs:174-184 | the four architectures have four distinct directory names |
| `Locator.TryCandidate` | src/dumpbin.rs:102-128 | one pass replaces the selection by the installation's `dumpbin.exe` exactly when all four tests pass, and otherwise keeps it; the compiler subkey, if it opened, is closed exactly once, and no other handle changes |
| `Locator.SelectCandidate` | src/dumpbin.rs:100-132 | the loop selects the last hit in list order, closes every subkey it opened exactly once and in opening order, and leaves the handles open before the loop open |
| `Locator.LastHitIsLast` | src/dumpbin.rs:100-128 | a selection is the hit of some installation with no hit after it, and there is no selection exactly when no installation is a hit |
| `Locator.LastHitOf` | src/dumpbin.rs:124-126 | a hit with no hit after it is the selection: a later hit replaces an earlier one |
| `Locator.RangeDistinct` | src/dumpbin.rs:104-127 | the close log the loop appends is the handles it opened, each exactly once, in order |
| `Locator.LocateDumpbin` | src/dumpbin.rs:90-133 | for the directory name `current_arch` gives, the result is the reference `Located`; a failed root open changes nothing; a failed listing closes the root key; on every other path the root key stays open and only the loop's subkeys are closed |
| `Locator.LocateDumpbinForVc` | src/dumpbin.rs:135-172 | for the directory name `current_arch` gives, the result is the reference `LocatedForVc`; the root key is never closed, and only the loop's subkey is |
| `Locator.LocatedForVcIsCandidate` | src/dumpbin.rs:138-171 | `locate_dumpbin_for_vc(vc)` gives the `dumpbin.exe` of `vc` when its four tests pass, and `No DumpBin found!` otherwise |
| `Locator.New` | src/dumpbin.rs:21-25 | `DumpBin::new` succeeds exactly when `locate_dumpbin` does, holding its path, and otherwise passes its error on; the handles end as `locate_dumpbin` leaves them, the installations key open unless listing failed |
| `Locator.ForKit` | src/dumpbin.rs:29-33 | `DumpBin::for_kit(version)` succeeds exactly when `locate_dumpbin_for_vc(version)` does, holding its path, and otherwise passes its error on; the installations key, once opened, stays open and only the loop's subkey is closed |
| `Locator.ForVc19` | src/dumpbin.rs:34-38 | `DumpBin::vc19` gives what `for_kit("19.0")` gives, and leaves the handles as it does |

## Left out

- Running the tool (src/dumpbin.rs:41-49) is left out: spawning `dumpbin /DEPENDENTS`, capturing its output and the UTF-8 (or lossy) decoding are I/O. The parser takes the decoded text as its input, so the `Io` error of a failed spawn (src/dumpbin.rs:44) is never produced by the model.
- The regex engine is not modelled. A case-insensitive regex built from a literal is modelled as a leftmost literal search under simple case folding. The folding is ASCII plus U+017F (long s) and U+212A (Kelvin sign), the only non-ASCII characters that fold to an ASCII letter.
- String positions are indices into a sequence of Unicode scalar values, not UTF-8 byte offsets. The markers start and end on character boundaries, so the slices are the same.
- `LiveRegistryReader` is replaced by the in-memory `Registry.Reader`. Every failing call returns one opaque `ForensicError` value, where the live reader reports different errors.
- `Registry.Reader.OpenKey` and `Registry.Reader.ReadValue` match key paths and value names exactly. The Windows registry matches them case-insensitively, so the model does not cover an installation recorded under a differently cased name.
- `Path::parent`, `Path::join` and `Path::exists` are given as functions in a `FileSystem` value, with no properties assumed.
- `current_arch` (src/dumpbin.rs:174-184) is a compile-time choice. It is modelled as the function `CurrentArch` of a `TargetArch` parameter. `LocateDumpbin`, `LocateDumpbinForVc` and the `DumpBin` constructors take that parameter and use `CurrentArch` of it. The shared loop `SelectCandidate` and the reference definitions hold for any directory name.
- The `Display` renderings of `std::io::Error` and the `{:?}` rendering of `ForensicError` are foreign code, kept as opaque strings.
- The end-to-end test (src/dumpbin.rs:187-192) needs a real toolchain and a real binary.
- `ReportRender.RenderParses`: the round trip is proved for summary counts written in decimal. The tool prints section sizes in hexadecimal, which the parser reads as decimal digits or as 0 (`ReportParser.CountOfHexSize`), so a report the tool prints does not in general read back to its true sizes.
- `ReportRender.RenderParses`: the rendered report starts at the dependency heading. The banner, the `Dump of file` line and the file type line the tool prints before it are not written, since the parser reads nothing before the marker.
- `src/lib.rs` holds only module declarations and re-exports, so there is nothing in it to model.
