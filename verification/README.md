# Pulse-simulation pipeline core, modelled in Dafny

The repository drives allpix² simulations of single particles hitting a
SpacePix3 sensor and post-processes their ROOT output. Its core is a handful
of deterministic transformations. This project models them and proves what
they promise:

- **Run metadata from file names** (`parseFilename`, `parseDegree`,
  `InitialParameters` in OutputReader3.C). A name of the form
  `data_auto_<x>_<y>_<particle>_<a>deg_<b>deg_<c>deg.root` is turned into a
  particle type, an energy and three sensor rotations. Modules
  `FilenameParser` and `FilenameLayout`.
- **Flattening with run ownership** (`flattenPixelChargeTree`). Every pixel
  charge of the merged tree becomes one row, stamped with the metadata of the
  run that owns its event. Ownership is recovered by a
  `run_idx`/`run_counter` cursor. Module `Flatten`:
  - `ByRuns` is a run-by-run ownership specification.
  - `FlattenPixelChargeTree` is the cursor loop, proved to compute it.
- **Merge bookkeeping** (`treeMerge`). Directory entries are skipped or
  accepted, and one metadata entry is built for every merged tree. Module
  `TreeMerge`, which also composes the merge with the flattening.
- **Config templating** (`replace_parameter` in automation.cpp and in
  automation.py). The two scripts use different rules:
  - `ConfigCpp`: getline split, exact trimmed key, every line re-terminated.
  - `ConfigPy`: `splitlines`, stripped-prefix match, `"\n".join`, input
    returned as-is when nothing matches.
  - Both share the line-level edit in `LineEdit`. Character helpers with the
    C++ library semantics are in `Strings`.
- **Run generation** (the nested loops of both `main`s). The sweep covers 51
  energies, 2 particle types and 3 orientations. It fixes the config, output
  and task names and the run ids. Modules `Sweep`, `RunsCpp` and `RunsPy`.
  The output file name is proved to parse back, through `parseFilename`, into
  the run's own parameters.
- **Per-event pixel matrix** (`read_pixelCharge` in
  OutputReaderExperimental.C). A 64×64 matrix is zeroed for each event, and
  the last write to a pixel wins. Module `PixelMatrix`; the records are in
  `PixelCharge`.

ROOT trees become sequences:
- a tree is a `seq<Event>`;
- an event is the `seq<Record>` of its pixel charges;
- `TTree::MergeTrees` is concatenation.

Numbers that the source hands to `std::stof` are kept as the exact text that
is handed over. Which texts `stof` accepts is modelled (`StofAccepts`); the
float value is not.

Where the code and its written description disagree, the model follows the
code:
- `event_idx` is `run_counter`, the event's offset within its run, not a
  global event number (OutputReader3.C:165). `Flatten.FlattenExample` states
  the resulting numbering.
- The name may have more than eight `_`-segments. The extra ones are ignored,
  not rejected (OutputReader3.C:91-96).
- The angle is the text before the first `deg`, which need not end the
  segment (OutputReader3.C:51-53). `FilenameLayout.DegreeMarkerNeedNotBeSuffix`
  shows this.

## Model

| member | source | states |
|---|---|---|
| Strings.Find | OutputReader3.C:51 | `std::string::find`: the first position where the pattern occurs, and None exactly when it occurs nowhere |
| Strings.IndexOf | automation.cpp:31 | `find('=')`: the first position holding the character, with no earlier one, and None exactly when the character is absent |
| Strings.LastIndexOf | OutputReader3.C:81 | `find_last_of('.')`: the last position holding the character, with none after it, and None exactly when it is absent |
| Strings.ReplaceChar | automation.cpp:93 | `std::replace`: same length, every occurrence of the old character replaced and every other character kept |
| Strings.Trim | automation.cpp:33-36 | only spaces and tabs are removed, and only from the two ends: the key is the text at some offset with nothing but blanks before and after it, and it neither starts nor ends with a blank |
| Strings.TrimUnique | automation.cpp:33-36 | a text that is some `r` without blanks at its ends, padded with blanks, trims to exactly `r` |
| Strings.GetlineSplit | automation.cpp:30 | the pieces repeated `getline` yields contain no delimiter, and there are none exactly for the empty text |
| Strings.TerminatedGetlineSplit | automation.cpp:30-46 | writing each getline line back followed by `\n` gives the text again, with a final `\n` added only when it was missing |
| Strings.GetlineSplitTerminated | automation.cpp:39-44 | text written as delimiter-terminated delimiter-free lines is split back into exactly those lines |
| Strings.GetlineSplitJoined | OutputReader3.C:87-93 | delimiter-free pieces joined by the delimiter (`_` for file names), followed by nothing or by more delimited segments, come back as the first pieces of the split |
| Strings.DigitsValueNatToString | automation.cpp:88-91 | reading the printed decimal digits of a number back gives the number |
| Strings.NatToStringInjective | automation.cpp:88-91 | different whole numbers print as different decimal texts |
| LineEdit.FirstWhere | automation.cpp:30-42 | the index of the first line the matcher accepts: it is accepted, every earlier line is rejected, and None exactly when all lines are rejected |
| LineEdit.ReplaceFirst | automation.cpp:38-44 | only the first accepted line is replaced by the new line; with no accepted line the lines are unchanged; the line count is kept |
| LineEdit.ReplaceFirstKeepsRejected | automation.cpp:44 | a line the matcher rejects is copied unchanged |
| LineEdit.FirstWhereAt | automation.py:12-13 | an accepted line preceded only by rejected lines is the one the scan stops at |
| LineEdit.ReplaceFirstIdempotent | automation.cpp:24-47 | when the written line is itself accepted, a second identical edit changes nothing |
| LineEdit.ReplaceFirstAt | automation.py:12-15 | the edit is the line list with exactly the first match overwritten |
| LineEdit.ReplaceFirstInPlace | automation.cpp:38-41 | overwriting the first match with the line it already holds gives the lines back |
| LineEdit.ReplaceFirstUnmatched | automation.cpp:44 | with no accepted line every line is copied |
| LineEdit.ReplaceFirstUnmatchedText | automation.cpp:30-46 | with no accepted line, the rewritten text is the input with a missing final delimiter added |
| LineEdit.ReplaceFirstReadBack | automation.cpp:39-44 | when the new line holds no delimiter, reading the written text line by line gives exactly the edited lines |
| LineEdit.FirstWhereUnaffected | automation.cpp:105-109 | an edit for one matcher leaves another matcher's first match at the same index when neither line involved is accepted by the other |
| LineEdit.ReplaceFirstThree | automation.py:79-81 | three edits whose matchers do not take each other's lines hit three distinct lines, each overwritten with its own new line |
| LineEdit.FirstOfTwo | automation.py:13-15 | the scan stops at an accepted first line |
| LineEdit.ReplaceSecondOfTwo | automation.cpp:38-44 | when only the second of two lines is the first match, only that line is replaced |
| ConfigCpp.LineKey | automation.cpp:31-36 | a line has a key exactly when it contains `=`; the key has no `=`, uses only the line's characters and has no surrounding blanks |
| ConfigCpp.LineKeySpec | automation.cpp:31-36 | the key is the trimmed text before the first `=` |
| ConfigCpp.PaddedKey | automation.cpp:31-38 | blanks around the key do not matter: `before + param + after` in front of the first `=` keys the line `param` |
| ConfigCpp.ReplaceParameter | automation.cpp:24-47 | the output is empty exactly when the template is, and otherwise ends with a newline; ReplaceParameterLines, ReplaceParameterUnmatched and ReplaceParameterIdempotent state the rest |
| ConfigCpp.ReplaceParameterLines | automation.cpp:24-47 | when the value has no newline, the output read back line by line is the input's lines with at most the first line keyed `param` replaced by `param = value` |
| ConfigCpp.ReplaceParameterUnmatched | automation.cpp:30-46 | with no line keyed `param` the content comes back unchanged, except that a missing final newline is added |
| ConfigCpp.AssignmentKeyed | automation.cpp:39 | the line written for a parameter without `=` or surrounding blanks is keyed by that parameter |
| ConfigCpp.ReplaceParameterIdempotent | automation.cpp:24-47 | applying replace_parameter twice with the same arguments equals applying it once, when the value has no newline |
| ConfigCpp.LongerKeyDoesNotMatch | automation.cpp:33-38 | key matching is exact: a line keyed `param + suffix` is copied, and the following line keyed `param` is the one rewritten |
| ConfigCpp.SecondLineKeyed | automation.cpp:38 | a line keyed by a longer name is not the match; the parameter's own later line is |
| ConfigCpp.LongerKeyNotParam | automation.cpp:33-38 | an assignment line of `param + suffix` is never keyed `param` |
| ConfigCpp.ReplaceEachLines | automation.cpp:106-109 | a sequence of replace_parameter calls, read back line by line, is the same sequence of line edits |
| ConfigCpp.OtherKeyUnaffected | automation.cpp:105-109 | editing one key leaves the first line of any other key at its index |
| ConfigCpp.ReplacedLineKeyed | automation.cpp:39-40 | the line that replaced the match is keyed by the same parameter |
| ConfigCpp.ReplaceEachLineSpec | automation.cpp:106-109 | for edits of distinct keys, the first line of each key holds that edit's assignment, and every other line, including later lines with an edited key, is unchanged |
| ConfigPy.FirstBoundary | automation.py:11 | the first line-boundary character of a text, with the text before it a single line, and None exactly when the text is one line |
| ConfigPy.SplitLines | automation.py:11 | `str.splitlines`: every line is free of line boundaries, and there are no lines exactly for the empty text |
| ConfigPy.StripLeft | automation.py:13 | the removed prefix is all white space, and the result does not start with white space |
| ConfigPy.StripRight | automation.py:13 | the removed suffix is all white space, and the result does not end with white space |
| ConfigPy.Strip | automation.py:13 | only white space is removed, and only from the two ends: the result is the line at some offset with nothing but white space around it, and it neither starts nor ends with white space |
| ConfigPy.StripOfStripped | automation.py:13 | a line without surrounding white space is its own strip |
| ConfigPy.PrefixedAt | automation.py:13 | white space followed by `param` starts a line for `param` |
| ConfigPy.IndentedLinePrefixed | automation.py:13 | indentation does not hide a parameter: an indented `param` line is a line for `param` |
| ConfigPy.EditLines | automation.py:16 | with no matching line the content is returned unchanged |
| ConfigPy.SplitLinesJoin | automation.py:15 | single lines joined with `\n` and split again come back as the same lines, when the last one is not empty |
| ConfigPy.SplitLinesCons | automation.py:11 | a single line followed by `\n` splits off as the first line |
| ConfigPy.JoinEndsWithLastPiece | automation.py:15 | the joined text ends with the last line's last character |
| ConfigPy.EditLinesReadBack | automation.py:11-15 | on a match, splitting the result gives the input's lines with only the first match replaced, so the line count is kept |
| ConfigPy.EditLinesEnding | automation.py:15 | on a match, when the template's last line is non-empty, the result does not end with a line break, so a trailing newline of the template is dropped |
| ConfigPy.TrailingEmptyLineKeepsBreak | automation.py:11-15 | a template whose single line is followed by an empty line (`a = 1\n\n`) still ends with one line break after the edit |
| ConfigPy.AssignmentSingleLine | automation.py:14 | the line `param = value` holds no line break and does not end with one |
| ConfigPy.ReplaceParameter | automation.py:10-16 | with no line whose stripped text starts with `param`, the template is returned as it was; ReplaceParameterMatched states the matched case |
| ConfigPy.ReplaceParameterMatched | automation.py:10-15 | on a match: the lines read back are the template's with only the first prefixed line replaced, and the trailing newline is gone |
| ConfigPy.ReplaceParameterUnmatched | automation.py:16 | with no line whose stripped text starts with `param`, the template is returned byte for byte |
| ConfigPy.LongerKeyMatches | automation.py:13 | matching is by prefix: a line for `param + suffix` before the line for `param` is the one taken |
| ConfigPy.LongerAssignmentPrefixed | automation.py:13 | the assignment line of a longer name that starts with `param` is taken as a line for `param` |
| ConfigPy.AssignmentEnds | automation.py:14 | an assignment line starts with its name and ends with its value's last character |
| ConfigPy.PrefixedWhenUnpadded | automation.py:13 | a line without surrounding white space that starts with `param` is taken as a line for `param` |
| ConfigPy.AssignmentStripsTo | automation.py:13-14 | a written assignment, once stripped, still starts with its parameter's first character |
| ConfigPy.PrefixesExclusive | automation.py:13 | no line is taken by two parameters that differ in the first character |
| ConfigPy.AssignmentNotPrefixed | automation.py:13-14 | a written assignment is not taken by a parameter that differs in the first character |
| ConfigPy.OtherPrefixUnaffected | automation.py:79-81 | replacing one parameter's line leaves the first line of a parameter with another first character at its index |
| ConfigPy.EditLinesMatched | automation.py:11-15 | one edit on a match, for any matcher: the lines read back, a non-empty last line, and no final line break |
| ConfigPy.EditLinesThree | automation.py:79-81 | three edits whose matchers do not take each other's lines: three distinct lines, each holding its own new line, and no final line break |
| ConfigPy.ReplaceThree | automation.py:79-81 | three replace_parameter calls for parameters with different first characters: the first prefixed line of each holds its assignment, every other line is kept |
| FilenameParser.SkipCSpace | OutputReader3.C:100 | the white space `stof` skips: exactly the leading white space is removed, so the removed prefix is all white space and the rest does not start with white space |
| FilenameParser.SkipSign | OutputReader3.C:100 | the optional sign `stof` accepts: a leading `+` or `-` is removed, and a text without one is unchanged |
| FilenameParser.DigitsAccepted | OutputReader3.C:99-100 | a digit string, and two digit strings joined by `.`, are numbers to `stof` |
| FilenameParser.ParseDegree | OutputReader3.C:47-55 | a missing `deg` is the "Missing 'deg' suffix" error; otherwise the value is the text before the first `deg`, and it is returned exactly when `stof` accepts it |
| FilenameParser.ParseDegreeOfMarked | OutputReader3.C:51-54 | a number text without `deg`, followed by `deg` and anything, is read back exactly |
| FilenameParser.NoEarlierMarker | OutputReader3.C:51 | no `deg` starts inside a text that contains none |
| FilenameParser.StripExtension | OutputReader3.C:79-84 | only the text from the last `.` on is removed, and a name without `.` is used whole |
| FilenameParser.StripAppendedExtension | OutputReader3.C:80-84 | stripping a name plus `.ext` gives the name, whatever dots it contains |
| FilenameParser.ParseFilename | OutputReader3.C:107 | a parsed name always has numberOfEntries at its default of 1 |
| FilenameParser.ParseFilenameSpec | OutputReader3.C:86-107 | fewer than 8 segments is exactly the "not enough parts" error; otherwise the name parses iff the energy text and the three angle segments do; then energy is `seg2.seg3`, type is seg4, angles are the texts before `deg` in seg5-7 |
| FilenameLayout.LayoutNameSegments | OutputReader3.C:62 | a name in the documented layout is its eight fields joined by `_` |
| FilenameLayout.ParseLayoutName | OutputReader3.C:58-110 | round trip: a layout name, with any further segments and any extension, parses to the particle verbatim, the energy `x.y` and the three angles |
| FilenameLayout.LayoutSegments | OutputReader3.C:86-96 | the segments of a layout name at positions 2-7 are its energy digits, particle and `deg`-marked angles |
| FilenameLayout.ParseDegreeOfSuffixed | OutputReader3.C:47-55 | `a + "deg"` parses back to `a` |
| FilenameLayout.DegreeMarkerNeedNotBeSuffix | OutputReader3.C:51-53 | `"15degrees"` parses to `15`: `deg` need not end the segment |
| FilenameLayout.ParseShortMarked | OutputReader3.C:51-54 | a short digit string, `deg` and anything parses back to the digit string |
| Flatten.RunRowsLength | OutputReader3.C:173-185 | the rows of a run's events number the records of those events |
| Flatten.Span | OutputReader3.C:191-195 | as written, a run consumes numberOfEntries events when that is positive, and exactly one event otherwise |
| Flatten.ExactSpan | OutputReader3.C:227-228 | a run's intended span is its file's entry count |
| Flatten.ByRunsStep | OutputReader3.C:163-195 | the ownership specification, one event at a time: the event's rows, then the rest with the counter bumped or the next run started |
| Flatten.ByRuns | OutputReader3.C:159-197 | the run-by-run ownership specification succeeds exactly when the runs' spans cover all events, and then has exactly one row per record of the merged tree; FlattenPixelChargeTree is proved to compute it |
| Flatten.FlattenAsWritten | OutputReader3.C:159-197 | the as-written flattening stays in bounds exactly when the sum of max(numberOfEntries, 1) is at least the number of events, and then emits one row per record |
| Flatten.FlattenCorrected | OutputReader3.C:227-228 | with each run owning exactly numberOfEntries events, the flattening succeeds exactly when the entry counts cover the events, and then emits one row per record |
| Flatten.FillEvent | OutputReader3.C:173-186 | the inner loop appends exactly the event's rows to those already emitted |
| Flatten.CursorStep | OutputReader3.C:163-195 | one turn of the cursor loop agrees with one step of the ownership specification |
| Flatten.CursorInvariantStep | OutputReader3.C:159-197 | the cursor loop's invariant survives the counter bump and comparison |
| Flatten.FlattenPixelChargeTree | OutputReader3.C:113-199 | the `run_idx`/`run_counter` loop computes exactly the run-by-run ownership result, with the unchecked metadata read as an explicit overflow error |
| Flatten.StampRunsOfEmpty | OutputReader3.C:173 | runs with no events yield no rows |
| Flatten.ByRunsOfTrees | OutputReader3.C:159-197 | when each run's span is its tree's length, every event of tree k, and only those, is stamped with run k's parameters and numbered from 0 |
| Flatten.FlattenExample | OutputReader3.C:159-197 | runs of 2 and 3 entries over events of 1, 2, 0, 3, 1 records give 7 rows, 3 for the first run and 4 for the second, with `event_idx` 0,1,1,1,1,1,2 |
| Flatten.EmptyRunTakesNextEvent | OutputReader3.C:191-195 | as written, a run with 0 entries still takes the next file's first event; the corrected flattening gives it to its own file |
| TreeMerge.Extension | OutputReader3.C:213 | `path::extension`: empty, or a proper suffix that starts with its only `.`; empty when the name has no `.` |
| TreeMerge.RootExtensionOf | OutputReader3.C:213 | any name ending in `.root` with something before it has the extension `.root`; `.root` alone has none |
| TreeMerge.AcceptedFiles | OutputReader3.C:212-223 | an entry is kept for parsing exactly when it is listed and is a regular `.root` file with a PixelCharge tree |
| TreeMerge.AcceptedFilesSingle | OutputReader3.C:212-223 | a one-entry listing keeps its entry exactly when it is accepted |
| TreeMerge.AcceptedFilesAppend | OutputReader3.C:208-242 | filtering a listing piecewise is filtering it whole |
| TreeMerge.MergeCandidates | OutputReader3.C:229 | a successful merge has one metadata entry per accepted file |
| TreeMerge.MergeSucceedsIff | OutputReader3.C:225 | the merge aborts exactly when some accepted file's name does not parse |
| TreeMerge.MergeEvents | OutputReader3.C:239-247 | the merged tree is the accepted files' trees concatenated in directory order |
| TreeMerge.MergeParameters | OutputReader3.C:225-229 | metadata entry k is accepted file k's parsed name with numberOfEntries set to its entry count |
| TreeMerge.MergeFailureIsFirstBadName | OutputReader3.C:225 | a failed merge reports the first accepted file whose name does not parse |
| TreeMerge.MergeOnlyAccepted | OutputReader3.C:212-223 | the merge result depends only on the accepted entries |
| TreeMerge.AcceptedFilesIdempotent | OutputReader3.C:212-223 | filtering accepted entries again keeps them all |
| TreeMerge.SkippedEntryChangesNothing | OutputReader3.C:212-223 | a non-regular, non-`.root` or tree-less entry contributes no events or metadata and cannot make the merge fail, wherever it is listed |
| TreeMerge.SumOfLengths | OutputReader3.C:247 | the trees' lengths add up to the merged tree's length |
| TreeMerge.MergedEntryCounts | OutputReader3.C:227-247 | the metadata list is as long as the tree list, entry k counts tree k's events, and the counts add up to the merged length |
| TreeMerge.MergeThenFlattenCorrected | OutputReader3.C:247-262 | with the corrected spans, merging then flattening stamps every event of file k, and only those, with file k's metadata |
| TreeMerge.MergeThenFlattenAsWritten | OutputReader3.C:247-262 | as written, the same holds when every accepted file's tree is non-empty |
| TreeMerge.MergeThenFlattenNeverOverflows | OutputReader3.C:262 | the metadata treeMerge builds always covers the merged tree, so the unchecked lookup stays in bounds |
| TreeMerge.TreeMergeOutput | OutputReader3.C:202-268 | treeMerge succeeds exactly when every accepted name parses, and a failure is always a parseFilename failure, never a flattening overflow |
| TreeMerge.TreeMergeOutputSpec | OutputReader3.C:202-268 | treeMerge fails only through parseFilename, exactly when an accepted name does not parse; with non-empty trees each file's rows carry its own metadata |
| PixelCharge.TotalRecordsAppend | OutputReader3.C:247 | the record count of concatenated trees is the sum of their counts |
| PixelCharge.ConcatEmpty | OutputReader3.C:247 | an empty merge comes only from empty trees |
| PixelMatrix.LastChargeSpec | OutputReaderExperimental.C:53-60 | a cell holds 0 when no record of the event writes it, and otherwise the charge of the last record at that pixel |
| PixelMatrix.FillMatrix | OutputReaderExperimental.C:51-60 | after an event every cell holds the charge of the event's last record at that pixel, or 0 |
| PixelMatrix.ReadPixelCharge | OutputReaderExperimental.C:48-61 | one 64×64 matrix per event; each cell holds the charge of that event's last record at the pixel, or 0 |
| Sweep.BaseName | OutputReader3.C:216 | the last path component: no `/`, and a suffix of the path |
| Sweep.BaseNameUnder | OutputReader3.C:216 | a name without `/` under a directory is its own last component |
| Sweep.ReplaceAbsentChar | automation.cpp:93 | replacing a character that does not occur changes nothing |
| Sweep.EnergyFileTextParts | automation.cpp:88-93 | the file-name energy is the whole GeV, `_`, then the tenths digit |
| Sweep.OrientationFileTextParts | automation.cpp:97-98 | the orientation "a b c" with `deg` markers becomes `adeg_bdeg_cdeg` |
| Sweep.LeadingDigitAccepted | OutputReader3.C:100 | a text starting with a digit is a number to `stof` |
| Sweep.DigitsArePlainAngle | OutputReader3.C:104-106 | a digit string contains no separator and no `deg`, and `stof` accepts it |
| Sweep.AnglesArePlain | automation.cpp:81 | every angle of every orientation reads back whole |
| Sweep.OutputLayout | automation.cpp:102 | the output file name is in the eight-segment layout |
| Sweep.OutputFileNameLayout | automation.cpp:100-102 | the generated output file name has the energy digits, particle and angles as its segments |
| Sweep.OutputBaseName | automation.cpp:102 | the output path's last component is the output file name |
| Sweep.OutputNameRoundTrip | automation.cpp:102 | parseFilename recovers the particle verbatim, the energy text and the orientation's three angles from a generated output file, whose extension `.root` the merge accepts |
| Sweep.OutputFileNameParses | automation.py:77 | the generated output file name parses back to its run's parameters |
| Sweep.EnergyTextInjective | automation.cpp:88-91 | different energy steps print differently |
| Sweep.OutputPathsDistinct | automation.cpp:102 | equal output paths mean the same energy, particle type and orientation |
| Sweep.ParticleOf | automation.cpp:95 | the particle index of a run position is a valid index |
| Sweep.OrientationOf | automation.cpp:96 | the orientation index of a run position is a valid index |
| Sweep.RunIndexInverse | automation.cpp:115 | the run id of the (energy, particle, orientation) loop position maps back to that position, and is below 306 exactly for the 51 energies |
| Sweep.RunIndexOnto | automation.py:87-88 | every run id is the id of exactly the loop position it decodes to |
| Sweep.OutputPathsOfRunsDistinct | automation.cpp:84-118 | no two runs of the sweep write the same output file |
| Sweep.OutputOfRunParses | automation.py:69-88 | the output file of run k parses back to run k's particle, energy and angles |
| Sweep.RunsUpTo | automation.cpp:84-118 | the first n runs, run k being the run at position k |
| Sweep.GenerateRuns | automation.cpp:84-118 | 306 runs with ids 0, 1, 2, … in loop order; run k has energy step k / 6, particle type (k / 3) % 2, orientation k % 3 |
| Sweep.PrepareRun | automation.cpp:97-115 | the loop body builds run k's names, edited configs and task |
| RunsCpp.GenerateRuns | automation.cpp:84-118 | run k's task and its configs edited for run k's energy, particle type and orientation |
| RunsCpp.MainConfig | automation.cpp:106-109 | the main config is empty exactly when the template is, and otherwise ends with a newline |
| RunsCpp.DetectorConfig | automation.cpp:105 | the detector config is empty exactly when the template is, and otherwise ends with a newline |
| RunsCpp.MainConfigAsEdits | automation.cpp:106-109 | the main config is the four replacements applied in source order |
| RunsCpp.ReplaceCharKeepsAbsent | automation.cpp:93 | `std::replace` brings in no new character except the replacement |
| RunsCpp.RunTagSingleLine | automation.cpp:100-102 | the energy and run tag contain no newline |
| RunsCpp.MainEditsSingleLine | automation.cpp:106-109 | the four values fit on one line and the four keys differ |
| RunsCpp.MainConfigContents | automation.cpp:105-109 | read back, the first line keyed file_name, source_energy, particle_type and detectors_file each holds the run's value; every other line, including later lines with one of these keys, is the template's |
| RunsPy.GenerateRuns | automation.py:65-88 | run k's task and its configs edited for run k's energy, particle type and orientation |
| RunsPy.MainConfig | automation.py:79-81 | a template with no line for file_name, source_energy or particle_type comes back unchanged |
| RunsPy.DetectorConfig | automation.py:82 | a detector template with no line for orientation comes back unchanged |
| RunsPy.EnergySingleLine | automation.py:72 | the energy texts hold no line break |
| RunsPy.RunTagSingleLine | automation.py:72-77 | the run's name fragment holds no line break |
| RunsPy.OutputPathSingleLine | automation.py:77-79 | the quoted output path holds no line break |
| RunsPy.QuotedSingleLine | automation.py:81 | quoting keeps a single line single |
| RunsPy.MainConfigContents | automation.py:79-81 | read back, the first line prefixed file_name, source_energy and particle_type each holds the run's value, every other line is the template's, and the final newline is gone |

## Left out

- ROOT and allpix I/O: `TFile`, `TTree` branches and entries, `Write`,
  `Print` and `ls`. Trees are sequences. `TTree::MergeTrees` is
  concatenation. A record is the values read through the PixelCharge
  accessors.
- Float conversion. `std::stof` is reduced to whether it accepts a text, and
  the parsed fields keep that text. Its `out_of_range` error and the float
  stored in the row are not modelled.
- The floating-point energy sweep. Energies are exact tenths, 5.0 to 10.0 GeV.
  The model takes both scripts' printed energies to be these 51 texts, with
  one decimal.
- Directory iteration order. The listing is a given sequence.
- Opening a file that has no PixelCharge tree becomes the candidate's absent
  tree.
- `create_directory`, template reading and config writing.
- The Docker command and `std::system` / `subprocess.run` exit codes.
- `std::async`, the mutex, `multiprocessing.Pool` and tqdm.
- All console output, including the matrix dump in OutputReaderExperimental.C.
- The analysis scripts NIST_energies.py, train_classifier.py and
  testing_classification_models.py.
- Integer widths. `int`/`long` overflow of counters, charges and pixel
  indices is not modelled, and records carry unbounded integers.
- `TTree::MergeTrees` on an empty list. It is modelled as an empty tree.
- Out-of-range pixel indices in read_pixelCharge. In-range indices are a
  precondition (`PixelMatrix.AllInMatrix`), since the source indexes the
  array without a check.
- ConfigPy.EditLinesReadBack: requires the template's last line to be
  non-empty. An empty last line would be dropped by the join and split.
- ConfigPy.ReplaceParameterMatched: the same requirement as
  EditLinesReadBack.
- ConfigPy.EditLinesMatched: the same requirement as EditLinesReadBack.
- ConfigPy.EditLinesThree: the same requirement as EditLinesReadBack.
- ConfigPy.ReplaceThree: the same requirement as EditLinesReadBack. It also
  requires the three parameters to differ in their first character, which
  holds for the script's keys.
- RunsPy.MainConfigContents: requires the template's last line to be
  non-empty and each key to prefix some line.
- RunsCpp.MainConfigContents: a key absent from the template is not
  described beyond its absence: the other lines are copied and a final
  newline is added (ConfigCpp.ReplaceParameterUnmatched).
- ConfigPy.EditLinesEnding: requires the template's last line to be
  non-empty. With a final empty line the result keeps one line break at the
  end (ConfigPy.TrailingEmptyLineKeepsBreak).
- TreeMerge.MergeThenFlattenAsWritten: requires every accepted tree to be
  non-empty. Otherwise the as-written rows differ from the per-file stamping
  (see Findings).

## Findings

| source | as written | input that shows it | evidently intended | confidence | as-written member | corrected member |
|---|---|---|---|---|---|---|
| OutputReader3.C:191-195 | `run_counter` is incremented before it is compared with numberOfEntries, so a run with 0 entries still consumes one event | two accepted files: the first has an empty PixelCharge tree, the second has 2 events `[a]`, `[b]`; the metadata is entries 0 and 2 | event `[a]` belongs to the second file and is numbered 0 | not executed | Flatten.EmptyRunTakesNextEvent | TreeMerge.MergeThenFlattenCorrected |

`Flatten.EmptyRunTakesNextEvent` exhibits the discrepancy:
- As written, event `[a]` is stamped with the empty file's metadata.
- Event `[b]` becomes event 0 of the second file.
- The corrected definition, `Flatten.FlattenCorrected`, gives each run exactly
  numberOfEntries events, and stamps both events with the second file's
  metadata as events 0 and 1.

`TreeMerge.MergeThenFlattenCorrected` proves the intended property of the
corrected definition for every listing: each file's events, and only those,
carry that file's metadata.

`Flatten.FlattenPixelChargeTree` and `TreeMerge.TreeMergeOutput` still model
the code as written. `TreeMerge.MergeThenFlattenAsWritten` shows the two
definitions agree whenever no accepted file has an empty tree.
