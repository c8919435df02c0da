# rbStata / wbStata helpers in Dafny

rbStata and wbStata are two editions of a command-line tool that rewrites
Stata `.dta` files in an older format version. It is a thin layer over
pandas. Apart from the reader and writer it delegates to, it holds a few
pure helpers:

- `normalize_filename` deletes all whitespace from a file name token.
- `normalize_dta_filename` appends `.dta` unless the path's name already
  has that suffix.
- `is_dta_file` checks the suffix and that the file exists.
- `add_suffix` inserts a suffix before the single dot of a name.
- `get_output_name` picks the output file name. It tries overwrite, then
  an explicit output name, then a suffix, then the tool's default suffix.
- `convert_dta` maps the Stata version to a pandas format revision,
  truncates variable labels to 80 characters, and writes. On a
  `UnicodeEncodeError` it transliterates the text columns and writes once
  more.

The two editions carry the same helpers. `rbStata/helpers.py` has default
suffix `"-rbstata"`. Lines 16-237 of `wbStata/cli.py` hold the same code,
one line further down, with default suffix `"-wbstata"`. The model
defines each helper once and passes the default suffix as a parameter.
`OutputNames.RbStataDefaultSuffix` and `OutputNames.WbStataDefaultSuffix`
are the two constants.

Modules:

- `Results` (`results.dfy`): `Option`, `Result`, and the `Error` values
  that stand for the exceptions the helpers raise.
- `Filenames` (`filenames.dfy`): whitespace removal, the `pathlib` name
  and suffix rule, `normalize_dta_filename` and `is_dta_file`.
- `OutputNames` (`output_names.dfy`): `str.split` and `str.join` on one
  separator, `add_suffix`, the naming policy and `get_output_name`.
- `Conversion` (`conversion.dfy`): the version table, label truncation,
  the transliteration repair, and the write/retry control flow of
  `convert_dta`.

Behaviour worth knowing:

- The suffix test uses `pathlib.PurePath` on POSIX. The name is the last
  path component after empty and `.` components are dropped. Its suffix
  starts at the last dot, and only if that dot is neither the first nor
  the last character of the name. So `".dta"` becomes `".dta.dta"` (a
  hidden name has no suffix), and `"census.dta/"` is returned unchanged.
  This rule, not "the text ends in `.dta`", is what the code does.
  `Filenames.NormalizeDtaFilenameSuffixRule` proves both cases.
- `add_suffix` unpacks `filename.split(".")` into two names. It does not
  split at the first dot. A path with any other number of dots raises
  `ValueError`: `"./x.dta"`, `"census.2019.dta"`, `"census"`. The model
  returns `Failure(UnpackError(n))`, where `n` is the number of pieces.
- The repair pass is all-or-nothing per column. `df[col].apply(anyascii)`
  raises `TypeError` at the first non-text value, so that column keeps
  every value, text included. A column of text alone is transliterated.

## Model

| member | source | states |
|---|---|---|
| Filenames.RemoveWhitespace | rbStata/helpers.py:34-35 | the result holds no whitespace and is never longer than the input |
| Filenames.RemoveWhitespaceKeepsCharacters | rbStata/helpers.py:34-35 | every non-whitespace character occurs in the result exactly as often as in the input |
| Filenames.RemoveWhitespaceAppend | rbStata/helpers.py:34-35 | removal distributes over concatenation, so the kept characters stay in their original order |
| Filenames.RemoveWhitespaceIdentity | rbStata/helpers.py:34-35 | removal returns its input unchanged exactly when the input has no whitespace |
| Filenames.RemoveWhitespaceAllSpace | rbStata/helpers.py:34-35 | a run of whitespace is deleted outright, not collapsed to one space |
| Filenames.TrimStart | rbStata/helpers.py:35 | the leading half of `strip()`: the result is a suffix of the input, everything dropped is whitespace, and it does not start with whitespace |
| Filenames.TrimEnd | rbStata/helpers.py:35 | the trailing half of `strip()`: the result is a prefix of the input, everything dropped is whitespace, and it does not end with whitespace |
| Filenames.Strip | rbStata/helpers.py:35 | `strip()` leaves no whitespace at either end and is the identity on whitespace-free text |
| Filenames.NormalizeFilename | rbStata/helpers.py:15-36 | the normalised name has no whitespace; the trailing `strip()` finds nothing left, so the result is the removal alone |
| Filenames.NormalizeFilenameIdempotent | wbStata/cli.py:35-36 | normalising twice is normalising once |
| Filenames.NormalizeFilenameDropsGap | rbStata/helpers.py:34-35 | for any whitespace-free `a` and `b` and any all-whitespace `gap`, `a + gap + b` normalises to `a + b` |
| Filenames.NormalizeFilenameDocExamples | rbStata/helpers.py:24-27 | a name without whitespace, such as "File.dta", normalises to itself, and so does that name with five spaces on each side |
| Filenames.NormalizeFilenameTestExample | tests/test_rbstata.py:41-47 | "Cens  us.dta" normalises to "Census.dta" |
| Filenames.RFind | rbStata/helpers.py:56 | the index of the last occurrence of a character, or -1 when there is none; no occurrence follows it |
| Filenames.RFindIs | rbStata/helpers.py:56 | an index that holds the character, with none after it, is the one `RFind` returns |
| Filenames.AfterLastHasNone | rbStata/helpers.py:55-56 | the text after the last occurrence of a character does not contain that character |
| Filenames.LastComponent | rbStata/helpers.py:55-56 | the raw text after a path's last '/' holds no '/' |
| Filenames.PathName | rbStata/helpers.py:55-56 | a path's name holds no '/' and is never "." |
| Filenames.PathNameOfLastComponent | rbStata/helpers.py:55-56 | when the text after the last '/' is non-empty and not ".", that text is the name |
| Filenames.NameSuffix | rbStata/helpers.py:56 | a suffix is empty, or it is a proper ending of the name that starts at the name's last '.' |
| Filenames.HasDtaSuffix | rbStata/helpers.py:56 | `Path(p).suffix == ".dta"` holds exactly when the path's name ends in ".dta" with at least one character before it (the same test is at rbStata/helpers.py:85) |
| Filenames.NameSuffixIsDta | rbStata/helpers.py:56 | a name has suffix ".dta" exactly when it ends in ".dta" with at least one character before that |
| Filenames.BareNameHasDtaSuffix | rbStata/helpers.py:55-56 | for a name without '/', the suffix test means "ends in .dta and is longer than .dta" |
| Filenames.JoinedPathHasDtaSuffix | rbStata/helpers.py:55-56 | a directory prefix plays no part in the suffix test |
| Filenames.NormalizeDtaFilename | rbStata/helpers.py:55-60 | the path is only extended, so a directory prefix survives; it is unchanged exactly when its name has suffix ".dta", and otherwise gains exactly ".dta" |
| Filenames.NameAfterAppend | rbStata/helpers.py:57 | appending text without '/' and at least two long, such as ".dta", appends it to the last component, which becomes the name |
| Filenames.NoSlashAfterAppend | rbStata/helpers.py:57 | appending text without '/' adds no '/' after the last one |
| Filenames.NormalizedHasDtaSuffix | rbStata/helpers.py:55-60 | the result has the ".dta" suffix exactly when the input already had it, or the input is non-empty and does not end in '/' |
| Filenames.NormalizeDtaFilenameIdempotent | wbStata/cli.py:56-61 | normalising twice equals normalising once exactly when the input had the suffix, or is non-empty and does not end in '/' |
| Filenames.NormalizeDtaFilenameStems | tests/test_rbstata.py:19-38 | for every dot-free stem and every directory: the bare stem gains ".dta", the stem with ".dta" is kept, and both hold under the directory (the wbStata test at tests/test_wbstata.py:7-26 is the same) |
| Filenames.NormalizeDtaFilenameBareStem | tests/test_rbstata.py:19-28 | a bare dot-free stem gains ".dta", and the stem with ".dta" is kept |
| Filenames.NormalizeDtaFilenameJoinedStem | tests/test_rbstata.py:30-38 | the same two cases under any directory, which is kept |
| Filenames.StemWithExtension | tests/test_rbstata.py:19-38 | a dot-free stem does not end in ".dta", and with ".dta" appended it is a bare name that does |
| Filenames.PathNameTrailingSlash | rbStata/helpers.py:55 | a trailing '/' does not change a path's name |
| Filenames.NormalizeDtaFilenameSuffixRule | rbStata/helpers.py:55-60 | ".dta" and "dir/.dta" gain a second ".dta"; a name with the suffix followed by '/' is kept |
| Filenames.IsDtaFile | rbStata/helpers.py:84-93 | succeeds, with true, exactly when the name has the ".dta" suffix and the file exists; otherwise the error names the path |
| Filenames.IsDtaFileRefusesOtherExtensions | tests/test_rbstata.py:96-99 | a bare name that does not end in ".dta" is refused whether or not the file exists |
| OutputNames.Split | rbStata/helpers.py:183 | a split has one more piece than the separator's count, and no piece holds the separator |
| OutputNames.JoinSplit | rbStata/helpers.py:183 | joining the pieces of a split restores the string |
| OutputNames.SplitJoin | rbStata/helpers.py:183 | splitting a join of separator-free pieces restores the pieces |
| OutputNames.SplitWithoutSeparator | rbStata/helpers.py:183 | a string without the separator splits into itself alone |
| OutputNames.SplitAfterHead | rbStata/helpers.py:183 | a separator-free head followed by the separator splits off as the first piece |
| OutputNames.AddSuffix | rbStata/helpers.py:183-185 | succeeds exactly when the name has one '.'; otherwise raises the unpacking error for the number of pieces; on success the result is as long as name and suffix together |
| OutputNames.AddSuffixInsertsBeforeDot | wbStata/cli.py:184-185 | for every stem and extension without '.', `stem.ext` becomes `stem + suffix + "." + ext`; this covers "census.dta" and "dir/census.dta" of the tests |
| OutputNames.OneDotSplit | rbStata/helpers.py:183 | a name with one '.' is its two pieces joined by '.' |
| OutputNames.AddSuffixEmpty | rbStata/helpers.py:175-176 | the empty suffix returns every accepted name unchanged |
| OutputNames.AddSuffixComposeParts | rbStata/helpers.py:183-185 | adding `s1` and then `s2` to stem.ext equals adding `s1 + s2` once, when `s1` has no '.' |
| OutputNames.AddSuffixCompose | rbStata/helpers.py:183-185 | the same for every name with one '.' |
| OutputNames.AddSuffixRefusesTwoDots | rbStata/helpers.py:183 | a name with two dots ("./x.dta", "census.2019.dta") raises `ValueError` for three pieces, whatever the suffix |
| OutputNames.GetOutputName | rbStata/helpers.py:225-236 | overwrite returns the input, whatever else is set; otherwise an explicit output wins; it fails exactly when neither applies and the input does not have one '.'; a suffixed name is as long as the input plus the suffix in use |
| OutputNames.GetOutputNameNoClobber | rbStata/helpers.py:225-236 | without overwrite, and without an explicit output equal to the input, the output never names the input while the suffix in use is non-empty |
| OutputNames.GetOutputNameDefaultIsSuffix | wbStata/cli.py:232-237 | leaving the suffix out is the same as passing the tool's default suffix |
| OutputNames.RbStataOutputNameExamples | rbStata/helpers.py:209-218 | the rbStata docstring cases, which are also the cases of tests/test_rbstata.py:60-84, for every name stem.ext: overwrite keeps the name, also with a suffix; the suffix is inserted; an explicit output is used; the default inserts "-rbstata" |
| OutputNames.WbStataOutputNameExamples | wbStata/cli.py:210-219 | the same cases for the wbStata copy, with default "-wbstata" |
| Conversion.FormatRevision | rbStata/helpers.py:120-130 | the lookup succeeds exactly on versions 10 to 17; otherwise it raises `KeyError` with that version; within the table, no explicit revision exactly from 15 on |
| Conversion.FormatRevisionValues | wbStata/cli.py:121-131 | 10, 11 and 12 map to 114, 13 to 117, 14 to 118, and 15, 16 and 17 to the library default |
| Conversion.FormatRevisionMonotone | rbStata/helpers.py:120-129 | explicit revisions never decrease as the Stata version grows |
| Conversion.TruncateLabel | rbStata/helpers.py:138-139 | the result is a prefix of the label with length min(len, 80) |
| Conversion.TruncateLabels | rbStata/helpers.py:137-139 | the same keys; every label at most 80 long and a prefix of the original; a label of 80 or more becomes exactly its first 80 characters; labels of at most 80 unchanged |
| Conversion.TruncateVariableLabels | wbStata/cli.py:138-140 | the in-place loop over the keys computes exactly the truncated map, in any key order |
| Conversion.TruncateLabelsIdempotent | rbStata/helpers.py:137-139 | truncating twice is truncating once |
| Conversion.TransliterateColumn | rbStata/helpers.py:153-156 | name and length kept; a column holding any non-text value comes back unchanged; in a column of text alone every cell becomes the transliteration of its text |
| Conversion.RepairFrame | rbStata/helpers.py:151-156 | the frame keeps its number of columns, and each column gets the per-column repair |
| Conversion.RepairFrameMakesTextAscii | rbStata/helpers.py:151-156 | when the transliteration yields ASCII, every cell of an all-text column is ASCII text after the repair |
| Conversion.RepairFrameKeepsAscii | rbStata/helpers.py:151-156 | a frame whose text is ASCII is left unchanged by a transliteration that leaves ASCII alone |
| Conversion.ConvertDta | rbStata/helpers.py:120-157 | an unknown version raises `KeyError` and writes nothing; otherwise the first write gets the input frame; at most two writes; a second write happens exactly when the first raised the encoding error, and it gets the repaired frame; every write uses the looked-up revision, no index, the data label and the truncated labels; success exactly when the last write succeeded, otherwise that write's error |
| Conversion.SupportedVersionsReachTheWriter | tests/test_rbstata.py:110-116 | every version from 10 to 17 passes the lookup and reaches the writer |
| Conversion.WrittenLabelsFit | rbStata/helpers.py:136-146 | every write carries a label for each source key; a label of 80 or more arrives as its first 80 characters, a shorter one unchanged |

## Left out

- The command-line layer: all of `rbStata/cli.py` and `wbStata/cli.py`
  from line 260 on. This covers click options, interactive prompts, the
  progress bar, coloured messages, the batch loop and exit codes. It is
  user-interface plumbing around the helpers above.
- `glob_dta_files`: it lists files on disk with `glob`, so it depends
  wholly on the filesystem.
- `is_dta_file`'s `Path.is_file()`: the filesystem is the parameter
  `isFile` of `Filenames.IsDtaFile`.
- pandas' `read_stata` and `to_stata`:
  - what the input yields is the `Conversion.Source` value;
  - the writer is the parameter `write`, which returns `Written`,
    `EncodingFailure` or `OtherFailure`;
  - failures of the reads are not modelled;
  - the bytes written, and what a failed write leaves at the output path,
    are not modelled.
- Conversion.ConvertDta: the retry re-reads the input with
  `pd.read_stata(input)`. The model assumes that read returns the same
  frame as the first one. It does not model input and output being the
  same file, where a failed first write could change what the retry reads.
- `anyascii`: the parameter `translit`. The model assumes it accepts every
  text value and raises `TypeError` on every other one.
- Python's Unicode whitespace class: the parameter `isSpace`, not a list of
  characters. `\s` in a `str` pattern and `str.strip()` use the same class
  in Python, so one parameter serves both.
- Windows paths: names and suffixes follow POSIX `pathlib` only.
- Lengths count Dafny `char` values, which are Unicode scalar values, as
  Python's `len` counts code points. Lone surrogates are not modelled.
- `warnings.simplefilter`: it only silences library warnings.
- `setup.py`: packaging.
- `tests/test_wbstata.py:29-31` and `tests/test_wbstata.py:44-69`: they
  call `convert_dta` and `get_output_name` with a `version` keyword that
  the code at `wbStata/cli.py:97` and `wbStata/cli.py:189-194` does not
  accept. They also expect a `"-v13"` default. No property is taken from
  them.
