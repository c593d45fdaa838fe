# EV5 data-tape validation, modelled in Dafny

This project models the validation engine of the EV5 data-tape scripts. An
EV5 file is a list of text lines:
- `# ...` comments and blank lines are skipped;
- a header such as `--- SAFETY ---` opens a block;
- the lines after a header belong to that block.

The validator walks every block the schema knows, line by line. It cuts each
line at `|` and takes each schema field's column. Values that are there and
non-empty after `strip().upper()` are counted as checked. A value is then
reported under one of two checks:
- **field-type check** (off by default): the field type is not in the code
  catalogue;
- **code check** (on by default): the code is not among the catalogue's codes
  for that field type.

A second script lays the same catalogue out as a sheet:
- a header row of the field types in sorted order;
- one row per rank, where each cell is that field's code of that rank in
  sorted order, or empty once the field has no more codes.

Files and modules:

- `text.dfy` (`Text`) models the Python string operations the scripts rely on:
  - `str.strip()`, over the full `str.isspace` set;
  - `upper()`;
  - `split("|")`;
  - `", ".join(...)`;
  - `sorted()` on a set of strings, which lists the set once in increasing
    lexicographic order.
- `ev5_parser.dfy` (`Ev5Parser`) models `parse_ev5_blocks`.
  - Each line is classified as skipped, a header (with its block name) or
    content.
  - The header pattern `^-{2,}\s*([A-Z ]+)\s*-{2,}$` is a hand-written
    predicate, proved equivalent to a decomposition of the line into the
    pattern's five parts.
  - The block dictionary is a `Doc`: the keys in insertion order plus a map
    from name to stored lines.
  - The loop is the method `ParseEv5Blocks`, proved equal to the fold `Parse`.
- `code_index.dfy` (`CodeIndex`) models the catalogue index. Both scripts build
  it with the same loop: every record whose code name and code are non-empty
  after `strip().upper()` adds its code to its name's set.
- `ev5_validator.dfy` (`Ev5Validator`) models `validate_ev5_blocks`.
  - Each of its three nested loops is in a method proved equal to a fold
    over what it has walked so far:
    - `ValidateEv5Blocks` parses the file, builds the index and walks the
      blocks (the loop over `blocks.items()`);
    - `ValidateBlock` walks a block's lines;
    - `ValidateRow` walks the schema fields of one line.
  - `ValidateField` is the body of the innermost loop, for one field.
  - A `Tally` holds the checked count and the list of findings.
  - The folds and their lemmas take a `Reading` as a parameter. It says how a
    line is cut (`cut`) and how a value or field type is normalised (`norm`).
  - `ValidateEv5Blocks` instantiates it with `FileReading`, which is
    `split("|")` and `strip().upper()`. So every property proved for any
    reading holds for the script.
- `codes_workbook.dfy` (`CodesWorkbook`) models the row layout of
  `save_valid_codes_excel`, as the list of rows handed to the sheet.

## Model

| member | source | states |
|---|---|---|
| Text.Trim | validate.py:93 | strip() returns a string no longer than its input, with no whitespace at either end |
| Text.TrimWraps | validate.py:93 | strip() keeps a contiguous middle of the line, and only whitespace lies around it |
| Text.TrimUnique | validate.py:93 | a whitespace-free-ended infix surrounded only by whitespace is exactly what strip() returns |
| Text.TrimEmpty | validate.py:93-94 | a line strips to the empty string only if it is all whitespace, so only such lines are skipped as blank |
| Text.TrimIdempotent | validate.py:93 | stripping a stripped line changes nothing |
| Text.TrimWrapped | validate.py:99 | whitespace added on either side does not change what strip() returns |
| Text.IsSpace | validate.py:93 | the characters str.isspace() accepts, which strip() removes: tab to carriage return, the file, group, record and unit separators, space, U+0085, U+00A0, U+1680, U+2000 to U+200A, U+2028, U+2029, U+202F, U+205F and U+3000 |
| Text.Upper | validate.py:119-120 | upper() keeps the length; Text.UpperChars and Text.UpperResult state what it does to each character |
| Text.UpperChars | validate.py:136 | upper() maps each character on its own: a to z become A to Z, everything else is kept |
| Text.UpperResult | validate.py:119-120 | upper() leaves no lower-case letter, is idempotent, and leaves a string without lower-case letters unchanged |
| Text.UpperTrim | validate.py:136 | upper() and strip() commute |
| Text.Normalize | validate.py:136 | strip().upper() gives a string no longer than its input; Text.NormalizeShape and Text.NormalizeIdempotent state what it gives |
| Text.NormalizeShape | validate.py:119-120 | strip().upper() gives a string with no whitespace at either end and no lower-case letter |
| Text.NormalizeIdempotent | validate.py:136 | applying strip().upper() to its own result changes nothing |
| Text.FirstIndex | validate.py:129 | the first position of the separator: it holds the separator and no earlier position does |
| Text.Split | validate.py:129 | split("\|") gives one more piece than the line has bars, no piece contains a bar, and joining the pieces with a bar gives back the line |
| Text.Join | validate.py:163 | sep.join(parts): the pieces with the separator between each two; Text.Split and Text.SplitJoin show it undoes split("\|") and is undone by it |
| Text.SplitJoin | validate.py:129 | splitting the bar-join of bar-free pieces gives back the pieces |
| Text.Below | validate.py:163 | Python's `<` on str, the order sorted() uses: character by character by code point, a proper prefix first; the four lemmas below show it is a strict total order |
| Text.BelowIrreflexive | validate.py:163 | no string sorts before itself |
| Text.BelowAsymmetric | validate.py:163 | two strings never sort before each other |
| Text.BelowTransitive | validate.py:163 | sorting order is transitive |
| Text.BelowTotal | validate.py:163 | of two different strings one sorts before the other |
| Text.LeastExists | validate.py:163 | a non-empty set of strings has a least element |
| Text.LeastUnique | validate.py:163 | that least element is unique |
| Text.SortedSet | validate.py:163 | sorted() on a set lists as many strings as the set has |
| Text.SortedSetMeaning | validate.py:163 | sorted() on a set lists exactly the set's elements, in strictly increasing order |
| Ev5Parser.HeaderSplit | validate.py:97 | the pattern read literally, as one way of cutting the line into its five parts: two or more dashes, whitespace, the captured group of A-Z and spaces, whitespace, and two or more dashes ending the line |
| Ev5Parser.MatchesHeaderPattern | validate.py:97 | re.match of the header pattern succeeds: some such cut exists |
| Ev5Parser.HeaderIffPattern | validate.py:97 | a stripped line is a header exactly when it splits into two or more dashes, whitespace, a run of A-Z and spaces, whitespace, and two or more dashes |
| Ev5Parser.IsHeader | validate.py:97 | the header recogniser: a run of at least two dashes on each side, and between them a non-empty region holding A-Z and spaces with only whitespace around them; Ev5Parser.HeaderIffPattern states that it accepts exactly the lines the pattern matches |
| Ev5Parser.HeaderHasSplit | validate.py:97 | a line the predicate accepts as a header has such a split |
| Ev5Parser.HeaderNameIsGroup | validate.py:97-99 | for any such split, the block name is the middle group stripped and upper-cased |
| Ev5Parser.HeaderName | validate.py:99 | a block name is made of A-Z and spaces and has no whitespace at either end |
| Ev5Parser.Classify | validate.py:93-101 | what the loop does with one line: skip it, open a block, or keep it as content; Ev5Parser.ClassifyMeaning states when each happens |
| Ev5Parser.ClassifyMeaning | validate.py:93-101 | a line is skipped exactly when it strips to nothing or starts with '#'; a header line opens a block with a valid name; any other line is kept stripped, non-empty, not a comment and not a header |
| Ev5Parser.ClassifyAll | validate.py:92 | every line is classified on its own, in order |
| Ev5Parser.OpenBlock | validate.py:99-100 | blocks[name] = [] makes the name a key with no lines, leaves every other block's lines alone, and keeps the keys distinct and listed in order |
| Ev5Parser.Step | validate.py:93-104 | one turn of the loop keeps the open block among the keys and keeps the keys distinct and listed in order |
| Ev5Parser.Parse | validate.py:89-105 | the block names in `order` are distinct and are exactly the dictionary's keys, and the current block is one of them |
| Ev5Parser.FirstOpening | validate.py:97-100 | the position of the first header line that opens a block: it opens that block and no earlier line does |
| Ev5Parser.OrderStep | validate.py:100 | assigning blocks[name] = [] adds the name at the end of the keys only when no earlier header opened it, and otherwise leaves the key order as it is |
| Ev5Parser.OrderIsFirstOpening | validate.py:97-100 | the block order lists exactly the names some header opens, each where it was first opened: a block listed earlier was first opened by an earlier line, so re-opening a block keeps its place |
| Ev5Parser.OpeningOrderGrows | validate.py:100 | one more line keeps the first-opening order of the blocks opened so far, and a newly opened block comes after all of them |
| Ev5Parser.ParseDrawsOnLines | validate.py:98-104 | every block comes from a header line and every stored line from a content line |
| Ev5Parser.ParsedLinesWellFormed | validate.py:93-104 | every block name is A-Z and spaces with no whitespace at the ends; every stored line is stripped, non-empty, not a comment and not a header |
| Ev5Parser.ParseLines | validate.py:87-105 | parse_ev5_blocks as a function of the file's lines: the block dictionary and the open block after every line is read; Ev5Parser.ParseEv5Blocks shows the loop computes it, and Ev5Parser.ParsedLinesWellFormed, Ev5Parser.OrderIsFirstOpening and Ev5Parser.BlockRowsAreSegment state what it holds |
| Ev5Parser.ParseLinesSnoc | validate.py:92-104 | reading one more line is one more step of the loop |
| Ev5Parser.ParseEv5Blocks | validate.py:87-105 | the loop returns exactly the fold's block dictionary, which is well formed |
| Ev5Parser.LastHeaderIndex | validate.py:97-101 | the position of the last header line, after which no header follows |
| Ev5Parser.CurrentIsLastHeader | validate.py:99 | the current block is the name of the last header read so far, or none before any header |
| Ev5Parser.BlockExistsIffOpened | validate.py:100 | a block exists exactly when a header with its name was read |
| Ev5Parser.NoHeaderNoBlocks | validate.py:103-104 | without a header there is no block, and every content line is dropped |
| Ev5Parser.StepKeeps | validate.py:100-104 | a line that neither reopens a block nor is appended to it leaves the block's lines unchanged |
| Ev5Parser.StepAppends | validate.py:103-104 | a content line is appended to the current block, unless the block's name is empty |
| Ev5Parser.BlockRowsAreSegment | validate.py:99-104 | a block's lines are exactly the content lines between its last opening header and the next header (none for an empty name): re-opening a block resets it |
| Ev5Parser.ClosedSegment | validate.py:100-104 | a block whose segment a later header has closed keeps exactly that segment's content lines |
| Ev5Parser.OpenSegment | validate.py:103-104 | the block still open receives the content lines read since its header |
| Ev5Parser.ClosedNotCurrent | validate.py:99 | after a later header, a block is no longer the current one |
| Ev5Parser.CapitalGroupIsName | validate.py:97-99 | a header whose middle group is capital letters opens the block of that name |
| Ev5Parser.FramedHeader | validate.py:97-99 | a capital name framed by a space and two or more dashes on each side is a header naming that block |
| Ev5Parser.SafetyHeader | validate.py:97-99 | "--- SAFETY ---" opens block SAFETY |
| Ev5Parser.NotesHeader | validate.py:97-99 | "-- NOTES --" opens block NOTES |
| Ev5Parser.SingleDashNotHeader | validate.py:93-104 | "- NOTES -" is not a header: it is a content line, which is stored only while a block with a non-empty name is open |
| Ev5Parser.LowerCaseNotHeader | validate.py:97 | "-- notes --" is not a header |
| CodeIndex.Entries | validate.py:119-120 | each record's code name and code, stripped and upper-cased, in catalogue order |
| CodeIndex.AddCode | validate.py:122 | setdefault(name, set()).add(code) adds the name as a key, adds the code to its set and leaves every other key alone |
| CodeIndex.IndexOfEntries | validate.py:118-122 | the index built from normalised entries in order; CodeIndex.EntriesMembership, EntriesKeys, EntriesDrawn and EntriesEmptyIff state what it holds |
| CodeIndex.IndexOf | validate.py:117-122 | valid_lookup of a catalogue; CodeIndex.IndexMembership and CodeIndex.IndexKeys state exactly what it holds, and CodeIndex.BuildCodeIndex shows the loop builds it |
| CodeIndex.EntriesMembership | validate.py:118-122 | a code is in a name's set exactly when a kept entry carries that pair |
| CodeIndex.EntriesKeys | validate.py:118-122 | a name is a key exactly when a kept entry carries it |
| CodeIndex.EntriesDrawn | validate.py:118-122 | every key has a code, and every pair comes from a kept entry |
| CodeIndex.EntriesEmptyIff | validate.py:118-122 | the index is empty exactly when no entry is kept |
| CodeIndex.IndexMembership | validate.py:117-122 | a code is in a field type's set exactly when some catalogue record normalises to that non-empty pair |
| CodeIndex.IndexKeys | validate.py:117-122 | a field type is a key exactly when some record whose code name and code are both non-empty after strip().upper() has that code name |
| CodeIndex.Normalized | validate.py:119-120 | one record's code name and code, each stripped and upper-cased; CodeIndex.NormalizedShape states the result |
| CodeIndex.NormalizedShape | validate.py:119-120 | both halves of a normalised record are stripped and upper-cased |
| CodeIndex.IndexDrawn | validate.py:117-122 | every pair of the index is the normalised form of some record, and neither half is empty |
| CodeIndex.PairShape | validate.py:117-122 | both halves of every pair are non-empty, stripped and upper-cased |
| CodeIndex.IndexWellFormed | create_valid_codes_excel.py:31-36 | every key and code is non-empty, stripped and upper-cased, and every key has at least one code |
| CodeIndex.IndexEmptyIff | create_valid_codes_excel.py:31-36 | the index is empty exactly when no record survives normalisation |
| CodeIndex.KeyTransfer | create_valid_codes_excel.py:31-36 | a field type of one catalogue's index is a field type of the index of any catalogue holding all its records |
| CodeIndex.CodeTransfer | create_valid_codes_excel.py:31-36 | a code of one catalogue's index is, under the same field type, a code of the index of any catalogue holding all its records |
| CodeIndex.IndexOrderFree | create_valid_codes_excel.py:31-36 | catalogues holding the same records, in any order and with any repetition, give the same index |
| CodeIndex.DuplicateRecord | create_valid_codes_excel.py:32-36 | listing a record twice gives the same index as listing it once |
| CodeIndex.IndexOfSnoc | validate.py:118-122 | reading one more record is one more turn of the loop |
| CodeIndex.BuildCodeIndex | validate.py:117-122 | the loop builds exactly the index of the catalogue |
| Ev5Validator.Checkable | validate.py:132-138 | a value is checked exactly when its column exists in the cut line and the value there is non-empty after strip().upper(); otherwise the field is skipped |
| Ev5Validator.CheckField | validate.py:132-173 | one field counts 1 exactly when its column exists and its value is non-empty after strip().upper(), otherwise 0, and yields at most one finding, only when counted |
| Ev5Validator.RowTally | validate.py:131-173 | a line counts at most one value per schema field, and never yields more findings than values counted |
| Ev5Validator.BlockTally | validate.py:128-173 | a block never yields more findings than values counted |
| Ev5Validator.DocTally | validate.py:124-173 | the walk never yields more findings than values counted |
| Ev5Validator.ParsedNamesUpper | validate.py:124-131 | every parsed block name is its own upper-case form, so the check `block.upper() in schema` and the lookup `schema[block]` agree |
| Ev5Validator.Validate | validate.py:108-175 | the whole check never reports more findings than it counted values |
| Ev5Validator.CheckFieldFindings | validate.py:140-173 | a field yields a finding exactly when its value is there and fails a check. FIELD: field types are checked and the type is unknown, with "Field type not recognized". CODE: codes are checked, the type is known and the value is not in its set, with the sorted codes joined by ", ". The two exclude each other |
| Ev5Validator.Reports | validate.py:132-173 | when one schema field of one line is reported: its value is there and non-empty after strip().upper(), and it fails the field-type check (expectation "Field type not recognized") or the code check (expectation the sorted codes joined by ", "); the finding carries the block, the field as written, the value, the line, the column and status INVALID |
| Ev5Validator.ConcatMember | validate.py:146-173 | a finding is in the appended findings exactly when one of the appended steps holds it |
| Ev5Validator.FieldSteps | validate.py:131 | one step per schema field |
| Ev5Validator.RowSteps | validate.py:128 | one step per line of the block |
| Ev5Validator.BlockSteps | validate.py:124 | one step per block |
| Ev5Validator.FieldStepsAt | validate.py:131-173 | the j-th step of a line holds the findings of the j-th schema field |
| Ev5Validator.RowStepsAt | validate.py:128-129 | the r-th step of a block holds the findings of line r + 1, cut at bars |
| Ev5Validator.BlockStepsAt | validate.py:124-126 | the i-th step holds the i-th block's findings when the schema knows its name, none otherwise |
| Ev5Validator.ConcatSnoc | validate.py:146-173 | appending one more step appends its findings |
| Ev5Validator.RowIsConcat | validate.py:131-173 | a line's findings are its schema fields' findings, in schema order |
| Ev5Validator.BlockIsConcat | validate.py:128-173 | a block's findings are its lines' findings, in line order |
| Ev5Validator.DocIsConcat | validate.py:124-173 | the findings are the blocks' findings in file order, with none for a block the schema does not know |
| Ev5Validator.RowFindingsSound | validate.py:131-173 | every finding of a line reports a failing schema field of that line |
| Ev5Validator.RowFindingsComplete | validate.py:131-173 | every failing schema field of a line is reported |
| Ev5Validator.RowFindings | validate.py:131-173 | a line's findings are exactly the reports of its failing schema fields |
| Ev5Validator.BlockFindingsSound | validate.py:128-173 | every finding of a block reports a failing field on one of its lines, numbered from 1 |
| Ev5Validator.BlockFindingsComplete | validate.py:128-173 | every failing field on every line of a block is reported |
| Ev5Validator.BlockFindings | validate.py:128-173 | a block's findings are exactly the reports of failing fields on its lines |
| Ev5Validator.DocFindingsSound | validate.py:124-173 | every finding reports a failing field of a block the schema knows |
| Ev5Validator.DocFindingsComplete | validate.py:124-173 | every failing field of every known block is reported |
| Ev5Validator.DocFindings | validate.py:124-173 | the findings are exactly the reports of failing fields on lines of blocks the schema knows |
| Ev5Validator.FindingMeaning | validate.py:124-173 | a finding's block is a parsed block the schema knows; its line lies between 1 and the block's length; its field and column are a schema entry of the block; its status is INVALID and its value is non-empty; it is FIELD exactly when field types are checked and the type is unknown, with "Field type not recognized"; a CODE finding's value is not among the known type's codes, and its expectation is their sorted, comma-joined list |
| Ev5Validator.NoChecksNoFindings | validate.py:144-160 | with both checks off nothing is reported |
| Ev5Validator.DefaultsReportOnlyCodes | validate.py:14-15 | under the default switches every finding is a CODE finding |
| Ev5Validator.RowCheckedIgnoresCatalogue | validate.py:131-141 | which values of a line are counted does not depend on the catalogue or the switches |
| Ev5Validator.BlockCheckedIgnoresCatalogue | validate.py:128-141 | the same holds for a block |
| Ev5Validator.DocCheckedIgnoresCatalogue | validate.py:124-141 | the same holds for the walk |
| Ev5Validator.RowStamps | validate.py:147-150 | every finding of a line carries its block and its line number |
| Ev5Validator.LinesOrderedSnoc | validate.py:128 | findings of a later line, appended to a block's findings in line order, keep line order |
| Ev5Validator.InFileOrderGrows | validate.py:124 | the order between two findings survives more blocks being walked |
| Ev5Validator.FileOrderedSnoc | validate.py:124 | appending a later block's findings, in line order, keeps the findings in file order |
| Ev5Validator.BlockLinesOrdered | validate.py:128-173 | a block's findings carry its name, lie within its lines and come in line order |
| Ev5Validator.DocOrdered | validate.py:124-173 | the findings come block by block in file order, and line by line within a block |
| Ev5Validator.ValidateFindings | validate.py:108-175 | a finding of the whole check is exactly the report of a failing schema field on a line of a parsed block the schema knows, against the catalogue's index |
| Ev5Validator.ValidateFindingValue | validate.py:136-151 | a reported value is non-empty, stripped and upper-cased, and its block and line exist in the parsed file |
| Ev5Validator.ValidateOrdered | validate.py:124-175 | the report lists findings block by block in the order of the dictionary's keys, which is the order in which headers first opened the blocks (validate.py:100), and by line within a block |
| Ev5Validator.ValidateCheckedIgnoresCatalogue | validate.py:108-175 | the checked count is the same whatever the catalogue and switches |
| Ev5Validator.RowTallySnoc | validate.py:131 | one more schema field is one more turn of the inner loop |
| Ev5Validator.BlockTallySnoc | validate.py:128-129 | one more line is one more turn of the middle loop |
| Ev5Validator.DocTallySnoc | validate.py:124-126 | one more block adds its findings and count when the schema knows its upper-cased name, and nothing otherwise |
| Ev5Validator.PlusAssoc | validate.py:140-173 | appending counts and findings in two steps or one gives the same tally |
| Ev5Validator.ValidateField | validate.py:132-173 | the body for one field adds exactly that field's count and findings to the running tally |
| Ev5Validator.ValidateRow | validate.py:131-173 | the inner loop adds exactly the line's count and findings |
| Ev5Validator.ValidateBlock | validate.py:128-173 | the middle loop adds exactly the block's count and findings |
| Ev5Validator.ValidateEv5Blocks | validate.py:108-175 | parsing, indexing and the outer loop return exactly the count and findings of the whole check |
| CodesWorkbook.LongestOf | create_valid_codes_excel.py:59 | the largest code-set size among the given fields: no field has more codes and one has exactly that many (0 for none) |
| CodesWorkbook.Fields | create_valid_codes_excel.py:55 | sorted(valid_codes.keys()) lists every field type once |
| CodesWorkbook.MaxCodeCount | create_valid_codes_excel.py:59 | max_len is at least every field's code count and equal to some field's |
| CodesWorkbook.CodeRow | create_valid_codes_excel.py:62-65 | a code row has one cell per field type |
| CodesWorkbook.CodeRows | create_valid_codes_excel.py:61-66 | there is one code row per rank |
| CodesWorkbook.Cell | create_valid_codes_excel.py:64-65 | the cell under a field type in the row of rank i: its i-th code in sorted order, or "" once it has fewer codes |
| CodesWorkbook.Grid | create_valid_codes_excel.py:55-66 | the rows appended to the sheet; CodesWorkbook.GridHeader, GridShape, GridCell, GridHasEveryCode and GridRowsNeeded state what they hold |
| CodesWorkbook.CodeRowAt | create_valid_codes_excel.py:63-65 | the j-th cell of a code row belongs to the j-th field type |
| CodesWorkbook.CodeRowsAt | create_valid_codes_excel.py:61-66 | the i-th code row is the row of rank i |
| CodesWorkbook.GridHeader | create_valid_codes_excel.py:55-56 | the header row lists every field type once, in strictly increasing order |
| CodesWorkbook.GridShape | create_valid_codes_excel.py:55-66 | the sheet has the header plus exactly max_len rows, each with one cell per field type |
| CodesWorkbook.GridCell | create_valid_codes_excel.py:61-66 | the cell of rank i under a field type is its i-th code in sorted order, or "" once it has fewer codes |
| CodesWorkbook.GridHasEveryCode | create_valid_codes_excel.py:55-66 | every code of every field type appears below the header in that field's column |
| CodesWorkbook.GridRowsNeeded | create_valid_codes_excel.py:59-61 | no code row is blank: each has a code under some field type |
| CodesWorkbook.BuildCodeRow | create_valid_codes_excel.py:62-65 | the inner loop builds exactly the code row of rank i |
| CodesWorkbook.ValidCodesRows | create_valid_codes_excel.py:55-66 | the rows handed to the sheet are exactly the header followed by the code rows |

## Left out

- The HTTP fetch of the catalogue and the API checks are not modelled: `fetch_valid_codes` in both scripts and `validate_nhtsa_api`. They are network I/O; the catalogue is a given sequence of (code name, code) records.
- Neither the file handling nor the printing is modelled: reading the schema JSON (`load_schema`), writing CSV reports (`write_combined_report` and the CSV in `fetch_valid_codes`), the openpyxl workbook and its `save`, `mkdir`, date stamps, and the `main` functions with their `rglob` directory walk.
- The EV5 file is given as decoded lines. Decoding with `errors="ignore"` is not modelled. Line terminators are whitespace, so strip() removes them in the model too.
- Python's regular-expression engine is not modelled. The one header pattern is a hand-written predicate, shown equivalent to the pattern's decomposition (`Ev5Parser.HeaderIffPattern`).
- Text.UpperChars: only ASCII a to z are mapped. Python's upper() also maps other letters, and some to two characters ('ß' to 'SS'). Header names are A-Z only, but values and catalogue codes with such letters are normalised differently.
- Text.Upper: keeps the length because only ASCII a to z are mapped. Python's upper() can make a string longer ('ß' to 'SS').
- Text.Normalize: its result is never longer than its input, for the same reason. With Python's upper() it can be longer.
- Schema columns are integers of at least 1 (`PositiveColumns`). Converting a string with `int(col)` is not modelled. Python would index negatively for a column of 0 or less.
- Python dictionaries become ordered sequences. A block's schema is a sequence of (field type, column) pairs in the schema's order. That sequence may repeat a field type, which a JSON object cannot.
- A catalogue record is a pair of strings. A missing key, read as "", is an empty string; non-string values are not modelled.
- A finding's `Column` is the integer column. The script copies the schema's value as written.
- Ev5Validator.ValidateOrdered: states the order of blocks and of lines. The order among the findings of one line is stated by `Ev5Validator.RowIsConcat`: schema order.
- CodesWorkbook.ValidCodesRows: requires a non-empty index, because `max()` of no values raises. The script's `main` stops first on an empty catalogue (create_valid_codes_excel.py:77-79); `CodeIndex.IndexEmptyIff` states when that happens.
