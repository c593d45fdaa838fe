/** The schema-driven check of an EV5 file (validate_ev5_blocks): every block
    the schema knows is walked line by line, each line is cut at '|', and
    every schema field whose column holds a non-empty value is counted and
    checked against the code index. */
module Ev5Validator {
  import opened Text
  import opened Ev5Parser
  import opened CodeIndex

  /** Which check an occurrence failed. */
  datatype InvalidType = FIELD | CODE

  /** One row of the report. `field` is the schema's field type as written,
      `value` the stripped and upper-cased value, `line` the 1-based line
      within the block and `column` the schema's column. */
  datatype Finding = Finding(
    block: string,
    field: string,
    value: string,
    line: nat,
    column: int,
    expectedCodes: string,
    invalidType: InvalidType,
    status: string)

  /** One schema entry of a block: a field type and the 1-based column that
      holds it. */
  datatype FieldColumn = FieldColumn(field: string, col: int)

  /** Block name to its fields, in the schema's order. */
  type Schema = map<string, seq<FieldColumn>>

  datatype Options = Options(validateFieldTypes: bool, validateCodes: bool)

  /** The module's defaults: field types are not checked, codes are. */
  const Defaults := Options(false, true)

  /** How the check reads a line: `cut` cuts it into pieces and `norm`
      brings a piece or a field type to the form the index uses. The walk
      below is stated for any reading; the file's own is `FileReading`. */
  datatype Reading = Reading(cut: string -> seq<string>, norm: string -> string)

  /** split("|") on a line, strip().upper() on a piece or a field type. */
  const FileReading := Reading(s => Split(s, '|'), Normalize)

  const NotRecognized := "Field type not recognized"
  const Separator := ", "
  const InvalidStatus := "INVALID"

  /** Every column of the schema is a positive integer. */
  predicate PositiveColumns(schema: Schema) {
    forall b :: b in schema ==> forall j :: 0 <= j < |schema[b]| ==> schema[b][j].col >= 1
  }

  predicate PositiveFields(fields: seq<FieldColumn>) {
    forall j :: 0 <= j < |fields| ==> fields[j].col >= 1
  }

  /** The number of checked values and the findings, in the order they are
      appended. */
  datatype Tally = Tally(checked: nat, findings: seq<Finding>)

  const Zero := Tally(0, [])

  function Plus(a: Tally, b: Tally): Tally {
    Tally(a.checked + b.checked, a.findings + b.findings)
  }

  lemma PlusAssoc(a: Tally, b: Tally, c: Tally)
    ensures Plus(Plus(a, b), c) == Plus(a, Plus(b, c))
  {
    assert (a.findings + b.findings) + c.findings == a.findings + (b.findings + c.findings);
  }

  // ---------------------------------------------------------------------
  // What a finding means

  /** Column `col` of the cut line exists and holds a value once stripped and
      upper-cased: such an occurrence is counted as checked. */
  predicate Checkable(rd: Reading, parts: seq<string>, col: int) {
    1 <= col <= |parts| && rd.norm(parts[col - 1]) != []
  }

  /** The field-type check is on and the index does not know the type. */
  predicate FieldTypeUnknown(ft: string, lookup: Index, opts: Options) {
    opts.validateFieldTypes && ft !in lookup
  }

  /** The code check is on, the index knows the type and not the value. */
  predicate CodeNotAllowed(ft: string, value: string, lookup: Index, opts: Options) {
    opts.validateCodes && ft in lookup && value !in lookup[ft]
  }

  /** `f` reports the value of field `fc` on line `line` of `block`, whose
      pieces are `parts`: the value is there, and it fails the field-type
      check or the code check, with the matching expectation. */
  ghost predicate Reports(rd: Reading, f: Finding, block: string, line: nat, parts: seq<string>, fc: FieldColumn,
                          lookup: Index, opts: Options) {
    && f.block == block && f.line == line && f.field == fc.field && f.column == fc.col
    && f.status == InvalidStatus
    && Checkable(rd, parts, fc.col) && f.value == rd.norm(parts[fc.col - 1])
    && (|| (f.invalidType == FIELD && FieldTypeUnknown(rd.norm(fc.field), lookup, opts)
            && f.expectedCodes == NotRecognized)
        || (f.invalidType == CODE && CodeNotAllowed(rd.norm(fc.field), f.value, lookup, opts)
            && f.expectedCodes == Join(SortedSet(lookup[rd.norm(fc.field)]), Separator)))
  }

  /** `f` reports the `j`-th schema field of a line. */
  ghost predicate ReportsField(rd: Reading, f: Finding, block: string, line: nat, parts: seq<string>, fields: seq<FieldColumn>,
                               j: int, lookup: Index, opts: Options) {
    0 <= j < |fields| && Reports(rd, f, block, line, parts, fields[j], lookup, opts)
  }

  /** `f` reports the `j`-th schema field on line `r + 1` of a block with
      lines `rows`. */
  ghost predicate ReportsRow(rd: Reading, f: Finding, block: string, rows: seq<string>, fields: seq<FieldColumn>,
                             r: int, j: int, lookup: Index, opts: Options) {
    0 <= r < |rows| && ReportsField(rd, f, block, r + 1, rd.cut(rows[r]), fields, j, lookup, opts)
  }

  /** `f` reports the `j`-th schema field on line `r + 1` of the `i`-th
      block, a block the schema knows. */
  ghost predicate ReportsAt(rd: Reading, f: Finding, order: seq<string>, rows: map<string, seq<string>>, schema: Schema,
                            lookup: Index, opts: Options, i: int, r: int, j: int) {
    && 0 <= i < |order| && order[i] in rows && Upper(order[i]) in schema && order[i] in schema
    && ReportsRow(rd, f, order[i], rows[order[i]], schema[order[i]], r, j, lookup, opts)
  }

  // ---------------------------------------------------------------------
  // The loops, as functions of what they have walked so far

  /** One field of one line: counted when its column holds a value; then a
      FIELD finding if the type is unknown (and field types are checked),
      else a CODE finding if the code is not allowed (and codes are checked). */
  function CheckField(rd: Reading, block: string, line: nat, parts: seq<string>, fc: FieldColumn,
                      lookup: Index, opts: Options): (t: Tally)
    requires fc.col >= 1
    ensures t.checked == if Checkable(rd, parts, fc.col) then 1 else 0
    ensures |t.findings| <= t.checked
  {
    var idx := fc.col - 1;
    if idx >= |parts| then Zero
    else
      var value := rd.norm(parts[idx]);
      if value == [] then Zero
      else
        var ft := rd.norm(fc.field);
        if opts.validateFieldTypes && ft !in lookup then
          Tally(1, [Finding(block, fc.field, value, line, fc.col, NotRecognized, FIELD, InvalidStatus)])
        else if opts.validateCodes && ft in lookup && value !in lookup[ft] then
          Tally(1, [Finding(block, fc.field, value, line, fc.col,
                            Join(SortedSet(lookup[ft]), Separator), CODE, InvalidStatus)])
        else Tally(1, [])
  }

  /** The schema's fields of one line, in order. */
  function RowTally(rd: Reading, block: string, line: nat, parts: seq<string>, fields: seq<FieldColumn>,
                    lookup: Index, opts: Options): (t: Tally)
    requires PositiveFields(fields)
    ensures t.checked <= |fields|
    ensures |t.findings| <= t.checked
    decreases |fields|
  {
    if fields == [] then Zero
    else
      Plus(RowTally(rd, block, line, parts, fields[..|fields| - 1], lookup, opts),
           CheckField(rd, block, line, parts, fields[|fields| - 1], lookup, opts))
  }

  /** The lines of one block, numbered from 1. */
  function BlockTally(rd: Reading, block: string, rows: seq<string>, fields: seq<FieldColumn>,
                      lookup: Index, opts: Options): (t: Tally)
    requires PositiveFields(fields)
    ensures |t.findings| <= t.checked
    decreases |rows|
  {
    if rows == [] then Zero
    else
      Plus(BlockTally(rd, block, rows[..|rows| - 1], fields, lookup, opts),
           RowTally(rd, block, |rows|, rd.cut(rows[|rows| - 1]), fields, lookup, opts))
  }

  /** Names the parser gives a block are their own upper-case form, and each
      has its lines. */
  ghost predicate UpperNames(order: seq<string>, rows: map<string, seq<string>>) {
    forall i :: 0 <= i < |order| ==> order[i] in rows && Upper(order[i]) == order[i]
  }

  /** The blocks in file order; a block whose upper-cased name the schema
      does not know is passed over. */
  function DocTally(rd: Reading, order: seq<string>, rows: map<string, seq<string>>, schema: Schema,
                    lookup: Index, opts: Options): (t: Tally)
    requires PositiveColumns(schema)
    requires UpperNames(order, rows)
    ensures |t.findings| <= t.checked
    decreases |order|
  {
    if order == [] then Zero
    else
      var block := order[|order| - 1];
      var before := DocTally(rd, order[..|order| - 1], rows, schema, lookup, opts);
      if Upper(block) in schema then Plus(before, BlockTally(rd, block, rows[block], schema[block], lookup, opts))
      else before
  }

  /** Every block name the parser produces is upper-case already. */
  lemma ParsedNamesUpper(lines: seq<string>)
    ensures UpperNames(ParseLines(lines).doc.order, ParseLines(lines).doc.rows)
  {
    var d := ParseLines(lines).doc;
    ParsedLinesWellFormed(lines);
    forall i | 0 <= i < |d.order| ensures d.order[i] in d.rows && Upper(d.order[i]) == d.order[i] {
      assert d.order[i] in d.rows;
      UpperResult(d.order[i]);
    }
  }

  /** The whole check: parse the file, build the index from the catalogue,
      walk the blocks. */
  function Validate(lines: seq<string>, schema: Schema, records: seq<CodeRecord>, opts: Options): (t: Tally)
    requires PositiveColumns(schema)
    ensures |t.findings| <= t.checked
  {
    var doc := ParseLines(lines).doc;
    ParsedNamesUpper(lines);
    DocTally(FileReading, doc.order, doc.rows, schema, IndexOf(records), opts)
  }

  // ---------------------------------------------------------------------
  // Exactly the failing occurrences are reported

  /** One field yields a finding exactly when its value is there and fails a
      check; FIELD and CODE exclude each other, since one needs the type to
      be unknown and the other known. */
  lemma CheckFieldFindings(rd: Reading, block: string, line: nat, parts: seq<string>, fc: FieldColumn,
                           lookup: Index, opts: Options, f: Finding)
    requires fc.col >= 1
    ensures f in CheckField(rd, block, line, parts, fc, lookup, opts).findings <==>
            Reports(rd, f, block, line, parts, fc, lookup, opts)
  {
  }

  /** The findings of a walk are the findings of its steps, one after the
      other. */
  function Concat(xss: seq<seq<Finding>>): seq<Finding>
    decreases |xss|
  {
    if xss == [] then [] else Concat(xss[..|xss| - 1]) + xss[|xss| - 1]
  }

  lemma {:induction false} ConcatMember(xss: seq<seq<Finding>>, f: Finding)
    ensures f in Concat(xss) <==> exists k :: 0 <= k < |xss| && f in xss[k]
    decreases |xss|
  {
    if xss != [] {
      var pre := xss[..|xss| - 1];
      ConcatMember(pre, f);
      if exists k :: 0 <= k < |pre| && f in pre[k] {
        var k :| 0 <= k < |pre| && f in pre[k];
        assert xss[k] == pre[k];
      }
      if exists k :: 0 <= k < |xss| && f in xss[k] {
        var k :| 0 <= k < |xss| && f in xss[k];
        if k < |pre| {
          assert pre[k] == xss[k];
        }
      }
    }
  }

  /** The findings of each schema field of one line, field by field. */
  function FieldSteps(rd: Reading, block: string, line: nat, parts: seq<string>, fields: seq<FieldColumn>,
                      lookup: Index, opts: Options): (r: seq<seq<Finding>>)
    requires PositiveFields(fields)
    ensures |r| == |fields|
    decreases |fields|
  {
    if fields == [] then []
    else FieldSteps(rd, block, line, parts, fields[..|fields| - 1], lookup, opts)
         + [CheckField(rd, block, line, parts, fields[|fields| - 1], lookup, opts).findings]
  }

  /** The findings of each line of one block, line by line. */
  function RowSteps(rd: Reading, block: string, rows: seq<string>, fields: seq<FieldColumn>,
                    lookup: Index, opts: Options): (r: seq<seq<Finding>>)
    requires PositiveFields(fields)
    ensures |r| == |rows|
    decreases |rows|
  {
    if rows == [] then []
    else RowSteps(rd, block, rows[..|rows| - 1], fields, lookup, opts)
         + [RowTally(rd, block, |rows|, rd.cut(rows[|rows| - 1]), fields, lookup, opts).findings]
  }

  /** The findings of each block of the file; none for a block the schema
      does not know. */
  function BlockSteps(rd: Reading, order: seq<string>, rows: map<string, seq<string>>, schema: Schema,
                      lookup: Index, opts: Options): (r: seq<seq<Finding>>)
    requires PositiveColumns(schema)
    requires UpperNames(order, rows)
    ensures |r| == |order|
    decreases |order|
  {
    if order == [] then []
    else
      var block := order[|order| - 1];
      BlockSteps(rd, order[..|order| - 1], rows, schema, lookup, opts)
      + [if Upper(block) in schema then BlockTally(rd, block, rows[block], schema[block], lookup, opts).findings else []]
  }

  lemma {:induction false} FieldStepsAt(rd: Reading, block: string, line: nat, parts: seq<string>, fields: seq<FieldColumn>,
                                        lookup: Index, opts: Options, j: int)
    requires PositiveFields(fields) && 0 <= j < |fields|
    ensures FieldSteps(rd, block, line, parts, fields, lookup, opts)[j] ==
            CheckField(rd, block, line, parts, fields[j], lookup, opts).findings
    decreases |fields|
  {
    var pre := fields[..|fields| - 1];
    if j < |pre| {
      FieldStepsAt(rd, block, line, parts, pre, lookup, opts, j);
      assert pre[j] == fields[j];
    }
  }

  lemma {:induction false} RowStepsAt(rd: Reading, block: string, rows: seq<string>, fields: seq<FieldColumn>,
                                      lookup: Index, opts: Options, r: int)
    requires PositiveFields(fields) && 0 <= r < |rows|
    ensures RowSteps(rd, block, rows, fields, lookup, opts)[r] ==
            RowTally(rd, block, r + 1, rd.cut(rows[r]), fields, lookup, opts).findings
    decreases |rows|
  {
    var pre := rows[..|rows| - 1];
    if r < |pre| {
      RowStepsAt(rd, block, pre, fields, lookup, opts, r);
      assert pre[r] == rows[r];
    }
  }

  lemma {:induction false} BlockStepsAt(rd: Reading, order: seq<string>, rows: map<string, seq<string>>, schema: Schema,
                                        lookup: Index, opts: Options, i: int)
    requires PositiveColumns(schema) && UpperNames(order, rows) && 0 <= i < |order|
    ensures BlockSteps(rd, order, rows, schema, lookup, opts)[i] ==
            if Upper(order[i]) in schema
            then BlockTally(rd, order[i], rows[order[i]], schema[order[i]], lookup, opts).findings
            else []
    decreases |order|
  {
    var pre := order[..|order| - 1];
    assert UpperNames(pre, rows);
    if i < |pre| {
      BlockStepsAt(rd, pre, rows, schema, lookup, opts, i);
      assert pre[i] == order[i];
    }
  }

  lemma {:induction false} ConcatSnoc(xss: seq<seq<Finding>>, xs: seq<Finding>)
    ensures Concat(xss + [xs]) == Concat(xss) + xs
  {
    assert (xss + [xs])[..|xss|] == xss;
  }

  lemma {:induction false} RowIsConcat(rd: Reading, block: string, line: nat, parts: seq<string>, fields: seq<FieldColumn>,
                                       lookup: Index, opts: Options)
    requires PositiveFields(fields)
    ensures RowTally(rd, block, line, parts, fields, lookup, opts).findings ==
            Concat(FieldSteps(rd, block, line, parts, fields, lookup, opts))
    decreases |fields|
  {
    if fields != [] {
      var pre := fields[..|fields| - 1];
      RowIsConcat(rd, block, line, parts, pre, lookup, opts);
      ConcatSnoc(FieldSteps(rd, block, line, parts, pre, lookup, opts),
                 CheckField(rd, block, line, parts, fields[|fields| - 1], lookup, opts).findings);
    }
  }

  lemma {:induction false} BlockIsConcat(rd: Reading, block: string, rows: seq<string>, fields: seq<FieldColumn>,
                                         lookup: Index, opts: Options)
    requires PositiveFields(fields)
    ensures BlockTally(rd, block, rows, fields, lookup, opts).findings ==
            Concat(RowSteps(rd, block, rows, fields, lookup, opts))
    decreases |rows|
  {
    if rows != [] {
      var pre := rows[..|rows| - 1];
      BlockIsConcat(rd, block, pre, fields, lookup, opts);
      ConcatSnoc(RowSteps(rd, block, pre, fields, lookup, opts),
                 RowTally(rd, block, |rows|, rd.cut(rows[|rows| - 1]), fields, lookup, opts).findings);
    }
  }

  lemma {:induction false} DocIsConcat(rd: Reading, order: seq<string>, rows: map<string, seq<string>>, schema: Schema,
                                       lookup: Index, opts: Options)
    requires PositiveColumns(schema)
    requires UpperNames(order, rows)
    ensures DocTally(rd, order, rows, schema, lookup, opts).findings ==
            Concat(BlockSteps(rd, order, rows, schema, lookup, opts))
    decreases |order|
  {
    if order != [] {
      var pre := order[..|order| - 1];
      var block := order[|order| - 1];
      assert UpperNames(pre, rows);
      DocIsConcat(rd, pre, rows, schema, lookup, opts);
      ConcatSnoc(BlockSteps(rd, pre, rows, schema, lookup, opts),
                 if Upper(block) in schema then BlockTally(rd, block, rows[block], schema[block], lookup, opts).findings else []);
    }
  }

  lemma RowFindingsSound(rd: Reading, block: string, line: nat, parts: seq<string>, fields: seq<FieldColumn>,
                         lookup: Index, opts: Options, f: Finding)
    requires PositiveFields(fields)
    requires f in RowTally(rd, block, line, parts, fields, lookup, opts).findings
    ensures exists j :: ReportsField(rd, f, block, line, parts, fields, j, lookup, opts)
  {
    var steps := FieldSteps(rd, block, line, parts, fields, lookup, opts);
    RowIsConcat(rd, block, line, parts, fields, lookup, opts);
    ConcatMember(steps, f);
    var k :| 0 <= k < |steps| && f in steps[k];
    FieldStepsAt(rd, block, line, parts, fields, lookup, opts, k);
    CheckFieldFindings(rd, block, line, parts, fields[k], lookup, opts, f);
    assert ReportsField(rd, f, block, line, parts, fields, k, lookup, opts);
  }

  lemma RowFindingsComplete(rd: Reading, block: string, line: nat, parts: seq<string>, fields: seq<FieldColumn>,
                            lookup: Index, opts: Options, f: Finding, j: int)
    requires PositiveFields(fields)
    requires ReportsField(rd, f, block, line, parts, fields, j, lookup, opts)
    ensures f in RowTally(rd, block, line, parts, fields, lookup, opts).findings
  {
    var steps := FieldSteps(rd, block, line, parts, fields, lookup, opts);
    CheckFieldFindings(rd, block, line, parts, fields[j], lookup, opts, f);
    FieldStepsAt(rd, block, line, parts, fields, lookup, opts, j);
    RowIsConcat(rd, block, line, parts, fields, lookup, opts);
    ConcatMember(steps, f);
  }

  /** A line's findings are exactly the reports of its failing fields. */
  lemma RowFindings(rd: Reading, block: string, line: nat, parts: seq<string>, fields: seq<FieldColumn>,
                    lookup: Index, opts: Options, f: Finding)
    requires PositiveFields(fields)
    ensures f in RowTally(rd, block, line, parts, fields, lookup, opts).findings <==>
            exists j :: ReportsField(rd, f, block, line, parts, fields, j, lookup, opts)
  {
    if f in RowTally(rd, block, line, parts, fields, lookup, opts).findings {
      RowFindingsSound(rd, block, line, parts, fields, lookup, opts, f);
    }
    if exists j :: ReportsField(rd, f, block, line, parts, fields, j, lookup, opts) {
      var j :| ReportsField(rd, f, block, line, parts, fields, j, lookup, opts);
      RowFindingsComplete(rd, block, line, parts, fields, lookup, opts, f, j);
    }
  }

  lemma BlockFindingsSound(rd: Reading, block: string, rows: seq<string>, fields: seq<FieldColumn>,
                           lookup: Index, opts: Options, f: Finding)
    requires PositiveFields(fields)
    requires f in BlockTally(rd, block, rows, fields, lookup, opts).findings
    ensures exists r, j :: ReportsRow(rd, f, block, rows, fields, r, j, lookup, opts)
  {
    var steps := RowSteps(rd, block, rows, fields, lookup, opts);
    BlockIsConcat(rd, block, rows, fields, lookup, opts);
    ConcatMember(steps, f);
    var k :| 0 <= k < |steps| && f in steps[k];
    RowStepsAt(rd, block, rows, fields, lookup, opts, k);
    RowFindingsSound(rd, block, k + 1, rd.cut(rows[k]), fields, lookup, opts, f);
    var j :| ReportsField(rd, f, block, k + 1, rd.cut(rows[k]), fields, j, lookup, opts);
    assert ReportsRow(rd, f, block, rows, fields, k, j, lookup, opts);
  }

  lemma BlockFindingsComplete(rd: Reading, block: string, rows: seq<string>, fields: seq<FieldColumn>,
                              lookup: Index, opts: Options, f: Finding, r: int, j: int)
    requires PositiveFields(fields)
    requires ReportsRow(rd, f, block, rows, fields, r, j, lookup, opts)
    ensures f in BlockTally(rd, block, rows, fields, lookup, opts).findings
  {
    var steps := RowSteps(rd, block, rows, fields, lookup, opts);
    RowFindingsComplete(rd, block, r + 1, rd.cut(rows[r]), fields, lookup, opts, f, j);
    RowStepsAt(rd, block, rows, fields, lookup, opts, r);
    BlockIsConcat(rd, block, rows, fields, lookup, opts);
    ConcatMember(steps, f);
  }

  /** A block's findings are exactly the reports of the failing fields of
      its lines. */
  lemma BlockFindings(rd: Reading, block: string, rows: seq<string>, fields: seq<FieldColumn>,
                      lookup: Index, opts: Options, f: Finding)
    requires PositiveFields(fields)
    ensures f in BlockTally(rd, block, rows, fields, lookup, opts).findings <==>
            exists r, j :: ReportsRow(rd, f, block, rows, fields, r, j, lookup, opts)
  {
    if f in BlockTally(rd, block, rows, fields, lookup, opts).findings {
      BlockFindingsSound(rd, block, rows, fields, lookup, opts, f);
    }
    if exists r, j :: ReportsRow(rd, f, block, rows, fields, r, j, lookup, opts) {
      var r, j :| ReportsRow(rd, f, block, rows, fields, r, j, lookup, opts);
      BlockFindingsComplete(rd, block, rows, fields, lookup, opts, f, r, j);
    }
  }

  lemma DocFindingsSound(rd: Reading, order: seq<string>, rows: map<string, seq<string>>, schema: Schema,
                         lookup: Index, opts: Options, f: Finding)
    requires PositiveColumns(schema)
    requires UpperNames(order, rows)
    requires f in DocTally(rd, order, rows, schema, lookup, opts).findings
    ensures exists i, r, j :: ReportsAt(rd, f, order, rows, schema, lookup, opts, i, r, j)
  {
    var steps := BlockSteps(rd, order, rows, schema, lookup, opts);
    DocIsConcat(rd, order, rows, schema, lookup, opts);
    ConcatMember(steps, f);
    var k :| 0 <= k < |steps| && f in steps[k];
    BlockStepsAt(rd, order, rows, schema, lookup, opts, k);
    var block := order[k];
    assert Upper(block) in schema;
    BlockFindingsSound(rd, block, rows[block], schema[block], lookup, opts, f);
    var r, j :| ReportsRow(rd, f, block, rows[block], schema[block], r, j, lookup, opts);
    assert ReportsAt(rd, f, order, rows, schema, lookup, opts, k, r, j);
  }

  lemma DocFindingsComplete(rd: Reading, order: seq<string>, rows: map<string, seq<string>>, schema: Schema,
                            lookup: Index, opts: Options, f: Finding, i: int, r: int, j: int)
    requires PositiveColumns(schema)
    requires UpperNames(order, rows)
    requires ReportsAt(rd, f, order, rows, schema, lookup, opts, i, r, j)
    ensures f in DocTally(rd, order, rows, schema, lookup, opts).findings
  {
    var steps := BlockSteps(rd, order, rows, schema, lookup, opts);
    BlockFindingsComplete(rd, order[i], rows[order[i]], schema[order[i]], lookup, opts, f, r, j);
    BlockStepsAt(rd, order, rows, schema, lookup, opts, i);
    DocIsConcat(rd, order, rows, schema, lookup, opts);
    ConcatMember(steps, f);
  }

  /** The findings of the walk are exactly the reports of the failing
      fields of the lines of the blocks the schema knows. */
  lemma DocFindings(rd: Reading, order: seq<string>, rows: map<string, seq<string>>, schema: Schema,
                    lookup: Index, opts: Options, f: Finding)
    requires PositiveColumns(schema)
    requires UpperNames(order, rows)
    ensures f in DocTally(rd, order, rows, schema, lookup, opts).findings <==>
            exists i, r, j :: ReportsAt(rd, f, order, rows, schema, lookup, opts, i, r, j)
  {
    if f in DocTally(rd, order, rows, schema, lookup, opts).findings {
      DocFindingsSound(rd, order, rows, schema, lookup, opts, f);
    }
    if exists i, r, j :: ReportsAt(rd, f, order, rows, schema, lookup, opts, i, r, j) {
      var i, r, j :| ReportsAt(rd, f, order, rows, schema, lookup, opts, i, r, j);
      DocFindingsComplete(rd, order, rows, schema, lookup, opts, f, i, r, j);
    }
  }

  /** What a finding says: its block is one of the file's blocks that the
      schema knows, its line lies within that block, its field and column
      are one of the block's schema entries, its value is there, and its kind
      names the check that failed, with the matching expectation. */
  lemma FindingMeaning(rd: Reading, order: seq<string>, rows: map<string, seq<string>>, schema: Schema,
                       lookup: Index, opts: Options, f: Finding)
    requires PositiveColumns(schema)
    requires UpperNames(order, rows)
    requires f in DocTally(rd, order, rows, schema, lookup, opts).findings
    ensures f.block in order && f.block in rows && f.block in schema
    ensures 1 <= f.line <= |rows[f.block]|
    ensures FieldColumn(f.field, f.column) in schema[f.block]
    ensures f.status == InvalidStatus && f.value != []
    ensures exists piece :: f.value == rd.norm(piece)
    ensures f.invalidType == FIELD <==> FieldTypeUnknown(rd.norm(f.field), lookup, opts)
    ensures f.invalidType == FIELD ==> f.expectedCodes == NotRecognized
    ensures f.invalidType == CODE ==>
              && CodeNotAllowed(rd.norm(f.field), f.value, lookup, opts)
              && f.expectedCodes == Join(SortedSet(lookup[rd.norm(f.field)]), Separator)
  {
    DocFindingsSound(rd, order, rows, schema, lookup, opts, f);
    var i, r, j :| ReportsAt(rd, f, order, rows, schema, lookup, opts, i, r, j);
    assert schema[order[i]][j] == FieldColumn(f.field, f.column);
  }

  /** With both checks off nothing is reported. */
  lemma NoChecksNoFindings(rd: Reading, order: seq<string>, rows: map<string, seq<string>>, schema: Schema,
                           lookup: Index)
    requires PositiveColumns(schema)
    requires UpperNames(order, rows)
    ensures DocTally(rd, order, rows, schema, lookup, Options(false, false)).findings == []
  {
    var fs := DocTally(rd, order, rows, schema, lookup, Options(false, false)).findings;
    if fs != [] {
      FindingMeaning(rd, order, rows, schema, lookup, Options(false, false), fs[0]);
    }
  }

  /** Under the defaults only codes are checked: every finding is a CODE
      finding. */
  lemma DefaultsReportOnlyCodes(rd: Reading, order: seq<string>, rows: map<string, seq<string>>, schema: Schema,
                                lookup: Index, f: Finding)
    requires PositiveColumns(schema)
    requires UpperNames(order, rows)
    requires f in DocTally(rd, order, rows, schema, lookup, Defaults).findings
    ensures f.invalidType == CODE
  {
    FindingMeaning(rd, order, rows, schema, lookup, Defaults, f);
  }

  // ---------------------------------------------------------------------
  // The checked count does not depend on the catalogue or the options

  lemma {:induction false} RowCheckedIgnoresCatalogue(rd: Reading, block: string, line: nat, parts: seq<string>,
                                                      fields: seq<FieldColumn>, lookup: Index, opts: Options,
                                                      lookup': Index, opts': Options)
    requires PositiveFields(fields)
    ensures RowTally(rd, block, line, parts, fields, lookup, opts).checked ==
            RowTally(rd, block, line, parts, fields, lookup', opts').checked
    decreases |fields|
  {
    if fields != [] {
      RowCheckedIgnoresCatalogue(rd, block, line, parts, fields[..|fields| - 1], lookup, opts, lookup', opts');
    }
  }

  lemma {:induction false} BlockCheckedIgnoresCatalogue(rd: Reading, block: string, rows: seq<string>,
                                                        fields: seq<FieldColumn>, lookup: Index, opts: Options,
                                                        lookup': Index, opts': Options)
    requires PositiveFields(fields)
    ensures BlockTally(rd, block, rows, fields, lookup, opts).checked ==
            BlockTally(rd, block, rows, fields, lookup', opts').checked
    decreases |rows|
  {
    if rows != [] {
      BlockCheckedIgnoresCatalogue(rd, block, rows[..|rows| - 1], fields, lookup, opts, lookup', opts');
      RowCheckedIgnoresCatalogue(rd, block, |rows|, rd.cut(rows[|rows| - 1]), fields, lookup, opts, lookup', opts');
    }
  }

  /** Which values are counted depends only on the file and the schema: the
      catalogue and the two switches decide what is reported, not what is
      checked. */
  lemma {:induction false} DocCheckedIgnoresCatalogue(rd: Reading, order: seq<string>, rows: map<string, seq<string>>,
                                                      schema: Schema, lookup: Index, opts: Options,
                                                      lookup': Index, opts': Options)
    requires PositiveColumns(schema)
    requires UpperNames(order, rows)
    ensures DocTally(rd, order, rows, schema, lookup, opts).checked ==
            DocTally(rd, order, rows, schema, lookup', opts').checked
    decreases |order|
  {
    if order != [] {
      var block := order[|order| - 1];
      assert UpperNames(order[..|order| - 1], rows);
      DocCheckedIgnoresCatalogue(rd, order[..|order| - 1], rows, schema, lookup, opts, lookup', opts');
      if Upper(block) in schema {
        BlockCheckedIgnoresCatalogue(rd, block, rows[block], schema[block], lookup, opts, lookup', opts');
      }
    }
  }

  // ---------------------------------------------------------------------
  // Findings come out block by block, and line by line within a block

  /** `a` is reported no later than `b` in a walk over the blocks `order`:
      its block comes first, or it is the same block and its line is not
      later. */
  ghost predicate InFileOrder(order: seq<string>, a: Finding, b: Finding) {
    exists i, k :: 0 <= i <= k < |order| && order[i] == a.block && order[k] == b.block
                   && (i == k ==> a.line <= b.line)
  }

  /** The findings of a line all carry its block and its number. */
  lemma RowStamps(rd: Reading, block: string, line: nat, parts: seq<string>, fields: seq<FieldColumn>,
                  lookup: Index, opts: Options)
    requires PositiveFields(fields)
    ensures forall f :: f in RowTally(rd, block, line, parts, fields, lookup, opts).findings ==>
                        f.block == block && f.line == line
  {
    forall f | f in RowTally(rd, block, line, parts, fields, lookup, opts).findings
      ensures f.block == block && f.line == line
    {
      RowFindingsSound(rd, block, line, parts, fields, lookup, opts, f);
    }
  }

  /** Every finding of `fs` is from `block`, between lines 1 and `n`, and
      they come in line order. */
  ghost predicate LinesOrdered(fs: seq<Finding>, block: string, n: int) {
    && (forall p :: 0 <= p < |fs| ==> fs[p].block == block && 1 <= fs[p].line <= n)
    && (forall p, q :: 0 <= p < q < |fs| ==> fs[p].line <= fs[q].line)
  }

  /** Every finding of `fs` is from a block of `order`, and they come in
      file order. */
  ghost predicate FileOrdered(fs: seq<Finding>, order: seq<string>) {
    && (forall p :: 0 <= p < |fs| ==> fs[p].block in order)
    && (forall p, q :: 0 <= p < q < |fs| ==> InFileOrder(order, fs[p], fs[q]))
  }

  lemma LinesOrderedSnoc(a: seq<Finding>, b: seq<Finding>, block: string, n: int)
    requires LinesOrdered(a, block, n - 1)
    requires forall f :: f in b ==> f.block == block && f.line == n
    requires n >= 1
    ensures LinesOrdered(a + b, block, n)
  {
    var fs := a + b;
    forall p | 0 <= p < |fs| ensures fs[p].block == block && 1 <= fs[p].line <= n {
      if p >= |a| {
        assert fs[p] == b[p - |a|];
      }
    }
    forall p, q | 0 <= p < q < |fs| ensures fs[p].line <= fs[q].line {
      if q >= |a| {
        assert fs[q] == b[q - |a|];
        if p >= |a| {
          assert fs[p] == b[p - |a|];
        }
      }
    }
  }

  lemma InFileOrderGrows(order: seq<string>, x: string, a: Finding, b: Finding)
    requires InFileOrder(order, a, b)
    ensures InFileOrder(order + [x], a, b)
  {
    var i, k :| 0 <= i <= k < |order| && order[i] == a.block && order[k] == b.block
                && (i == k ==> a.line <= b.line);
    var o := order + [x];
    assert o[i] == order[i] && o[k] == order[k];
  }

  lemma FileOrderedSnoc(a: seq<Finding>, b: seq<Finding>, order: seq<string>, block: string)
    requires FileOrdered(a, order)
    requires forall f :: f in b ==> f.block == block
    requires forall p, q :: 0 <= p < q < |b| ==> b[p].line <= b[q].line
    ensures FileOrdered(a + b, order + [block])
  {
    var fs := a + b;
    var o := order + [block];
    var n := |order|;
    assert o[n] == block;
    forall p | 0 <= p < |fs| ensures fs[p].block in o {
      if p < |a| {
        assert fs[p] == a[p] && a[p].block in order;
      } else {
        assert fs[p] == b[p - |a|];
      }
    }
    forall p, q | 0 <= p < q < |fs| ensures InFileOrder(o, fs[p], fs[q]) {
      if q < |a| {
        assert fs[p] == a[p] && fs[q] == a[q];
        InFileOrderGrows(order, block, a[p], a[q]);
      } else if p < |a| {
        assert fs[p] == a[p] && fs[q] == b[q - |a|];
        assert a[p].block in order;
        var i :| 0 <= i < n && order[i] == a[p].block;
        assert o[i] == order[i];
      } else {
        assert fs[p] == b[p - |a|] && fs[q] == b[q - |a|];
      }
    }
  }

  /** The findings of a block carry its name, lie within it, and come in
      line order. */
  lemma {:induction false} BlockLinesOrdered(rd: Reading, block: string, rows: seq<string>, fields: seq<FieldColumn>,
                                             lookup: Index, opts: Options)
    requires PositiveFields(fields)
    ensures LinesOrdered(BlockTally(rd, block, rows, fields, lookup, opts).findings, block, |rows|)
    decreases |rows|
  {
    if rows != [] {
      var pre := rows[..|rows| - 1];
      BlockLinesOrdered(rd, block, pre, fields, lookup, opts);
      RowStamps(rd, block, |rows|, rd.cut(rows[|rows| - 1]), fields, lookup, opts);
      LinesOrderedSnoc(BlockTally(rd, block, pre, fields, lookup, opts).findings,
                       RowTally(rd, block, |rows|, rd.cut(rows[|rows| - 1]), fields, lookup, opts).findings,
                       block, |rows|);
    }
  }

  /** The findings of the walk come block by block in file order, and line
      by line within a block. */
  lemma {:induction false} DocOrdered(rd: Reading, order: seq<string>, rows: map<string, seq<string>>, schema: Schema,
                                      lookup: Index, opts: Options)
    requires PositiveColumns(schema)
    requires UpperNames(order, rows)
    ensures FileOrdered(DocTally(rd, order, rows, schema, lookup, opts).findings, order)
    decreases |order|
  {
    if order != [] {
      var n := |order| - 1;
      var pre := order[..n];
      var block := order[n];
      assert UpperNames(pre, rows);
      assert order == pre + [block];
      DocOrdered(rd, pre, rows, schema, lookup, opts);
      var a := DocTally(rd, pre, rows, schema, lookup, opts).findings;
      if Upper(block) in schema {
        BlockLinesOrdered(rd, block, rows[block], schema[block], lookup, opts);
        FileOrderedSnoc(a, BlockTally(rd, block, rows[block], schema[block], lookup, opts).findings, pre, block);
      } else {
        FileOrderedSnoc(a, [], pre, block);
        assert a + [] == a;
      }
    }
  }

  // ---------------------------------------------------------------------
  // The whole check

  /** A finding of the whole check is exactly the report of a failing
      schema field on some line of some parsed block the schema knows. */
  lemma ValidateFindings(lines: seq<string>, schema: Schema, records: seq<CodeRecord>, opts: Options, f: Finding)
    requires PositiveColumns(schema)
    ensures f in Validate(lines, schema, records, opts).findings <==>
            exists i, r, j :: ReportsAt(FileReading, f, ParseLines(lines).doc.order, ParseLines(lines).doc.rows,
                                        schema, IndexOf(records), opts, i, r, j)
  {
    var doc := ParseLines(lines).doc;
    ParsedNamesUpper(lines);
    DocFindings(FileReading, doc.order, doc.rows, schema, IndexOf(records), opts, f);
  }

  /** A reported value is a stripped, upper-cased, non-empty piece of one of
      the lines of a parsed block, and that line exists. */
  lemma ValidateFindingValue(lines: seq<string>, schema: Schema, records: seq<CodeRecord>, opts: Options,
                             f: Finding)
    requires PositiveColumns(schema)
    requires f in Validate(lines, schema, records, opts).findings
    ensures f.block in ParseLines(lines).doc.order
    ensures 1 <= f.line <= |ParseLines(lines).doc.rows[f.block]|
    ensures f.value != [] && Trimmed(f.value) && Normalize(f.value) == f.value
  {
    var doc := ParseLines(lines).doc;
    ParsedNamesUpper(lines);
    FindingMeaning(FileReading, doc.order, doc.rows, schema, IndexOf(records), opts, f);
    var piece :| f.value == FileReading.norm(piece);
    NormalizeShape(piece);
    NormalizeIdempotent(piece);
  }

  /** The report lists the findings block by block, in the order the blocks
      first appear in the file, and line by line within each block. */
  lemma ValidateOrdered(lines: seq<string>, schema: Schema, records: seq<CodeRecord>, opts: Options)
    requires PositiveColumns(schema)
    ensures FileOrdered(Validate(lines, schema, records, opts).findings, ParseLines(lines).doc.order)
    ensures OrderedByOpening(ClassifyAll(lines), ParseLines(lines).doc.order)
  {
    var doc := ParseLines(lines).doc;
    OrderIsFirstOpening(ClassifyAll(lines));
    ParsedNamesUpper(lines);
    DocOrdered(FileReading, doc.order, doc.rows, schema, IndexOf(records), opts);
  }

  /** The count of checked values is the same whatever the catalogue and
      whichever checks are switched on. */
  lemma ValidateCheckedIgnoresCatalogue(lines: seq<string>, schema: Schema, records: seq<CodeRecord>, opts: Options,
                                        records': seq<CodeRecord>, opts': Options)
    requires PositiveColumns(schema)
    ensures Validate(lines, schema, records, opts).checked == Validate(lines, schema, records', opts').checked
  {
    var doc := ParseLines(lines).doc;
    ParsedNamesUpper(lines);
    DocCheckedIgnoresCatalogue(FileReading, doc.order, doc.rows, schema, IndexOf(records), opts,
                               IndexOf(records'), opts');
  }

  // ---------------------------------------------------------------------
  // One more turn of each loop

  lemma RowTallySnoc(rd: Reading, block: string, line: nat, parts: seq<string>, fields: seq<FieldColumn>,
                     lookup: Index, opts: Options, f: int)
    requires PositiveFields(fields) && 0 <= f < |fields|
    ensures RowTally(rd, block, line, parts, fields[..f + 1], lookup, opts) ==
            Plus(RowTally(rd, block, line, parts, fields[..f], lookup, opts),
                 CheckField(rd, block, line, parts, fields[f], lookup, opts))
  {
    assert fields[..f + 1][..f] == fields[..f];
  }

  lemma BlockTallySnoc(rd: Reading, block: string, rows: seq<string>, fields: seq<FieldColumn>,
                       lookup: Index, opts: Options, r: int)
    requires PositiveFields(fields) && 0 <= r < |rows|
    ensures BlockTally(rd, block, rows[..r + 1], fields, lookup, opts) ==
            Plus(BlockTally(rd, block, rows[..r], fields, lookup, opts),
                 RowTally(rd, block, r + 1, rd.cut(rows[r]), fields, lookup, opts))
  {
    assert rows[..r + 1][..r] == rows[..r];
  }

  lemma DocTallySnoc(rd: Reading, order: seq<string>, rows: map<string, seq<string>>, schema: Schema,
                     lookup: Index, opts: Options, b: int)
    requires PositiveColumns(schema) && UpperNames(order, rows) && 0 <= b < |order|
    ensures UpperNames(order[..b], rows) && UpperNames(order[..b + 1], rows)
    ensures DocTally(rd, order[..b + 1], rows, schema, lookup, opts) ==
            if Upper(order[b]) in schema
            then Plus(DocTally(rd, order[..b], rows, schema, lookup, opts),
                      BlockTally(rd, order[b], rows[order[b]], schema[order[b]], lookup, opts))
            else DocTally(rd, order[..b], rows, schema, lookup, opts)
  {
    assert order[..b + 1][..b] == order[..b];
  }

  /** The body of the innermost loop for one schema field: skip a column the
      line does not have or an empty value; otherwise count it, then report
      an unknown field type (when asked to) or a code the index does not
      allow for it (when asked to). */
  method ValidateField(rd: Reading, block: string, lineNum: nat, parts: seq<string>, fc: FieldColumn,
                       validLookup: Index, opts: Options, checkedIn: nat, entriesIn: seq<Finding>)
    returns (checkedCount: nat, invalidEntries: seq<Finding>)
    requires fc.col >= 1
    ensures Tally(checkedCount, invalidEntries) ==
            Plus(Tally(checkedIn, entriesIn), CheckField(rd, block, lineNum, parts, fc, validLookup, opts))
  {
    checkedCount, invalidEntries := checkedIn, entriesIn;
    var fieldType := fc.field;
    var col := fc.col;
    var idx := col - 1;
    if idx < |parts| {
      var value := rd.norm(parts[idx]);
      if value != [] {
        checkedCount := checkedCount + 1;
        var fieldTypeUpper := rd.norm(fieldType);
        if opts.validateFieldTypes && fieldTypeUpper !in validLookup {
          invalidEntries := invalidEntries + [Finding(block, fieldType, value, lineNum, col, NotRecognized, FIELD, InvalidStatus)];
        } else if opts.validateCodes && fieldTypeUpper in validLookup && value !in validLookup[fieldTypeUpper] {
          var expected := Join(SortedSet(validLookup[fieldTypeUpper]), Separator);
          invalidEntries := invalidEntries + [Finding(block, fieldType, value, lineNum, col, expected, CODE, InvalidStatus)];
        }
      }
    }
  }

  /** The innermost loop: every schema field of one line, appending to the
      running count and findings. */
  method ValidateRow(rd: Reading, block: string, lineNum: nat, parts: seq<string>, fields: seq<FieldColumn>,
                     validLookup: Index, opts: Options, checkedIn: nat, entriesIn: seq<Finding>)
    returns (checkedCount: nat, invalidEntries: seq<Finding>)
    requires PositiveFields(fields)
    ensures Tally(checkedCount, invalidEntries) ==
            Plus(Tally(checkedIn, entriesIn), RowTally(rd, block, lineNum, parts, fields, validLookup, opts))
  {
    checkedCount, invalidEntries := checkedIn, entriesIn;
    for f := 0 to |fields|
      invariant Tally(checkedCount, invalidEntries) ==
                Plus(Tally(checkedIn, entriesIn), RowTally(rd, block, lineNum, parts, fields[..f], validLookup, opts))
    {
      RowTallySnoc(rd, block, lineNum, parts, fields, validLookup, opts, f);
      PlusAssoc(Tally(checkedIn, entriesIn), RowTally(rd, block, lineNum, parts, fields[..f], validLookup, opts),
                CheckField(rd, block, lineNum, parts, fields[f], validLookup, opts));
      checkedCount, invalidEntries :=
        ValidateField(rd, block, lineNum, parts, fields[f], validLookup, opts, checkedCount, invalidEntries);
    }
    assert fields[..|fields|] == fields;
  }

  /** The middle loop: the lines of one block, numbered from 1 and cut at '|'. */
  method ValidateBlock(rd: Reading, block: string, rows: seq<string>, fields: seq<FieldColumn>,
                       validLookup: Index, opts: Options, checkedIn: nat, entriesIn: seq<Finding>)
    returns (checkedCount: nat, invalidEntries: seq<Finding>)
    requires PositiveFields(fields)
    ensures Tally(checkedCount, invalidEntries) ==
            Plus(Tally(checkedIn, entriesIn), BlockTally(rd, block, rows, fields, validLookup, opts))
  {
    checkedCount, invalidEntries := checkedIn, entriesIn;
    for r := 0 to |rows|
      invariant Tally(checkedCount, invalidEntries) ==
                Plus(Tally(checkedIn, entriesIn), BlockTally(rd, block, rows[..r], fields, validLookup, opts))
    {
      BlockTallySnoc(rd, block, rows, fields, validLookup, opts, r);
      PlusAssoc(Tally(checkedIn, entriesIn), BlockTally(rd, block, rows[..r], fields, validLookup, opts),
                RowTally(rd, block, r + 1, rd.cut(rows[r]), fields, validLookup, opts));
      var lineNum := r + 1;
      var parts := rd.cut(rows[r]);
      checkedCount, invalidEntries := ValidateRow(rd, block, lineNum, parts, fields, validLookup, opts, checkedCount, invalidEntries);
    }
    assert rows[..|rows|] == rows;
  }

  /** validate_ev5_blocks: parse, index the catalogue, then walk every block
      whose upper-cased name the schema knows. */
  method ValidateEv5Blocks(lines: seq<string>, schema: Schema, validCodes: seq<CodeRecord>, opts: Options)
    returns (checkedCount: nat, invalidEntries: seq<Finding>)
    requires PositiveColumns(schema)
    ensures Tally(checkedCount, invalidEntries) == Validate(lines, schema, validCodes, opts)
  {
    var blocks := ParseEv5Blocks(lines);
    invalidEntries := [];
    checkedCount := 0;
    var validLookup := BuildCodeIndex(validCodes);
    ParsedNamesUpper(lines);
    for b := 0 to |blocks.order|
      invariant Tally(checkedCount, invalidEntries) == DocTally(FileReading, blocks.order[..b], blocks.rows, schema, validLookup, opts)
    {
      DocTallySnoc(FileReading, blocks.order, blocks.rows, schema, validLookup, opts, b);
      var block := blocks.order[b];
      if Upper(block) !in schema {
        continue;
      }
      checkedCount, invalidEntries :=
        ValidateBlock(FileReading, block, blocks.rows[block], schema[block], validLookup, opts, checkedCount, invalidEntries);
    }
    assert blocks.order[..|blocks.order|] == blocks.order;
  }
}
