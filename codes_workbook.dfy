/** The layout of the valid-codes workbook (save_valid_codes_excel): a header
    row with the field types in sorted order, then one row per rank, where
    the cell under a field holds that field's code of that rank in sorted
    order, or "" once the field has run out of codes. */
module CodesWorkbook {
  import opened Text
  import opened CodeIndex

  /** The largest code-set size among the fields `keys` of the index. */
  function LongestOf(index: Index, keys: seq<string>): (m: nat)
    requires forall k :: k in keys ==> k in index
    ensures forall k :: k in keys ==> |index[k]| <= m
    ensures keys == [] ==> m == 0
    ensures keys != [] ==> exists k :: k in keys && |index[k]| == m
    decreases |keys|
  {
    if keys == [] then 0
    else
      var rest := LongestOf(index, keys[1..]);
      assert forall k :: k in keys[1..] ==> k in keys;
      if |index[keys[0]]| >= rest then |index[keys[0]]| else rest
  }

  /** sorted(valid_codes.keys()): the field types, each once, in increasing
      order. */
  function Fields(index: Index): (fs: seq<string>)
    ensures |fs| == |index|
    ensures forall k :: k in fs <==> k in index
  {
    SortedSetMeaning(index.Keys);
    SortedSet(index.Keys)
  }

  /** max(len(codes) for codes in valid_codes.values()): the size of the
      largest code set. It raises on an empty index, hence the
      precondition. */
  function MaxCodeCount(index: Index): (m: nat)
    requires |index| > 0
    ensures forall k :: k in index ==> |index[k]| <= m
    ensures exists k :: k in index && |index[k]| == m
  {
    var keys := Fields(index);
    assert keys != [] by {
      var k :| k in index;
      assert k in keys;
    }
    LongestOf(index, keys)
  }

  /** The cell under `field` in the code row of rank `i`. */
  function Cell(index: Index, field: string, i: nat): string
    requires field in index
  {
    var codes := SortedSet(index[field]);
    if i < |codes| then codes[i] else ""
  }

  /** The code row of rank `i`, one cell per field of `fields`. */
  function CodeRow(index: Index, fields: seq<string>, i: nat): (row: seq<string>)
    requires forall k :: k in fields ==> k in index
    ensures |row| == |fields|
    decreases |fields|
  {
    if fields == [] then []
    else
      var n := |fields| - 1;
      assert forall k :: k in fields[..n] ==> k in fields;
      CodeRow(index, fields[..n], i) + [Cell(index, fields[n], i)]
  }

  /** The code rows of ranks 0 to n - 1. */
  function CodeRows(index: Index, fields: seq<string>, n: nat): (rows: seq<seq<string>>)
    requires forall k :: k in fields ==> k in index
    ensures |rows| == n
    decreases n
  {
    if n == 0 then [] else CodeRows(index, fields, n - 1) + [CodeRow(index, fields, n - 1)]
  }

  /** The rows of the sheet: the sorted field types, then as many code rows
      as the largest code set has codes. */
  function Grid(index: Index): seq<seq<string>>
    requires |index| > 0
  {
    var fields := Fields(index);
    [fields] + CodeRows(index, fields, MaxCodeCount(index))
  }

  lemma {:induction false} CodeRowAt(index: Index, fields: seq<string>, i: nat, j: int)
    requires forall k :: k in fields ==> k in index
    requires 0 <= j < |fields|
    ensures CodeRow(index, fields, i)[j] == Cell(index, fields[j], i)
    decreases |fields|
  {
    var n := |fields| - 1;
    if j < n {
      assert forall k :: k in fields[..n] ==> k in fields;
      CodeRowAt(index, fields[..n], i, j);
      assert fields[..n][j] == fields[j];
    }
  }

  lemma {:induction false} CodeRowsAt(index: Index, fields: seq<string>, n: nat, i: int)
    requires forall k :: k in fields ==> k in index
    requires 0 <= i < n
    ensures CodeRows(index, fields, n)[i] == CodeRow(index, fields, i)
    decreases n
  {
    if i < n - 1 {
      CodeRowsAt(index, fields, n - 1, i);
    }
  }

  /** The header row is the field types, each once, in increasing order. */
  lemma GridHeader(index: Index)
    requires |index| > 0
    ensures var header := Grid(index)[0];
            && StrictlySorted(header)
            && (forall k :: k in header <==> k in index)
            && |header| == |index|
  {
    SortedSetMeaning(index.Keys);
  }

  /** The sheet has the header and exactly one row per rank up to the size
      of the largest code set; every row has one cell per field type. */
  lemma GridShape(index: Index)
    requires |index| > 0
    ensures |Grid(index)| == MaxCodeCount(index) + 1
    ensures forall i :: 0 <= i < |Grid(index)| ==> |Grid(index)[i]| == |index|
  {
    var fields := Fields(index);
    var rows := CodeRows(index, fields, MaxCodeCount(index));
    forall i | 0 <= i < |rows| ensures |rows[i]| == |index| {
      CodeRowsAt(index, fields, MaxCodeCount(index), i);
    }
  }

  /** Below the header, the cell in row i + 1 under the j-th field is the
      field's i-th code in sorted order, or "" when it has no more codes. */
  lemma GridCell(index: Index, i: int, j: int)
    requires |index| > 0
    requires 0 <= i < MaxCodeCount(index) && 0 <= j < |index|
    ensures |Grid(index)[i + 1]| == |index|
    ensures var codes := SortedSet(index[Fields(index)[j]]);
            Grid(index)[i + 1][j] == if i < |codes| then codes[i] else ""
  {
    var fields := Fields(index);
    var rows := CodeRows(index, fields, MaxCodeCount(index));
    assert Grid(index)[i + 1] == rows[i];
    CodeRowsAt(index, fields, MaxCodeCount(index), i);
    CodeRowAt(index, fields, i, j);
  }

  /** Row `i` of the sheet `g` has a cell `j` that holds `s`. */
  predicate CellHolds(g: seq<seq<string>>, i: int, j: int, s: string) {
    0 <= i < |g| && 0 <= j < |g[i]| && g[i][j] == s
  }

  /** Every code of every field type shows up in that field's column, below
      the header. */
  lemma GridHasEveryCode(index: Index, field: string, code: string)
    requires |index| > 0
    requires field in index && code in index[field]
    ensures exists i, j :: i >= 1 && CellHolds(Grid(index), 0, j, field) && CellHolds(Grid(index), i, j, code)
  {
    var fields := Fields(index);
    var codes := SortedSet(index[field]);
    SortedSetMeaning(index[field]);
    assert field in fields;
    var j :| 0 <= j < |fields| && fields[j] == field;
    assert code in codes;
    var i :| 0 <= i < |codes| && codes[i] == code;
    assert |codes| <= MaxCodeCount(index);
    GridShape(index);
    GridCell(index, i, j);
    assert CellHolds(Grid(index), 0, j, field);
    assert CellHolds(Grid(index), i + 1, j, code);
  }

  /** The sheet is no longer than it needs to be: every code row has a code
      under some field type. */
  lemma GridRowsNeeded(index: Index, i: int)
    requires |index| > 0
    requires 1 <= i < |Grid(index)|
    ensures exists j :: 0 <= j < |index| && i - 1 < |SortedSet(index[Fields(index)[j]])|
  {
    var fields := Fields(index);
    GridShape(index);
    var k :| k in index && |index[k]| == MaxCodeCount(index);
    assert k in fields;
    var j :| 0 <= j < |fields| && fields[j] == k;
    assert i - 1 < |SortedSet(index[fields[j]])|;
  }

  /** The inner loop: the code row of rank `i`, field by field. */
  method BuildCodeRow(validCodes: Index, fields: seq<string>, i: nat) returns (row: seq<string>)
    requires forall k :: k in fields ==> k in validCodes
    ensures row == CodeRow(validCodes, fields, i)
  {
    row := [];
    for j := 0 to |fields|
      invariant row == CodeRow(validCodes, fields[..j], i)
    {
      assert fields[..j + 1][..j] == fields[..j];
      var codes := SortedSet(validCodes[fields[j]]);
      row := row + [if i < |codes| then codes[i] else ""];
    }
    assert fields[..|fields|] == fields;
  }

  /** save_valid_codes_excel without the file: the header row, then for each
      rank up to the largest code set, one cell per field type. */
  method ValidCodesRows(validCodes: Index) returns (rows: seq<seq<string>>)
    requires |validCodes| > 0
    ensures rows == Grid(validCodes)
  {
    var fields := Fields(validCodes);
    rows := [fields];
    var maxLen := MaxCodeCount(validCodes);
    for i := 0 to maxLen
      invariant rows == [fields] + CodeRows(validCodes, fields, i)
    {
      var row := BuildCodeRow(validCodes, fields, i);
      assert [fields] + CodeRows(validCodes, fields, i + 1) == rows + [row] by {
        assert CodeRows(validCodes, fields, i + 1) == CodeRows(validCodes, fields, i) + [row];
      }
      rows := rows + [row];
    }
  }
}
