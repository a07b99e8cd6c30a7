/**
 * The label-printing page: each parsed record is converted and run through the
 * order-row schema, the errors of all rows are gathered in row order, and
 * printing is enabled only when there are none.
 */
module LabelPrint {
  import opened Wrappers
  import opened Strings
  import opened SheetParser
  import opened ValidationSchema
  import LabelPage
  import DataTable

  // ---------------------------------------------------------------------------
  // validateRow
  // ---------------------------------------------------------------------------

  /** `Number(s)` for the values this model admits: a decimal numeral reads as its value,
      anything else as NaN. */
  function NumberOf(s: string): (v: Value)
    ensures IsDigits(s) ==> v == Num(DigitsValue(s))
    ensures !IsDigits(s) ==> v == NaN
  {
    if IsDigits(s) then Num(DigitsValue(s)) else NaN
  }

  /** `row.X ? Number(row.X) : undefined`: a missing or empty cell becomes `undefined`. */
  function Numeric(cell: Option<string>): (v: Value)
    ensures cell.None? || cell == Some("") ==> v == Undefined
    ensures cell.Some? && cell.value != "" ==> v == NumberOf(cell.value)
  {
    match cell
    case Some(s) => if s != "" then NumberOf(s) else Undefined
    case None => Undefined
  }

  /** The record as the schema sees it: every property a string. */
  function AsInput(row: Record): (input: Input)
    ensures forall k :: k in input <==> k in KeysOf(row)
    ensures forall k :: k in input ==> input[k] == Str(Lookup(row, k).value)
  {
    map k | k in KeysOf(row) :: Str(Lookup(row, k).value)
  }

  /** `processedRow`: a copy of the row in which COD and PP are converted to numbers; every other
      property is the row's own string. */
  function ProcessRow(row: Record): (input: Input)
    ensures Get(input, "COD") == Numeric(Lookup(row, "COD"))
    ensures Get(input, "PP") == Numeric(Lookup(row, "PP"))
    ensures forall k :: k != "COD" && k != "PP" ==>
      Get(input, k) == if k in KeysOf(row) then Str(Lookup(row, k).value) else Undefined
  {
    AsInput(row)["COD" := Numeric(Lookup(row, "COD"))]["PP" := Numeric(Lookup(row, "PP"))]
  }

  /** A row satisfies the schema. */
  predicate RowValid(row: Record) {
    SchemaIssues(ProcessRow(row)) == []
  }

  /** `validateRow(row, rowIndex)`: each schema issue as an error on its field, tagged with the
      row index; no errors exactly when the row satisfies the schema. */
  function ValidateRow(row: Record, rowIndex: int): seq<ValidationError> {
    RowErrorsOf(SchemaIssues(ProcessRow(row)), rowIndex)
  }

  /** A row gets no errors exactly when it satisfies the schema. */
  lemma ValidateRowEmptyIff(row: Record, rowIndex: int)
    ensures ValidateRow(row, rowIndex) == [] <==> RowValid(row)
  {
    assert |ValidateRow(row, rowIndex)| == |SchemaIssues(ProcessRow(row))|;
  }

  /** Schema issues as row errors: one error per issue, in order, on the issue's key, with its
      message, tagged with the row index. */
  function RowErrorsOf(issues: seq<Issue>, rowIndex: int): (errors: seq<ValidationError>)
    ensures |errors| == |issues|
    ensures forall j :: 0 <= j < |errors| ==>
      errors[j] == ValidationError(issues[j].path, issues[j].message, Some(rowIndex))
  {
    seq(|issues|, j requires 0 <= j < |issues| => ValidationError(issues[j].path, issues[j].message, Some(rowIndex)))
  }

  /** Some error is about `field`. */
  predicate HasErrorFor(errors: seq<ValidationError>, field: string) {
    exists j :: 0 <= j < |errors| && errors[j].field == field
  }

  /** A row's errors name a field exactly when the schema has an issue on that key. */
  lemma ErrorForIssue(row: Record, rowIndex: int, field: string)
    ensures HasErrorFor(ValidateRow(row, rowIndex), field) <==> HasIssueFor(SchemaIssues(ProcessRow(row)), field)
  {
    var errors := ValidateRow(row, rowIndex);
    var issues := SchemaIssues(ProcessRow(row));
    if HasErrorFor(errors, field) {
      var j :| 0 <= j < |errors| && errors[j].field == field;
      assert issues[j].path == field;
    }
    if HasIssueFor(issues, field) {
      var j :| 0 <= j < |issues| && issues[j].path == field;
      assert errors[j].field == field;
    }
  }

  /** An empty or missing COD cell always draws a COD error. */
  lemma EmptyCodIsError(row: Record, rowIndex: int)
    requires Lookup(row, "COD").None? || Lookup(row, "COD") == Some("")
    ensures HasErrorFor(ValidateRow(row, rowIndex), "COD")
  {
    CodRequired(ProcessRow(row));
    ErrorForIssue(row, rowIndex, "COD");
  }

  /** An empty or missing PP cell never draws a PP error. */
  lemma EmptyPpIsFine(row: Record, rowIndex: int)
    requires Lookup(row, "PP").None? || Lookup(row, "PP") == Some("")
    ensures !HasErrorFor(ValidateRow(row, rowIndex), "PP")
  {
    PpOptional(ProcessRow(row));
    ErrorForIssue(row, rowIndex, "PP");
  }

  // ---------------------------------------------------------------------------
  // handleDataAvailable
  // ---------------------------------------------------------------------------

  /** Each row's own errors, row by row. */
  function RowErrors(rows: seq<Record>): seq<seq<ValidationError>> {
    seq(|rows|, i requires 0 <= i < |rows| => ValidateRow(rows[i], i))
  }

  /** Every error in list `i` is tagged with row index `i`. */
  predicate Tagged(lists: seq<seq<ValidationError>>) {
    forall i, j :: 0 <= i < |lists| && 0 <= j < |lists[i]| ==> lists[i][j].rowIndex == Some(i)
  }

  /** List `i` of the row errors is row `i`'s validation, so it carries index `i` throughout. */
  lemma RowErrorsTagged(rows: seq<Record>)
    ensures Tagged(RowErrors(rows))
  {
    forall i, j | 0 <= i < |rows| && 0 <= j < |RowErrors(rows)[i]|
      ensures RowErrors(rows)[i][j].rowIndex == Some(i)
    {
      var issues := SchemaIssues(ProcessRow(rows[i]));
      assert RowErrors(rows)[i] == RowErrorsOf(issues, i);
    }
  }

  /** The first `n` lists concatenated in order. */
  function Gather(lists: seq<seq<ValidationError>>, n: nat): seq<ValidationError>
    requires n <= |lists|
  {
    if n == 0 then [] else Gather(lists, n - 1) + lists[n - 1]
  }

  /** The errors of all rows. */
  function AllErrors(rows: seq<Record>): seq<ValidationError> {
    Gather(RowErrors(rows), |rows|)
  }

  /** The errors tagged with row index `i`, in order. */
  function ErrorsOfRow(errors: seq<ValidationError>, i: int): (r: seq<ValidationError>)
    ensures |r| <= |errors|
  {
    if errors == [] then []
    else
      var last := errors[|errors| - 1];
      ErrorsOfRow(errors[..|errors| - 1], i) + (if last.rowIndex == Some(i) then [last] else [])
  }

  lemma {:induction false} ErrorsOfRowAppend(a: seq<ValidationError>, b: seq<ValidationError>, i: int)
    ensures ErrorsOfRow(a + b, i) == ErrorsOfRow(a, i) + ErrorsOfRow(b, i)
  {
    if b == [] {
      assert a + b == a;
    } else {
      assert (a + b)[..|a + b| - 1] == a + b[..|b| - 1];
      ErrorsOfRowAppend(a, b[..|b| - 1], i);
    }
  }

  /** A list whose errors all carry row index `k` contributes to row `k` whole and to no other. */
  lemma {:induction false} ErrorsOfRowUniform(errors: seq<ValidationError>, k: int, i: int)
    requires forall j :: 0 <= j < |errors| ==> errors[j].rowIndex == Some(k)
    ensures ErrorsOfRow(errors, i) == if i == k then errors else []
  {
    if errors != [] {
      ErrorsOfRowUniform(errors[..|errors| - 1], k, i);
      assert errors == errors[..|errors| - 1] + [errors[|errors| - 1]];
    }
  }

  /** No list is lost or moved: the errors tagged with `i` in the first `n` lists are exactly
      list `i`, in order, and nothing is tagged with an index outside them. */
  lemma {:induction false} ErrorsOfRowGather(lists: seq<seq<ValidationError>>, n: nat, i: int)
    requires n <= |lists| && Tagged(lists)
    ensures ErrorsOfRow(Gather(lists, n), i) == if 0 <= i < n then lists[i] else []
  {
    if n > 0 {
      ErrorsOfRowGather(lists, n - 1, i);
      ErrorsOfRowAppend(Gather(lists, n - 1), lists[n - 1], i);
      ErrorsOfRowUniform(lists[n - 1], n - 1, i);
    }
  }

  /** The gathered list is empty exactly when each of the first `n` lists is. */
  lemma {:induction false} GatherEmpty(lists: seq<seq<ValidationError>>, n: nat)
    requires n <= |lists|
    ensures Gather(lists, n) == [] <==> forall i :: 0 <= i < n ==> lists[i] == []
  {
    if n > 0 {
      GatherEmpty(lists, n - 1);
    }
  }

  /** Every gathered error carries the index of one of the first `n` lists. */
  lemma {:induction false} GatherIndexed(lists: seq<seq<ValidationError>>, n: nat)
    requires n <= |lists| && Tagged(lists)
    ensures forall e :: e in Gather(lists, n) ==> e.rowIndex.Some? && 0 <= e.rowIndex.value < n
  {
    if n > 0 {
      GatherIndexed(lists, n - 1);
      forall e | e in lists[n - 1] ensures e.rowIndex == Some(n - 1) {
        var j :| 0 <= j < |lists[n - 1]| && lists[n - 1][j] == e;
      }
    }
  }

  /** Every gathered error names one of the rows. */
  lemma AllErrorsIndexed(rows: seq<Record>)
    ensures forall e :: e in AllErrors(rows) ==> e.rowIndex.Some? && 0 <= e.rowIndex.value < |rows|
  {
    RowErrorsTagged(rows);
    GatherIndexed(RowErrors(rows), |rows|);
  }

  /** The gathered errors tagged with row `i` are exactly that row's own errors, in order. */
  lemma AllErrorsOfRow(rows: seq<Record>, i: int)
    requires 0 <= i < |rows|
    ensures ErrorsOfRow(AllErrors(rows), i) == ValidateRow(rows[i], i)
  {
    RowErrorsTagged(rows);
    ErrorsOfRowGather(RowErrors(rows), |rows|, i);
  }

  /** No error is gathered exactly when every row satisfies the schema. */
  lemma AllErrorsEmpty(rows: seq<Record>)
    ensures AllErrors(rows) == [] <==> forall r :: 0 <= r < |rows| ==> RowValid(rows[r])
  {
    var lists := RowErrors(rows);
    GatherEmpty(lists, |rows|);
    forall r | 0 <= r < |rows| ensures lists[r] == [] <==> RowValid(rows[r]) {
      assert lists[r] == ValidateRow(rows[r], r);
    }
  }

  /** The `forEach` loop of `handleDataAvailable`: each row's errors pushed after the previous
      rows' errors. */
  method CollectErrors(rows: seq<Record>) returns (errors: seq<ValidationError>)
    ensures errors == AllErrors(rows)
  {
    errors := [];
    for index := 0 to |rows|
      invariant errors == Gather(RowErrors(rows), index)
    {
      var rowErrors := ValidateRow(rows[index], index);
      GatherStep(rows, index);
      errors := errors + rowErrors;
    }
  }

  /** One more row's errors go after those of the rows before it. */
  lemma GatherStep(rows: seq<Record>, index: nat)
    requires index < |rows|
    ensures Gather(RowErrors(rows), index + 1) == Gather(RowErrors(rows), index) + ValidateRow(rows[index], index)
  {
    assert RowErrors(rows)[index] == ValidateRow(rows[index], index);
  }

  /** Some error tagged with row `i` is about `field` exactly when that row's errors hold one. */
  lemma {:induction false} ErrorsOfRowHasError(errors: seq<ValidationError>, i: int, field: string)
    ensures HasErrorFor(ErrorsOfRow(errors, i), field) <==>
      exists k :: 0 <= k < |errors| && errors[k].rowIndex == Some(i) && errors[k].field == field
  {
    if errors != [] {
      var init := errors[..|errors| - 1];
      var last := errors[|errors| - 1];
      var tail := if last.rowIndex == Some(i) then [last] else [];
      ErrorsOfRowHasError(init, i, field);
      var own := ErrorsOfRow(errors, i);
      assert own == ErrorsOfRow(init, i) + tail;
      if HasErrorFor(own, field) {
        var j :| 0 <= j < |own| && own[j].field == field;
        if j < |ErrorsOfRow(init, i)| {
          assert own[j] == ErrorsOfRow(init, i)[j];
          var k :| 0 <= k < |init| && init[k].rowIndex == Some(i) && init[k].field == field;
          assert errors[k] == init[k];
        } else {
          assert own[j] == last;
        }
      }
      if exists k :: 0 <= k < |errors| && errors[k].rowIndex == Some(i) && errors[k].field == field {
        var k :| 0 <= k < |errors| && errors[k].rowIndex == Some(i) && errors[k].field == field;
        if k < |init| {
          assert init[k] == errors[k];
          var j :| 0 <= j < |ErrorsOfRow(init, i)| && ErrorsOfRow(init, i)[j].field == field;
          assert own[j] == ErrorsOfRow(init, i)[j];
        } else {
          assert own[|own| - 1] == last;
        }
      }
    }
  }

  // ---------------------------------------------------------------------------
  // The data table
  // ---------------------------------------------------------------------------

  /** `Object.values(row)`: the values in key order. */
  function ValuesOf(row: Record): (vs: seq<string>)
    ensures |vs| == |row|
    ensures forall i :: 0 <= i < |row| ==> vs[i] == row[i].value
  {
    seq(|row|, i requires 0 <= i < |row| => row[i].value)
  }

  /** The table's data: the first record's keys as the header row, then every record's
      values. */
  function TableRows(rows: seq<Record>): seq<seq<string>>
    requires |rows| > 0
  {
    [KeysOf(rows[0])] + seq(|rows|, i requires 0 <= i < |rows| => ValuesOf(rows[i]))
  }

  const TableEmptyMessage: string := "Upload or paste data to see results"

  /** The data table as the page renders it for `rows` and `errors`. */
  function Table(rows: seq<Record>, errors: seq<ValidationError>): DataTable.View
    requires |rows| > 0
  {
    DataTable.Render(None, TableRows(rows), Some(TableEmptyMessage), |errors| > 0, errors)
  }

  /** For any error list, the table has one body row per record holding its values under the
      first record's keys, and cell `(r, c)` is flagged exactly when an error tagged with row `r`
      is on the key heading column `c`. */
  lemma TableCells(rows: seq<Record>, errors: seq<ValidationError>, r: nat, c: nat)
    requires 0 <= r < |rows| && c < |rows[r]|
    ensures var v := Table(rows, errors);
      v.TableView? && v.headers == KeysOf(rows[0]) && |v.rows| == |rows| &&
      |v.rows[r]| == |rows[r]| && v.rows[r][c].text == rows[r][c].value &&
      v.hasError == (errors != []) &&
      (v.rows[r][c].error.Some? <==> c < |rows[0]| && HasErrorFor(ErrorsOfRow(errors, r), KeysOf(rows[0])[c]))
  {
    var data := TableRows(rows);
    assert DataTable.TableData(None, data)[r] == ValuesOf(rows[r]);
    DataTable.RenderShape(None, data, Some(TableEmptyMessage), |errors| > 0, errors);
    DataTable.CellFlagged(None, data, Some(TableEmptyMessage), |errors| > 0, errors, r, c);
    if c < |rows[0]| {
      ErrorsOfRowHasError(errors, r, KeysOf(rows[0])[c]);
    }
  }

  /** With the gathered errors, cell `(r, c)` is flagged exactly when row `r`'s own validation
      has an error on the key heading column `c`, and the table is marked erroneous exactly when
      some row fails the schema. */
  lemma TableFlagsRowErrors(rows: seq<Record>, r: nat, c: nat)
    requires 0 <= r < |rows| && c < |rows[r]|
    ensures var v := Table(rows, AllErrors(rows));
      v.rows[r][c].text == rows[r][c].value &&
      (v.hasError <==> exists i :: 0 <= i < |rows| && !RowValid(rows[i])) &&
      (v.rows[r][c].error.Some? <==> c < |rows[0]| && HasErrorFor(ValidateRow(rows[r], r), KeysOf(rows[0])[c]))
  {
    TableCells(rows, AllErrors(rows), r, c);
    AllErrorsOfRow(rows, r);
    AllErrorsEmpty(rows);
  }

  // ---------------------------------------------------------------------------
  // The page state
  // ---------------------------------------------------------------------------

  /** The page's state: the parsed records, their errors and the chosen paper. */
  class LabelPrintPage {
    var data: seq<Record>
    var validationErrors: seq<ValidationError>
    var labelType: LabelPage.LabelSize

    /** The errors shown are always those of the records shown. */
    ghost predicate Valid()
      reads this
    {
      validationErrors == AllErrors(data)
    }

    /** `useState([])`, `useState([])`, `useState(8)`. */
    constructor ()
      ensures Valid()
      ensures data == [] && validationErrors == [] && labelType == 8
    {
      data := [];
      validationErrors := [];
      labelType := 8;
    }

    /** `handleDataAvailable`: the new records replace the old, with their errors. */
    method HandleDataAvailable(parsedData: seq<Record>)
      modifies this
      ensures Valid()
      ensures data == parsedData && validationErrors == AllErrors(parsedData)
      ensures labelType == old(labelType)
    {
      data := parsedData;
      var errors := CollectErrors(parsedData);
      validationErrors := errors;
    }

    /** Choosing a paper size changes nothing else. */
    method SetLabelType(paper: LabelPage.LabelSize)
      requires Valid()
      modifies this
      ensures Valid()
      ensures labelType == paper
      ensures data == old(data) && validationErrors == old(validationErrors)
    {
      labelType := paper;
    }

    /** The print button is shown once there are records. */
    predicate PrintShown()
      reads this
    {
      |data| > 0
    }

    /** The print button is enabled exactly when it is shown and no error is listed, that is, when
        there are records and each of them satisfies the schema. */
    predicate PrintEnabled()
      reads this
      requires Valid()
      ensures PrintEnabled() <==> |data| > 0 && forall r :: 0 <= r < |data| ==> RowValid(data[r])
    {
      AllErrorsEmpty(data);
      PrintShown() && |validationErrors| == 0
    }
  }
}
