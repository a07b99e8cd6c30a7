/**
 * The data table: a header row and body rows of text, each body cell flagged
 * with the first error reported for its row and column.
 */
module DataTable {
  import opened Wrappers
  import opened ValidationSchema

  /** The `emptyMessage` default. */
  const DefaultEmptyMessage: string := "No data available"

  /** A rendered body cell: its text and the error shown on it, if any. */
  datatype CellView = CellView(text: string, error: Option<ValidationError>)

  /** What the component renders: only the empty message, or a table. */
  datatype View =
    | EmptyView(message: string)
    | TableView(headers: seq<string>, rows: seq<seq<CellView>>, hasError: bool)

  /** `error.rowIndex === rowIndex && error.field === header`; an error without a row index or
      a column without a header never matches. */
  predicate Matches(e: ValidationError, rowIndex: int, header: Option<string>) {
    e.rowIndex == Some(rowIndex) && header == Some(e.field)
  }

  /** The position of the first error matching the cell. */
  function FindError(errors: seq<ValidationError>, rowIndex: int, header: Option<string>): (r: Option<nat>)
    ensures r.Some? ==> r.value < |errors| && Matches(errors[r.value], rowIndex, header)
    ensures r.Some? ==> forall j :: 0 <= j < r.value ==> !Matches(errors[j], rowIndex, header)
    ensures r.None? ==> forall j :: 0 <= j < |errors| ==> !Matches(errors[j], rowIndex, header)
  {
    if errors == [] then None
    else if Matches(errors[0], rowIndex, header) then Some(0)
    else
      match FindError(errors[1..], rowIndex, header)
      case Some(k) => Some(k + 1)
      case None => None
  }

  /** `getCellError`: `errors.find(...)`, the first matching error or `undefined`. */
  function GetCellError(errors: seq<ValidationError>, rowIndex: int, header: Option<string>): (r: Option<ValidationError>)
    ensures r.Some? ==> r.value in errors && Matches(r.value, rowIndex, header)
    ensures r.None? <==> forall j :: 0 <= j < |errors| ==> !Matches(errors[j], rowIndex, header)
  {
    match FindError(errors, rowIndex, header)
    case Some(k) => Some(errors[k])
    case None => None
  }

  /** `tableHeaders[cellIndex]`: `undefined` past the last header. */
  function HeaderAt(headers: seq<string>, c: nat): (h: Option<string>)
    ensures h.Some? <==> c < |headers|
    ensures c < |headers| ==> h == Some(headers[c])
  {
    if c < |headers| then Some(headers[c]) else None
  }

  /** One body row: every cell keeps its text and shows the error found for its row index and
      its column's header. */
  function RenderRow(row: seq<string>, rowIndex: nat, headers: seq<string>, errors: seq<ValidationError>): seq<CellView> {
    seq(|row|, c requires 0 <= c < |row| => CellView(row[c], GetCellError(errors, rowIndex, HeaderAt(headers, c))))
  }

  /** `headers || data[0]`: the given headers, else the first row. */
  function TableHeaders(headers: Option<seq<string>>, data: seq<seq<string>>): seq<string>
    requires data != []
  {
    match headers
    case Some(h) => h
    case None => data[0]
  }

  /** `headers ? data : data.slice(1)`: every row with given headers, else all but the first. */
  function TableData(headers: Option<seq<string>>, data: seq<seq<string>>): seq<seq<string>>
    requires data != []
  {
    if headers.Some? then data else data[1..]
  }

  /** `DataTable`. */
  function Render(headers: Option<seq<string>>, data: seq<seq<string>>, emptyMessage: Option<string>,
    hasError: bool, errors: seq<ValidationError>): (v: View)
    ensures v.EmptyView? <==> data == []
    ensures v.EmptyView? ==> v.message == emptyMessage.GetOr(DefaultEmptyMessage)
  {
    if |data| == 0 then EmptyView(emptyMessage.GetOr(DefaultEmptyMessage))
    else
      var th := TableHeaders(headers, data);
      var body := TableData(headers, data);
      TableView(th, seq(|body|, r requires 0 <= r < |body| => RenderRow(body[r], r, th, errors)), hasError)
  }

  /** With data, the header row is the given headers or else the first row, which then is not a
      body row; the body keeps every remaining row and every cell's text in place. */
  lemma RenderShape(headers: Option<seq<string>>, data: seq<seq<string>>, emptyMessage: Option<string>,
    hasError: bool, errors: seq<ValidationError>)
    requires data != []
    ensures var v := Render(headers, data, emptyMessage, hasError, errors);
      v.TableView? && v.hasError == hasError &&
      v.headers == (if headers.Some? then headers.value else data[0]) &&
      |v.rows| == (if headers.Some? then |data| else |data| - 1) &&
      (forall r :: 0 <= r < |v.rows| ==> |v.rows[r]| == |BodyRow(headers, data, r)|) &&
      (forall r, c :: 0 <= r < |v.rows| && 0 <= c < |v.rows[r]| ==> v.rows[r][c].text == BodyRow(headers, data, r)[c])
  {
  }

  /** Body row `r` of the data: row `r` with given headers, else row `r + 1`. */
  function BodyRow(headers: Option<seq<string>>, data: seq<seq<string>>, r: nat): seq<string> {
    if headers.Some? && r < |data| then data[r]
    else if headers.None? && r + 1 < |data| then data[r + 1]
    else []
  }

  /** Body cell `(r, c)` is flagged exactly when some error carries row index `r` and the field
      under column `c`; the error shown is the first such one. */
  lemma CellFlagged(headers: Option<seq<string>>, data: seq<seq<string>>, emptyMessage: Option<string>,
    hasError: bool, errors: seq<ValidationError>, r: nat, c: nat)
    requires data != []
    requires r < |TableData(headers, data)| && c < |TableData(headers, data)[r]|
    ensures var v := Render(headers, data, emptyMessage, hasError, errors);
      var th := TableHeaders(headers, data);
      r < |v.rows| && c < |v.rows[r]| &&
      (v.rows[r][c].error.Some? <==>
        (c < |th| && exists k :: 0 <= k < |errors| && errors[k].rowIndex == Some(r) && errors[k].field == th[c])) &&
      (v.rows[r][c].error.Some? ==> v.rows[r][c].error == Some(errors[FindError(errors, r, HeaderAt(th, c)).value]))
  {
    var v := Render(headers, data, emptyMessage, hasError, errors);
    var th := TableHeaders(headers, data);
    var body := TableData(headers, data);
    assert v.rows[r] == RenderRow(body[r], r, th, errors);
    var h := HeaderAt(th, c);
    if c < |th| && exists k :: 0 <= k < |errors| && errors[k].rowIndex == Some(r) && errors[k].field == th[c] {
      var k :| 0 <= k < |errors| && errors[k].rowIndex == Some(r) && errors[k].field == th[c];
      assert Matches(errors[k], r, h);
    }
    if v.rows[r][c].error.Some? {
      var k := FindError(errors, r, h).value;
      assert Matches(errors[k], r, h);
    }
  }
}
