/**
 * The older spreadsheet reader: the first row's cells, upper-cased, name the
 * columns; the eight order fields are looked up by first occurrence; rows with
 * more than three filled cells become one fixed-shape object each.
 */
module FileReader {
  import opened Wrappers
  import opened Strings
  import opened Cells
  import SheetParser

  /** `Object.values(EFields)`, in declaration order. */
  const Fields: seq<string> := ["SN", "NAME", "ADDRESS", "PHONE", "PRODUCT", "COD", "BRANCH", "VENDOR"]

  /** A numeric header cell has no `toUpperCase`, so upper-casing it throws a TypeError. */
  datatype ReadError = NonTextHeader

  /** One property of an output object: a field name and the raw cell under it
      (`Blank` for `undefined`). */
  datatype FieldValue = FieldValue(field: string, cell: Cell)

  // ---------------------------------------------------------------------------
  // Header keys
  // ---------------------------------------------------------------------------

  /** `headerRow.map(h => h.toUpperCase())`: text is upper-cased without trimming, a missing
      cell stays a hole (`None`), and a numeric cell throws. */
  function UpperKeys(header: seq<Cell>): (r: Result<seq<Option<string>>, ReadError>)
    ensures r.Failure? <==> exists i :: 0 <= i < |header| && header[i].Number?
    ensures r.Success? ==> |r.value| == |header|
    ensures r.Success? ==> forall i :: 0 <= i < |header| ==>
      (r.value[i].Some? <==> header[i].Text?) &&
      (header[i].Text? ==> r.value[i] == Some(ToUpper(header[i].text)))
  {
    if header == [] then Success([])
    else
      match UpperKeys(header[1..])
      case Failure(e) => Failure(e)
      case Success(rest) =>
        match header[0]
        case Number(_) => Failure(NonTextHeader)
        case Blank => Success([None] + rest)
        case Text(t) => Success([Some(ToUpper(t))] + rest)
  }

  /** `excelData?.[0] || []`: the first row, or no header at all for an empty sheet. */
  function HeaderRow(excelData: seq<seq<Cell>>): (h: seq<Cell>)
    ensures excelData == [] ==> h == []
    ensures excelData != [] ==> h == excelData[0]
  {
    if excelData == [] then [] else excelData[0]
  }

  // ---------------------------------------------------------------------------
  // Data rows
  // ---------------------------------------------------------------------------

  /** `excelData.slice(1)` filtered to the rows with MORE than three truthy cells. */
  function DataRows(excelData: seq<seq<Cell>>): (rows: seq<seq<Cell>>)
    ensures |rows| <= |excelData|
    ensures forall i :: 0 <= i < |rows| ==> CountTruthy(rows[i]) > 3
  {
    if excelData == [] then [] else SheetParser.KeptRows(excelData[1..], 4)
  }

  /** A later row is a data row exactly when it has more than three truthy cells. */
  lemma DataRowsMembership(excelData: seq<seq<Cell>>, row: seq<Cell>)
    requires excelData != []
    ensures row in DataRows(excelData) <==> row in excelData[1..] && CountTruthy(row) > 3
  {
    SheetParser.KeptRowsMembership(excelData[1..], 4, row);
  }

  // ---------------------------------------------------------------------------
  // Field indices
  // ---------------------------------------------------------------------------

  /** `keys.indexOf(name)`: the first position holding `name`, if any (holes never match). */
  function IndexOf(keys: seq<Option<string>>, name: string): (r: Option<nat>)
    ensures r.None? <==> Some(name) !in keys
    ensures r.Some? ==> r.value < |keys| && keys[r.value] == Some(name)
    ensures r.Some? ==> forall j :: 0 <= j < r.value ==> keys[j] != Some(name)
  {
    if keys == [] then None
    else if keys[0] == Some(name) then Some(0)
    else
      match IndexOf(keys[1..], name)
      case None => None
      case Some(i) => Some(i + 1)
  }

  /** The `fieldsIndex` reduce over the first `n` field names: each name found among the keys
      is assigned its first position. */
  function FieldsIndex(keys: seq<Option<string>>, names: seq<string>, n: nat): map<string, nat>
    requires n <= |names|
  {
    if n == 0 then map[]
    else
      var acc := FieldsIndex(keys, names, n - 1);
      match IndexOf(keys, names[n - 1])
      case Some(i) => acc[names[n - 1] := i]
      case None => acc
  }

  /** After the reduce, exactly the names present among the keys have an index, and it is the
      position of their first occurrence. */
  lemma {:induction false} FieldsIndexFirstOccurrence(keys: seq<Option<string>>, names: seq<string>, n: nat, f: string)
    requires n <= |names|
    ensures f in FieldsIndex(keys, names, n) <==> f in names[..n] && Some(f) in keys
    ensures f in FieldsIndex(keys, names, n) ==> IndexOf(keys, f) == Some(FieldsIndex(keys, names, n)[f])
  {
    if n > 0 {
      FieldsIndexFirstOccurrence(keys, names, n - 1, f);
      assert names[..n] == names[..n - 1] + [names[n - 1]];
    }
  }

  // ---------------------------------------------------------------------------
  // Output objects
  // ---------------------------------------------------------------------------

  /** `row[fieldsIndex[f]]`: the raw cell at the field's column; `undefined` when the field has
      no column or the row is too short. */
  function CellFor(row: seq<Cell>, idx: map<string, nat>, f: string): Cell {
    if f in idx && idx[f] < |row| then row[idx[f]] else Blank
  }

  /** The object built for one row: the eight fields in order, each with its cell. */
  function RowObject(row: seq<Cell>, idx: map<string, nat>): (obj: seq<FieldValue>)
    ensures |obj| == |Fields|
    ensures forall i :: 0 <= i < |obj| ==> obj[i] == FieldValue(Fields[i], CellFor(row, idx, Fields[i]))
  {
    seq(|Fields|, i requires 0 <= i < |Fields| => FieldValue(Fields[i], CellFor(row, idx, Fields[i])))
  }

  /** The body of `reader.onload` after the sheet is decoded: one object per data row. */
  function ReadSheet(excelData: seq<seq<Cell>>): (r: Result<seq<seq<FieldValue>>, ReadError>)
    ensures r.Success? ==> |r.value| == |DataRows(excelData)|
  {
    match UpperKeys(HeaderRow(excelData))
    case Failure(e) => Failure(e)
    case Success(keys) =>
      var idx := FieldsIndex(keys, Fields, |Fields|);
      var rows := DataRows(excelData);
      Success(seq(|rows|, i requires 0 <= i < |rows| => RowObject(rows[i], idx)))
  }

  /** The keys of an output object, in order. */
  function FieldNames(obj: seq<FieldValue>): (names: seq<string>)
    ensures |names| == |obj|
  {
    seq(|obj|, i requires 0 <= i < |obj| => obj[i].field)
  }

  /** `obj[field]`: the cell under the first key named `field`; `undefined` when the object has no such key. */
  function FieldCell(obj: seq<FieldValue>, field: string): Cell {
    if obj == [] then Blank
    else if obj[0].field == field then obj[0].cell
    else FieldCell(obj[1..], field)
  }

  /** The cell under the first key named `field`. */
  lemma {:induction false} FieldCellFirst(obj: seq<FieldValue>, field: string, k: nat)
    requires k < |obj| && obj[k].field == field
    requires forall j :: 0 <= j < k ==> obj[j].field != field
    ensures FieldCell(obj, field) == obj[k].cell
  {
    if k > 0 {
      FieldCellFirst(obj[1..], field, k - 1);
    }
  }

  /** In an object read from the sheet, the field at key `k` is found at position `k`. */
  lemma FieldCellOfRead(obj: seq<FieldValue>, k: nat)
    requires FieldNames(obj) == Fields && k < |Fields|
    ensures FieldCell(obj, Fields[k]) == obj[k].cell
  {
    forall j | 0 <= j < |Fields| ensures obj[j].field == Fields[j] {
      assert FieldNames(obj)[j] == obj[j].field;
    }
    FieldCellFirst(obj, Fields[k], k);
  }

  /** Reading fails only on a numeric header cell; on success there is one object per data row,
      in order, each with exactly the eight field keys, and each field holds the cell at the first
      column whose upper-cased header is that field's name, or `undefined` when there is no such
      column or the row is shorter. */
  lemma ReadSheetShape(excelData: seq<seq<Cell>>, i: nat, k: nat)
    ensures ReadSheet(excelData).Failure? <==>
      exists c :: 0 <= c < |HeaderRow(excelData)| && HeaderRow(excelData)[c].Number?
    ensures ReadSheet(excelData).Success? && i < |ReadSheet(excelData).value| ==>
      FieldNames(ReadSheet(excelData).value[i]) == Fields
    ensures ReadSheet(excelData).Success? && i < |ReadSheet(excelData).value| && k < |Fields| ==>
      var keys := UpperKeys(HeaderRow(excelData)).value;
      var row := DataRows(excelData)[i];
      ReadSheet(excelData).value[i][k].cell ==
        match IndexOf(keys, Fields[k])
        case None => Blank
        case Some(c) => if c < |row| then row[c] else Blank
  {
    var r := ReadSheet(excelData);
    if r.Success? && i < |r.value| {
      var keys := UpperKeys(HeaderRow(excelData)).value;
      var idx := FieldsIndex(keys, Fields, |Fields|);
      var row := DataRows(excelData)[i];
      assert r.value[i] == RowObject(row, idx);
      RowObjectNames(row, idx);
      if k < |Fields| {
        CellForFirst(keys, row, k);
      }
    }
  }

  /** Every object built for a row has exactly the eight field keys, in order. */
  lemma RowObjectNames(row: seq<Cell>, idx: map<string, nat>)
    ensures FieldNames(RowObject(row, idx)) == Fields
  {
    var obj := RowObject(row, idx);
    forall j | 0 <= j < |Fields| ensures FieldNames(obj)[j] == Fields[j] {
      assert obj[j].field == Fields[j];
    }
  }

  /** The cell found for field `k` is the one at the first column holding its name. */
  lemma CellForFirst(keys: seq<Option<string>>, row: seq<Cell>, k: nat)
    requires k < |Fields|
    ensures CellFor(row, FieldsIndex(keys, Fields, |Fields|), Fields[k]) ==
      match IndexOf(keys, Fields[k])
      case None => Blank
      case Some(c) => if c < |row| then row[c] else Blank
  {
    FieldsIndexFirstOccurrence(keys, Fields, |Fields|, Fields[k]);
    assert Fields[..|Fields|] == Fields;
    assert Fields[k] in Fields;
  }

  // ---------------------------------------------------------------------------
  // Comparison with the newer parser
  // ---------------------------------------------------------------------------

  /** A row with exactly three truthy cells is kept by the newer parser under its default
      options, and dropped here. */
  lemma ThresholdDiffers(header: seq<Cell>, row: seq<Cell>)
    requires CountTruthy(row) == 3
    ensures SheetParser.KeptRows(SheetParser.DataRows([header, row], SheetParser.DefaultOptions),
      SheetParser.MinCells(SheetParser.DefaultOptions)) == [row]
    ensures DataRows([header, row]) == []
  {
    var data := [header, row];
    assert data[1..] == [row];
    assert SheetParser.DataRows(data, SheetParser.DefaultOptions) == [row];
    assert SheetParser.KeptRows([row][1..], 3) == [];
    assert SheetParser.KeptRows([row], 3) == [row];
    assert SheetParser.KeptRows([row][1..], 4) == [];
    assert SheetParser.KeptRows([row], 4) == [];
  }

  /** With the column name "NAME" twice, this reader takes the first column and the newer parser
      the last. */
  lemma DuplicateHeaderDiffers(a: string, b: string)
    ensures var header := [Text("NAME"), Text("NAME")];
      var keys := UpperKeys(header).value;
      CellFor([Text(a), Text(b)], FieldsIndex(keys, Fields, |Fields|), "NAME") == Text(a)
    ensures SheetParser.Lookup(SheetParser.BuildRecord(["NAME", "NAME"], [Text(a), Text(b)]), "NAME") == Some(b)
  {
    var header := [Text("NAME"), Text("NAME")];
    var keys := UpperKeys(header).value;
    assert ToUpper("NAME") == "NAME";
    assert keys == [Some("NAME"), Some("NAME")];
    assert IndexOf(keys, "NAME") == Some(0);
    FieldsIndexFirstOccurrence(keys, Fields, |Fields|, "NAME");
    assert Fields[..|Fields|] == Fields;
    assert "NAME" in Fields[..|Fields|] by { assert Fields[1] == "NAME"; }
    SheetParser.RecordShape(["NAME", "NAME"], [Text(a), Text(b)], "NAME");
    assert SheetParser.LastIndexOf(["NAME", "NAME"], "NAME") == 1;
  }
}
