/**
 * The tabular ingestion parser: raw rows of cells (from a spreadsheet or from
 * pasted text) become header-keyed records.
 */
module SheetParser {
  import opened Wrappers
  import opened Strings
  import opened Cells

  /** The parser's options; `None` is a property left out of the options object. */
  datatype Options = Options(minRequiredCells: Option<int>, headerRow: Option<seq<string>>)

  /** The options used when the caller passes none. */
  const DefaultOptions := Options(Some(3), None)

  /** Without explicit headers the first row is read as the header row; reading it from an
      empty table throws a TypeError. */
  datatype ParseError = MissingHeaderRow

  /** One property of a record. */
  datatype Entry = Entry(key: string, value: string)

  /** A record as a JavaScript object: its properties in insertion order, each key once. */
  type Record = seq<Entry>

  // ---------------------------------------------------------------------------
  // Header normalisation
  // ---------------------------------------------------------------------------

  /** `normalizeHeader`: the header's text trimmed and upper-cased, "" for a missing header. */
  function NormalizeHeader(header: Cell): (r: string)
    ensures IsTrimmed(r)
    ensures forall i :: 0 <= i < |r| ==> !IsLowerAscii(r[i])
    ensures header.Blank? ==> r == ""
  {
    ToUpper(Trim(CellText(header)))
  }

  /** A normalised header is its own normal form. */
  lemma NormalizeHeaderIdempotent(header: Cell)
    ensures NormalizeHeader(Text(NormalizeHeader(header))) == NormalizeHeader(header)
  {
    var r := NormalizeHeader(header);
    assert [] + r + [] == r;
    TrimCharacterized([], r, []);
    UpperOfUpper(r);
  }

  /** Whitespace around a header does not change its normal form. */
  lemma NormalizeHeaderIgnoresPadding(pre: string, name: string, post: string)
    requires AllWhitespace(pre) && AllWhitespace(post) && IsTrimmed(name)
    ensures NormalizeHeader(Text(pre + name + post)) == ToUpper(name)
  {
    TrimCharacterized(pre, name, post);
  }

  // ---------------------------------------------------------------------------
  // Header and row selection
  // ---------------------------------------------------------------------------

  /** `options.minRequiredCells || 3`: an absent or zero threshold means 3. */
  function MinCells(o: Options): (t: int)
    ensures o.minRequiredCells.None? ==> t == 3
    ensures o.minRequiredCells == Some(0) ==> t == 3
    ensures o.minRequiredCells.Some? && o.minRequiredCells.value != 0 ==> t == o.minRequiredCells.value
  {
    match o.minRequiredCells
    case None => 3
    case Some(m) => if m == 0 then 3 else m
  }

  function NormalizeAll(headers: seq<Cell>): (r: seq<string>)
    ensures |r| == |headers|
    ensures forall i :: 0 <= i < |r| ==> r[i] == NormalizeHeader(headers[i])
  {
    seq(|headers|, i requires 0 <= i < |headers| => NormalizeHeader(headers[i]))
  }

  /** `.filter(Boolean)` on header names: the non-empty names, in order. */
  function NonEmptyNames(names: seq<string>): (r: seq<string>)
    ensures forall i :: 0 <= i < |r| ==> r[i] != ""
    ensures forall k :: k in r <==> k in names && k != ""
    ensures |r| <= |names|
  {
    if names == [] then []
    else (if names[0] == "" then [] else [names[0]]) + NonEmptyNames(names[1..])
  }

  /** The filter goes name by name: a blank name is dropped, any other is kept. */
  lemma NonEmptyNamesSingle(name: string)
    ensures NonEmptyNames([name]) == if name == "" then [] else [name]
  {
    assert [name][1..] == [];
  }

  /** The filter keeps the order of the names it keeps and their repeats: filtering a
      concatenation concatenates the filtered parts. */
  lemma {:induction false} NonEmptyNamesAppend(a: seq<string>, b: seq<string>)
    ensures NonEmptyNames(a + b) == NonEmptyNames(a) + NonEmptyNames(b)
  {
    if a == [] {
      assert a + b == b;
    } else {
      assert (a + b)[1..] == a[1..] + b;
      NonEmptyNamesAppend(a[1..], b);
    }
  }

  /** The header names: the explicit ones, all kept, or the non-empty names of row 0. */
  function HeaderKeys(data: seq<seq<Cell>>, o: Options): (r: Result<seq<string>, ParseError>)
    ensures o.headerRow.Some? ==> r.Success? && r.value == NormalizeAll(seq(|o.headerRow.value|,
      i requires 0 <= i < |o.headerRow.value| => Text(o.headerRow.value[i])))
    ensures o.headerRow.None? && data == [] ==> r == Failure(MissingHeaderRow)
    ensures o.headerRow.None? && data != [] ==> r == Success(NonEmptyNames(NormalizeAll(data[0])))
  {
    match o.headerRow
    case Some(h) => Success(NormalizeAll(seq(|h|, i requires 0 <= i < |h| => Text(h[i]))))
    case None => if data == [] then Failure(MissingHeaderRow) else Success(NonEmptyNames(NormalizeAll(data[0])))
  }

  /** With explicit headers every row is data; otherwise row 0 is consumed as the header row. */
  function DataRows(data: seq<seq<Cell>>, o: Options): (rows: seq<seq<Cell>>)
    ensures o.headerRow.Some? ==> rows == data
    ensures o.headerRow.None? && data != [] ==> rows == data[1..]
  {
    if o.headerRow.Some? then data else if data == [] then [] else data[1..]
  }

  /** The rows with at least `min` truthy cells, in their original order. */
  function KeptRows(rows: seq<seq<Cell>>, min: int): (r: seq<seq<Cell>>)
    ensures |r| <= |rows|
    ensures forall i :: 0 <= i < |r| ==> CountTruthy(r[i]) >= min
  {
    if rows == [] then []
    else (if CountTruthy(rows[0]) >= min then [rows[0]] else []) + KeptRows(rows[1..], min)
  }

  /** A row survives the filter exactly when it has enough truthy cells. */
  lemma {:induction false} KeptRowsMembership(rows: seq<seq<Cell>>, min: int, row: seq<Cell>)
    ensures row in KeptRows(rows, min) <==> row in rows && CountTruthy(row) >= min
  {
    if rows != [] {
      KeptRowsMembership(rows[1..], min, row);
      assert rows == [rows[0]] + rows[1..];
    }
  }

  /** The filter works row by row, so it keeps the input order: filtering a concatenation
      concatenates the filtered parts. */
  lemma {:induction false} KeptRowsAppend(a: seq<seq<Cell>>, b: seq<seq<Cell>>, min: int)
    ensures KeptRows(a + b, min) == KeptRows(a, min) + KeptRows(b, min)
  {
    if a != [] {
      assert (a + b)[1..] == a[1..] + b;
      KeptRowsAppend(a[1..], b, min);
    } else {
      assert a + b == b;
    }
  }

  // ---------------------------------------------------------------------------
  // Records
  // ---------------------------------------------------------------------------

  function KeysOf(rec: Record): (ks: seq<string>)
    ensures |ks| == |rec|
    ensures forall i :: 0 <= i < |rec| ==> ks[i] == rec[i].key
  {
    if rec == [] then [] else [rec[0].key] + KeysOf(rec[1..])
  }

  /** No name occurs twice. */
  predicate NoDuplicates(names: seq<string>) {
    forall i, j :: 0 <= i < j < |names| ==> names[i] != names[j]
  }

  predicate UniqueKeys(rec: Record) {
    NoDuplicates(KeysOf(rec))
  }

  /** `rec[k]`: the value stored under key `k`, if any. */
  function Lookup(rec: Record, k: string): (v: Option<string>)
    ensures v.Some? <==> k in KeysOf(rec)
  {
    if rec == [] then None
    else if rec[0].key == k then Some(rec[0].value)
    else Lookup(rec[1..], k)
  }

  /** `acc[k] = v`: an existing property keeps its place and takes the new value; a new one
      goes at the end. */
  function Assign(rec: Record, k: string, v: string): Record {
    if rec == [] then [Entry(k, v)]
    else if rec[0].key == k then [Entry(k, v)] + rec[1..]
    else [rec[0]] + Assign(rec[1..], k, v)
  }

  /** What an assignment does to the keys: an existing key keeps its place, a new one is added
      last. */
  lemma {:induction false} AssignKeys(rec: Record, k: string, v: string)
    ensures k in KeysOf(rec) ==> KeysOf(Assign(rec, k, v)) == KeysOf(rec)
    ensures k !in KeysOf(rec) ==> KeysOf(Assign(rec, k, v)) == KeysOf(rec) + [k]
  {
    if rec == [] {
    } else if rec[0].key == k {
      assert k in KeysOf(rec);
      assert KeysOf(Assign(rec, k, v)) == [k] + KeysOf(rec[1..]);
    } else {
      AssignKeys(rec[1..], k, v);
      var r := Assign(rec, k, v);
      assert r[1..] == Assign(rec[1..], k, v);
      assert KeysOf(r) == [rec[0].key] + KeysOf(Assign(rec[1..], k, v));
      assert KeysOf(rec) == [rec[0].key] + KeysOf(rec[1..]);
      assert k in KeysOf(rec) <==> k in KeysOf(rec[1..]);
    }
  }

  /** An assignment never duplicates a key. */
  lemma AssignUnique(rec: Record, k: string, v: string)
    requires UniqueKeys(rec)
    ensures UniqueKeys(Assign(rec, k, v))
  {
    AssignKeys(rec, k, v);
  }

  /** What an assignment does to the values: the assigned key reads back the new value, every
      other key reads what it read before. */
  lemma {:induction false} AssignLookup(rec: Record, k: string, v: string, k': string)
    ensures Lookup(Assign(rec, k, v), k') == if k' == k then Some(v) else Lookup(rec, k')
  {
    if rec != [] && rec[0].key != k {
      AssignLookup(rec[1..], k, v, k');
    }
  }

  /** Cell `i` of a row as record text: "" past the end of a short row. */
  function ValueAt(row: seq<Cell>, i: nat): string {
    if i < |row| then CellText(row[i]) else ""
  }

  /** The `reduce` over the headers: each header in turn assigned the text of the column at its
      position. */
  function BuildRecord(headers: seq<string>, row: seq<Cell>): Record {
    if headers == [] then []
    else Assign(BuildRecord(headers[..|headers| - 1], row), headers[|headers| - 1], ValueAt(row, |headers| - 1))
  }

  /** The distinct names of `names`, each where it first occurs. */
  function Distinct(names: seq<string>): (r: seq<string>)
    ensures forall k :: k in r <==> k in names
    ensures forall i, j :: 0 <= i < j < |r| ==> r[i] != r[j]
  {
    if names == [] then []
    else
      var init := names[..|names| - 1];
      var last := names[|names| - 1];
      assert names == init + [last];
      if last in init then Distinct(init) else Distinct(init) + [last]
  }

  /** The position of the last occurrence of `k`. */
  function LastIndexOf(names: seq<string>, k: string): (i: nat)
    requires k in names
    ensures i < |names| && names[i] == k
    ensures forall j :: i < j < |names| ==> names[j] != k
  {
    if names[|names| - 1] == k then |names| - 1
    else
      assert k in names[..|names| - 1];
      LastIndexOf(names[..|names| - 1], k)
  }

  /** Appending a name moves the last occurrence of that name, and only of that name. */
  lemma LastIndexOfSnoc(init: seq<string>, x: string, k: string)
    requires k in init + [x]
    ensures x == k ==> LastIndexOf(init + [x], k) == |init|
    ensures x != k ==> k in init && LastIndexOf(init + [x], k) == LastIndexOf(init, k)
  {
    assert (init + [x])[..|init|] == init;
  }

  /** The record's keys are the header names, each once, in order of first occurrence. */
  lemma {:induction false} BuildRecordKeys(headers: seq<string>, row: seq<Cell>)
    ensures KeysOf(BuildRecord(headers, row)) == Distinct(headers)
  {
    if headers != [] {
      BuildRecordKeys(headers[..|headers| - 1], row);
      AssignDistinct(BuildRecord(headers[..|headers| - 1], row), headers, ValueAt(row, |headers| - 1));
    }
  }

  /** Assigning the last name of a list to a record keyed by the distinct names before it keys
      the record by the distinct names of the whole list. */
  lemma AssignDistinct(rec: Record, names: seq<string>, v: string)
    requires names != [] && KeysOf(rec) == Distinct(names[..|names| - 1])
    ensures KeysOf(Assign(rec, names[|names| - 1], v)) == Distinct(names)
  {
    var init := names[..|names| - 1];
    var k := names[|names| - 1];
    assert names == init + [k];
    AssignKeys(rec, k, v);
    DistinctSnoc(init, k);
    if k in init {
      assert k in Distinct(init);
    } else {
      assert k !in Distinct(init);
    }
  }

  /** Appending a name adds it to the distinct names unless it is already there. */
  lemma DistinctSnoc(init: seq<string>, x: string)
    ensures Distinct(init + [x]) == if x in init then Distinct(init) else Distinct(init) + [x]
  {
    assert (init + [x])[..|init|] == init;
  }

  /** A record whose keys are the distinct names of a list has no key twice. */
  lemma DistinctUnique(rec: Record, names: seq<string>)
    requires KeysOf(rec) == Distinct(names)
    ensures UniqueKeys(rec)
  {
  }

  /** What a record built from `names` holds under `k`: the text of the last column named `k`,
      or nothing when no column is. */
  function Expected(names: seq<string>, row: seq<Cell>, k: string): Option<string> {
    if k in names then Some(ValueAt(row, LastIndexOf(names, k))) else None
  }

  /** Under each header name the record holds the text of the LAST column with that name;
      any other key is absent. */
  lemma {:induction false} BuildRecordValues(headers: seq<string>, row: seq<Cell>, k: string)
    ensures Lookup(BuildRecord(headers, row), k) == Expected(headers, row, k)
  {
    if headers != [] {
      BuildRecordValues(headers[..|headers| - 1], row, k);
      AssignLastColumn(BuildRecord(headers[..|headers| - 1], row), headers, row, k);
    }
  }

  /** Assigning the last column's text keeps every key at its last column. */
  lemma AssignLastColumn(prev: Record, names: seq<string>, row: seq<Cell>, k: string)
    requires names != [] && Lookup(prev, k) == Expected(names[..|names| - 1], row, k)
    ensures Lookup(Assign(prev, names[|names| - 1], ValueAt(row, |names| - 1)), k) == Expected(names, row, k)
  {
    var init := names[..|names| - 1];
    var h := names[|names| - 1];
    assert names == init + [h];
    AssignLookup(prev, h, ValueAt(row, |names| - 1), k);
    if k in names {
      LastIndexOfSnoc(init, h, k);
    }
  }

  /** Every record has exactly the header names as keys, and each value is its column's text
      (or "" for a short row); with duplicate names the later column wins. */
  lemma RecordShape(headers: seq<string>, row: seq<Cell>, k: string)
    ensures KeysOf(BuildRecord(headers, row)) == Distinct(headers)
    ensures UniqueKeys(BuildRecord(headers, row))
    ensures k in headers ==> Lookup(BuildRecord(headers, row), k) == Some(ValueAt(row, LastIndexOf(headers, k)))
    ensures k !in headers ==> Lookup(BuildRecord(headers, row), k) == None
  {
    BuildRecordKeys(headers, row);
    DistinctUnique(BuildRecord(headers, row), headers);
    BuildRecordValues(headers, row, k);
  }

  // ---------------------------------------------------------------------------
  // parseRows and parsePastedData
  // ---------------------------------------------------------------------------

  /** `parseRows`: one record per row that passes the cell-count filter, in input order;
      fails only when there is neither an explicit header row nor a first row. */
  function ParseRows(data: seq<seq<Cell>>, o: Options): (r: Result<seq<Record>, ParseError>)
    ensures r.Failure? <==> o.headerRow.None? && data == []
    ensures r.Success? ==> var kept := KeptRows(DataRows(data, o), MinCells(o));
      |r.value| == |kept| && forall i :: 0 <= i < |kept| ==> r.value[i] == BuildRecord(HeaderKeys(data, o).value, kept[i])
  {
    match HeaderKeys(data, o)
    case Failure(e) => Failure(e)
    case Success(keys) =>
      var kept := KeptRows(DataRows(data, o), MinCells(o));
      Success(seq(|kept|, i requires 0 <= i < |kept| => BuildRecord(keys, kept[i])))
  }

  /** Blank header cells are dropped before the keys are zipped with the columns, so every key
      after a blank header reads the column to its left: with a first row `h1, <blank>, h2`
      the key of `h2` holds the text of column 1 of each data row, not of column 2. */
  lemma BlankHeaderShiftsColumns(h1: string, h2: string, rows: seq<seq<Cell>>, o: Options)
    requires o.headerRow.None?
    requires NormalizeHeader(Text(h1)) != "" && NormalizeHeader(Text(h2)) != ""
    requires NormalizeHeader(Text(h1)) != NormalizeHeader(Text(h2))
    ensures var r := ParseRows([[Text(h1), Blank, Text(h2)]] + rows, o);
      var kept := KeptRows(rows, MinCells(o));
      r.Success? && |r.value| == |kept| &&
      forall i :: 0 <= i < |kept| ==> Lookup(r.value[i], NormalizeHeader(Text(h2))) == Some(ValueAt(kept[i], 1))
  {
    var data := [[Text(h1), Blank, Text(h2)]] + rows;
    var n2 := NormalizeHeader(Text(h2));
    var keys := [NormalizeHeader(Text(h1)), n2];
    GapHeaderKeys(h1, h2, rows, o);
    assert DataRows(data, o) == rows;
    var kept := KeptRows(rows, MinCells(o));
    var r := ParseRows(data, o);
    forall i | 0 <= i < |kept|
      ensures Lookup(r.value[i], n2) == Some(ValueAt(kept[i], 1))
    {
      assert r.value[i] == BuildRecord(keys, kept[i]);
      SecondKeyColumn(keys, kept[i]);
    }
  }

  /** A first row `h1, <blank>, h2` gives the two keys `h1` and `h2`. */
  lemma GapHeaderKeys(h1: string, h2: string, rows: seq<seq<Cell>>, o: Options)
    requires o.headerRow.None?
    requires NormalizeHeader(Text(h1)) != "" && NormalizeHeader(Text(h2)) != ""
    ensures HeaderKeys([[Text(h1), Blank, Text(h2)]] + rows, o) ==
      Success([NormalizeHeader(Text(h1)), NormalizeHeader(Text(h2))])
  {
    var data := [[Text(h1), Blank, Text(h2)]] + rows;
    var n1 := NormalizeHeader(Text(h1));
    var n2 := NormalizeHeader(Text(h2));
    var names := NormalizeAll(data[0]);
    assert data[0][1] == Blank;
    DropGap(names);
  }

  /** Filtering three names whose middle one is blank leaves the outer two. */
  lemma DropGap(names: seq<string>)
    requires |names| == 3 && names[0] != "" && names[1] == "" && names[2] != ""
    ensures NonEmptyNames(names) == [names[0], names[2]]
  {
    assert names == [names[0]] + ([names[1]] + [names[2]]);
    NonEmptyNamesAppend([names[0]], [names[1]] + [names[2]]);
    NonEmptyNamesAppend([names[1]], [names[2]]);
    NonEmptyNamesSingle(names[0]);
    NonEmptyNamesSingle(names[1]);
    NonEmptyNamesSingle(names[2]);
  }

  /** The second of two distinct keys reads column 1. */
  lemma SecondKeyColumn(keys: seq<string>, row: seq<Cell>)
    requires |keys| == 2 && keys[0] != keys[1]
    ensures Lookup(BuildRecord(keys, row), keys[1]) == Some(ValueAt(row, 1))
  {
    RecordShape(keys, row, keys[1]);
    assert LastIndexOf(keys, keys[1]) == 1;
  }

  /** One pasted line cut at every tab. */
  function TabCells(line: string): (row: seq<Cell>)
    ensures |row| == |Split(line, '\t')|
    ensures forall j :: 0 <= j < |row| ==> row[j] == Text(Split(line, '\t')[j])
  {
    var cells := Split(line, '\t');
    seq(|cells|, j requires 0 <= j < |cells| => Text(cells[j]))
  }

  /** The rows of pasted text: the whole text trimmed, cut at every run of CR/LF characters,
      each line cut at every tab. */
  function PastedRows(text: string): (rows: seq<seq<Cell>>)
    ensures |rows| == |SplitLineRuns(Trim(text))| >= 1
    ensures forall i :: 0 <= i < |rows| ==> rows[i] == TabCells(SplitLineRuns(Trim(text))[i])
  {
    var lines := SplitLineRuns(Trim(text));
    seq(|lines|, i requires 0 <= i < |lines| => TabCells(lines[i]))
  }

  /** `parsePastedData`: the pasted rows through the same `parseRows`. */
  function ParsePastedData(text: string, o: Options): (r: Result<seq<Record>, ParseError>)
    ensures r.Success?
  {
    ParseRows(PastedRows(text), o)
  }

  /** Pasted rows hold only text cells free of tabs and line breaks; when the text is not blank,
      no line is empty, so a blank line never becomes a row. */
  lemma PastedRowsShape(text: string)
    ensures var rows := PastedRows(text);
      forall i, j :: 0 <= i < |rows| && 0 <= j < |rows[i]| ==>
        rows[i][j].Text? && '\t' !in rows[i][j].text && NoLineBreak(rows[i][j].text)
    ensures !AllWhitespace(text) ==> forall i :: 0 <= i < |PastedRows(text)| ==> PastedRows(text)[i] != [Text("")]
  {
    var t := Trim(text);
    var lines := SplitLineRuns(t);
    var rows: seq<seq<Cell>> := PastedRows(text);
    forall i: int, j: int | 0 <= i < |rows| && 0 <= j < |rows[i]|
      ensures rows[i][j].Text? && '\t' !in rows[i][j].text && NoLineBreak(rows[i][j].text)
    {
      var cells := Split(lines[i], '\t');
      JoinSplit(lines[i], '\t');
      PiecesHaveNoBreak(cells, j, lines[i]);
    }
    if !AllWhitespace(text) {
      TrimEmpty(text);
      assert !IsJsWhitespace(t[0]) && !IsJsWhitespace(t[|t| - 1]);
      LineRunsNonEmpty(t);
      forall i | 0 <= i < |rows| ensures rows[i] != [Text("")] {
        var cells := Split(lines[i], '\t');
        JoinSplit(lines[i], '\t');
      }
    }
  }

  /** The text is trimmed as a whole, not line by line: a tab opening the first line is dropped,
      so that line's first cell is its first real value, while a tab opening a later line stays
      and gives that row an empty first cell. */
  lemma PasteTrimsWholeText(first: string, second: string)
    requires first != [] && !IsJsWhitespace(first[0]) && NoLineBreak(first)
    requires second != [] && !IsJsWhitespace(second[|second| - 1]) && NoLineBreak(second)
    ensures PastedRows("\t" + first + "\n" + "\t" + second) == [TabCells(first), TabCells("\t" + second)]
    ensures TabCells("\t" + second)[0] == Text("")
  {
    var rest := "\t" + second;
    var text := "\t" + first + "\n" + "\t" + second;
    TwoLineTrim(first, second);
    assert Trim(text) == first + "\n" + rest;
    assert NoLineBreak(rest) by {
      assert forall i :: 1 <= i < |rest| ==> rest[i] == second[i - 1];
    }
    LineRunsCons(first, rest);
    LineRunsOfLine(rest);
    assert SplitLineRuns(Trim(text)) == [first, rest];
    SplitFirst(rest, '\t', 0);
  }

  /** Trimming the two-line text removes only the tab before the first line. */
  lemma TwoLineTrim(first: string, second: string)
    requires first != [] && !IsJsWhitespace(first[0])
    requires second != [] && !IsJsWhitespace(second[|second| - 1])
    ensures Trim("\t" + first + "\n" + "\t" + second) == first + "\n" + ("\t" + second)
  {
    var mid := first + "\n" + ("\t" + second);
    assert mid[0] == first[0];
    assert mid[|mid| - 1] == second[|second| - 1];
    assert IsTrimmed(mid);
    assert "\t" + first + "\n" + "\t" + second == "\t" + mid + "";
    TrimCharacterized("\t", mid, "");
  }

  /** A piece of a joined line holds no character the line does not hold. */
  lemma {:induction false} PiecesHaveNoBreak(parts: seq<string>, j: nat, line: string)
    requires |parts| >= 1 && j < |parts|
    requires Join(parts, '\t') == line && NoLineBreak(line)
    ensures NoLineBreak(parts[j])
  {
    if |parts| > 1 {
      var tail := Join(parts[1..], '\t');
      assert line == parts[0] + ['\t'] + tail;
      assert forall k :: 0 <= k < |parts[0]| ==> parts[0][k] == line[k];
      assert forall k :: 0 <= k < |tail| ==> tail[k] == line[|parts[0]| + 1 + k];
      if j > 0 {
        PiecesHaveNoBreak(parts[1..], j - 1, tail);
      }
    }
  }
}
