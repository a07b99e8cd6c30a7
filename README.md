# Order-sheet ingestion, validation, invoicing and print pagination

This project is a Dafny model of the data pipeline behind a small label- and
invoice-printing web application. Order rows arrive as a spreadsheet upload or
as pasted text. The rows become header-keyed records. Each record is checked
against the order schema: customer name, cell and alternative numbers,
address, branch, product string, COD and PP. The errors of all rows are
gathered for the data table and for the print button. The product string
(`CODE|LABEL*QTY`, items separated by commas) is read into priced invoice
lines with their totals. Records are laid out on fixed-capacity pages: 6 or 8
labels to a sheet, 6 vouchers to a page, one invoice to a page.

Modules follow the source files:

- `Strings` and `Cells` hold the JavaScript operations the pipeline uses:
  `trim`, `toUpperCase`, `split`, truthiness, `toString` and digit strings.
- `SheetParser` models `src/utils/sheetParser.ts`.
- `FileReader` models the older reader in `src/utils/fileReader.ts`.
- `ValidationSchema` models `src/utils/validationSchema.ts`.
- `LabelPrint` models `src/pages/label-print.tsx`.
- `ProductSegments` holds the product grammar that both invoice cards share.
- `InvoiceCard` and `SeetarInvoiceCard` model the two invoice cards.
- `Pagination` holds the generic `Paginate(items, k)`. `LabelPage`, `Home`
  (`src/pages/index.tsx`), `Voucher` and `InvoicePage` are its four uses.
- `DataTable` models the table's header/body split and its error lookup.

The model follows the code as written, including in these cases:

- An empty or missing product string gives ONE item with an empty code, not
  an empty list.
- A `*0` suffix gives quantity 0. The quantity is not always at least 1.
- A field's checks do not stop at the first failure. An empty "CELL NUMBER"
  reports three messages and an empty "PRODUCT" reports two. The schema's
  string checks keep running after a failure, and the refinements run on the
  failed value too.
- `parseRows` without explicit headers reads row 0. On an empty table this
  throws, and the model returns `Failure(MissingHeaderRow)`.
- In the older reader, a header cell that is a number has no `toUpperCase`,
  so the reader throws. The model returns `Failure(NonTextHeader)`.

## Model

| member | source | states |
|---|---|---|
| Strings.Trim | src/utils/sheetParser.ts:14 | `trim` leaves a string with no whitespace at either end. The result is the slice between the leading and the trailing whitespace. |
| Strings.TrimEmpty | src/utils/validationSchema.ts:6 | A string trims to "" exactly when it is all whitespace. |
| Strings.TrimCharacterized | src/utils/sheetParser.ts:75 | Whitespace, then a trimmed middle, then whitespace: the trim is that middle. |
| Strings.TrimIdempotent | src/utils/sheetParser.ts:14 | Trimming twice gives the same result as trimming once. |
| Strings.ToUpper | src/utils/sheetParser.ts:14 | Upper-casing keeps the length, turns each lower-case ASCII letter into its upper-case letter and keeps every other character, so a trimmed string stays trimmed. |
| Strings.Split | src/utils/validationSchema.ts:8 | `split(sep)` gives one more piece than there are separators, and no piece holds the separator. |
| Strings.JoinSplit | src/utils/validationSchema.ts:8 | Joining the pieces of a split with the separator gives back the string. |
| Strings.SplitJoin | src/utils/validationSchema.ts:8 | Splitting joined pieces that hold no separator gives back the pieces. |
| Strings.SplitFirst | src/components/InvoiceCard/InvoiceCard.tsx:53-55 | The first piece is the text before the first separator, or the whole text when it has none. |
| Strings.SplitAtFirst | src/components/InvoiceCard/InvoiceCard.tsx:53-55 | Cutting at the first separator gives the text before it, then the pieces of the text after it. |
| Strings.SplitLineRuns | src/utils/sheetParser.ts:76 | `split(/[\r\n]+/)` gives at least one piece, and no piece holds a CR or LF. |
| Strings.LineRunsInterior | src/utils/sheetParser.ts:76 | Every piece between the first and the last is non-empty, because a run of line breaks is never split. |
| Strings.LineRunsNonEmpty | src/utils/sheetParser.ts:75-76 | A text that neither starts nor ends with a line break has no empty piece, so a blank line never becomes a row. |
| Strings.LineRunsContent | src/utils/sheetParser.ts:76 | The pieces put together are the text with its line breaks removed, so nothing else is lost. |
| Strings.LineRunsCons | src/utils/sheetParser.ts:76 | A line followed by one line break is the first piece, and the pieces of the rest come after it. |
| Strings.DigitsRoundTrip | src/components/InvoiceCard/InvoiceCard.tsx:59 | Reading back the numeral of a number with `parseInt` gives the number. |
| Strings.NumberOrZero | src/components/InvoiceCard/InvoiceCard.tsx:92-93 | `Number(x) \|\| 0` is the value of a digit string (of a safe-integer value). It is 0 for "", for a missing value and for any other text (NaN). |
| Strings.IntToString | src/utils/sheetParser.ts:36 | `toString` of a safe integer is its canonical decimal numeral: digits whose value is the integer, with no leading zero (only 0 itself starts with '0'), and a minus sign before the numeral when the integer is negative. |
| Cells.CountTruthy | src/utils/sheetParser.ts:31 | `row.filter(Boolean).length` is at most the row's length, is 0 exactly when every cell is falsy, and for a single cell is 1 exactly when that cell is truthy. |
| Cells.CountTruthyAppend | src/utils/sheetParser.ts:31 | The count of a concatenation is the sum of the parts' counts; with the single-cell case this fixes the count as the number of truthy cells. |
| Cells.CellText | src/utils/sheetParser.ts:36 | A cell's text is its string. A number's text is non-empty. A missing cell's text is "". |
| Cells.TextlessIsFalsy | src/utils/sheetParser.ts:31-36 | A cell with no text is falsy. A falsy cell with text is exactly the number 0. |
| SheetParser.NormalizeHeader | src/utils/sheetParser.ts:13-15 | The header is trimmed and upper-cased. A missing header gives "". |
| SheetParser.NormalizeHeaderIdempotent | src/utils/sheetParser.ts:13-15 | Normalising a normalised header changes nothing. |
| SheetParser.NormalizeHeaderIgnoresPadding | src/utils/sheetParser.ts:13-15 | Whitespace around a header does not change its normalised name. |
| SheetParser.MinCells | src/utils/sheetParser.ts:31 | `minRequiredCells \|\| 3`: an absent or zero threshold means 3, and any other value is used as given. |
| SheetParser.NonEmptyNames | src/utils/sheetParser.ts:24 | `filter(Boolean)` keeps exactly the non-empty names. |
| SheetParser.NonEmptyNamesSingle | src/utils/sheetParser.ts:24 | A single name is dropped when it is "" and kept otherwise. |
| SheetParser.NonEmptyNamesAppend | src/utils/sheetParser.ts:24 | The filter distributes over concatenation, so it keeps the order and the repeats of the names it keeps. |
| SheetParser.HeaderKeys | src/utils/sheetParser.ts:22-24 | Explicit headers are all normalised and all kept, "" included. Otherwise the keys are the non-empty normalised names of row 0, in order. An empty table with no explicit headers is a failure. |
| SheetParser.DataRows | src/utils/sheetParser.ts:27 | With explicit headers every row is data. Otherwise row 0 is consumed. |
| SheetParser.KeptRows | src/utils/sheetParser.ts:30-32 | Every kept row has at least the threshold of truthy cells. |
| SheetParser.KeptRowsMembership | src/utils/sheetParser.ts:30-32 | A row is kept exactly when it is an input row with at least the threshold of truthy cells. |
| SheetParser.KeptRowsAppend | src/utils/sheetParser.ts:30-32 | Filtering works row by row and keeps the input order: the filter of a concatenation is the concatenation of the filters. |
| SheetParser.Lookup | src/utils/sheetParser.ts:36 | A record holds a value under a key exactly when the key is among its keys. |
| SheetParser.AssignKeys | src/utils/sheetParser.ts:36 | `acc[k] = v` keeps an existing key in its place and adds a new key last. |
| SheetParser.AssignLookup | src/utils/sheetParser.ts:36 | After `acc[k] = v`, key k reads v and every other key reads what it read before. |
| SheetParser.AssignUnique | src/utils/sheetParser.ts:36 | An assignment never duplicates a key. |
| SheetParser.BuildRecordKeys | src/utils/sheetParser.ts:35-38 | The reduce gives a record keyed by the header names, each once, in order of first occurrence. |
| SheetParser.BlankHeaderShiftsColumns | src/utils/sheetParser.ts:22-36 | Blank header cells are dropped before keys are zipped with columns by position. With a first row `h1, <blank>, h2`, every kept row's `h2` key holds that row's column 1, not column 2. |
| SheetParser.GapHeaderKeys | src/utils/sheetParser.ts:22-24 | A first row `h1, <blank>, h2` gives exactly the keys `h1, h2`. |
| SheetParser.BuildRecordValues | src/utils/sheetParser.ts:35-38 | Each name holds the text of the LAST column with that name, or "" when the row is short. No other key is present. |
| SheetParser.RecordShape | src/utils/sheetParser.ts:34-38 | A record's keys are exactly the header names, each unique. Its values are the cells' texts, and a later duplicate column overwrites an earlier one. |
| SheetParser.LastIndexOf | src/utils/sheetParser.ts:35-38 | The position of the last occurrence of a name. |
| SheetParser.Distinct | src/utils/sheetParser.ts:35-38 | The distinct names: the same set, without repeats. |
| SheetParser.ParseRows | src/utils/sheetParser.ts:17-40 | There is exactly one record per kept row, in input order, and each is that row zipped against the header keys. The call fails only without explicit headers on an empty table. |
| SheetParser.TabCells | src/utils/sheetParser.ts:77 | A pasted line gives one text cell per tab-separated piece. |
| SheetParser.PastedRows | src/utils/sheetParser.ts:74-77 | The whole text is trimmed and then split on runs of CR/LF. Each line is split on each tab. |
| SheetParser.ParsePastedData | src/utils/sheetParser.ts:70-80 | Parsing pasted text never fails: the split rows go through `parseRows` with the same options, and `parseRows` always has a row 0 here. |
| SheetParser.PastedRowsShape | src/utils/sheetParser.ts:74-77 | Every pasted cell is text free of tabs and line breaks. For non-blank text, no row is a single empty cell. |
| SheetParser.PasteTrimsWholeText | src/utils/sheetParser.ts:75 | Trimming is applied to the whole text, not to each line. A tab that opens the first line vanishes, while a tab opening a later line gives that row an empty first cell. |
| FileReader.UpperKeys | src/utils/fileReader.ts:44-45 | Header text cells are upper-cased without trimming, and missing cells stay holes. A numeric header cell throws. |
| FileReader.HeaderRow | src/utils/fileReader.ts:44 | The header row is the first row, or empty for an empty sheet. |
| FileReader.DataRows | src/utils/fileReader.ts:47-49 | Every data row has strictly more than 3 truthy cells. |
| FileReader.DataRowsMembership | src/utils/fileReader.ts:47-49 | A later row is a data row exactly when it has more than 3 truthy cells. |
| FileReader.IndexOf | src/utils/fileReader.ts:54-55 | `indexOf` gives the first position holding the name, or -1 (None) when no position does. |
| FileReader.FieldsIndexFirstOccurrence | src/utils/fileReader.ts:53-57 | After the reduce, exactly the fields present in the headers have an index. That index is the field's first occurrence. |
| FileReader.RowObject | src/utils/fileReader.ts:59-68 | Each object holds the eight fields in order, each with the cell at its column. A field with no column, or a row too short, gives undefined. |
| FileReader.ReadSheet | src/utils/fileReader.ts:44-70 | On success there is one object per data row. |
| FileReader.ReadSheetShape | src/utils/fileReader.ts:44-70 | The read fails only on a numeric header cell. Each object has exactly the eight `EFields` keys. Each field holds the cell at the first column named like it, or undefined. |
| FileReader.FieldCellFirst | src/utils/fileReader.ts:59-68 | A property lookup returns the cell under the first key with that name. |
| FileReader.FieldCellOfRead | src/utils/fileReader.ts:59-68 | In an object read from the sheet, field k is found at position k. |
| FileReader.ThresholdDiffers | src/utils/fileReader.ts:48 | A row with exactly 3 truthy cells is kept by `parseRows` under its default options and dropped by this reader. |
| FileReader.DuplicateHeaderDiffers | src/utils/fileReader.ts:53-57 | With "NAME" twice in the header, this reader takes the first column and `parseRows` takes the last. |
| ValidationSchema.LabelLength | src/utils/validationSchema.ts:10 | The label is the longest run of characters other than `*`, `,` and `\|`. |
| ValidationSchema.MatchesSegmentIsLanguage | src/utils/validationSchema.ts:10 | The left-to-right test agrees with the language of `^SB\d{3}\|[^*,\|]+(\*\d+)?$`. |
| ValidationSchema.CodeCheckImplied | src/utils/validationSchema.ts:17-21 | The text before the first bar of a matching segment passes `^SB\d{3}$`, so the second check never rejects anything. |
| ValidationSchema.AllMatchEach | src/utils/validationSchema.ts:12-23 | `every` holds exactly when each trimmed segment matches, and it implies the code check. |
| ValidationSchema.ValidateProductFormatSpec | src/utils/validationSchema.ts:4-24 | The format is false for a blank value. Otherwise it holds exactly when every trimmed comma segment matches the segment pattern. |
| ValidationSchema.ProductFormatIsLanguage | src/utils/validationSchema.ts:4-24 | The same result, stated with the regular language of the segment pattern. |
| ValidationSchema.SingleSegment | src/utils/validationSchema.ts:8 | A trimmed string without commas is its own single segment. |
| ValidationSchema.SingleProductFormat | src/utils/validationSchema.ts:4-24 | Without commas, a non-blank trimmed product is valid exactly when it matches the segment pattern. |
| ValidationSchema.AcceptsCodeColorQuantity | src/utils/validationSchema.ts:10 | "SB101\|Red*2" is valid. |
| ValidationSchema.MissingBarRejected | src/utils/validationSchema.ts:8-12 | A single trimmed product whose sixth character is not a bar is rejected. |
| ValidationSchema.RejectsMissingBar | src/utils/validationSchema.ts:10 | "SB101-Red*2" is rejected. |
| ValidationSchema.TrailingCommaRejected | src/utils/validationSchema.ts:8-12 | A comma-free product followed by a comma is always rejected, because the empty last segment fails the pattern. |
| ValidationSchema.RejectsTrailingComma | src/utils/validationSchema.ts:8-12 | "SB101\|Red," is rejected, because the empty last segment fails the pattern. |
| ValidationSchema.NotAString | src/utils/validationSchema.ts:27 | A value that is not a string gets one type message. It is "Required" exactly when the value is undefined. |
| ValidationSchema.RequiredTextIssues | src/utils/validationSchema.ts:27 | "CUSTOMER NAME", "FULL ADDRESS" and "BRANCH" pass exactly for a string of length at least 1, with no trimming. "" gets the field's own message. |
| ValidationSchema.CellNumberIssues | src/utils/validationSchema.ts:29-36 | The field passes exactly for 10 digits starting with 9. 10 digits with another first digit get only the starts-with-9 message. A 9-prefixed string of the wrong length gets only the 10-digits message. |
| ValidationSchema.AltNumberIssues | src/utils/validationSchema.ts:38-47 | The field passes exactly for absent, null, "" or 10 digits starting with 9. Ten digits not starting with 9 get only the start message. A string starting with 9 that is not ten digits gets only the length message. |
| ValidationSchema.AltNumberBothMessages | src/utils/validationSchema.ts:38-47 | Any other non-empty string gets both messages, because the refinement also runs after the pattern fails. |
| ValidationSchema.ProductIssues | src/utils/validationSchema.ts:53-59 | The field passes exactly for a string in the product format. "" gets "Product is required" and the format message. A non-empty bad value gets only the format message. |
| ValidationSchema.CodIssues | src/utils/validationSchema.ts:61-67 | The field passes exactly for a non-negative number or a digit string. A negative number gets the non-negative message. Undefined is an error. |
| ValidationSchema.PpIssues | src/utils/validationSchema.ts:69-77 | The field passes exactly for absent, null, "", a non-negative number or a digit string. A negative number gets the non-negative message. |
| ValidationSchema.Tag | src/pages/label-print.tsx:51 | A field's messages become issues on that field, in order. |
| ValidationSchema.IssuesOfEmpty | src/utils/validationSchema.ts:26-78 | There are no issues exactly when every field rule passes. |
| ValidationSchema.IssuesOfOwned | src/utils/validationSchema.ts:26-78 | Every issue names a schema field and carries one of that field's own messages. |
| ValidationSchema.SchemaIssuesKeyByKey | src/utils/validationSchema.ts:26-78 | The schema's issues are its fields' issues, key by key in declaration order. |
| ValidationSchema.SchemaValidIff | src/utils/validationSchema.ts:26-78 | An input passes the schema exactly when each of the eight rules passes. |
| ValidationSchema.HasIssueForAppend | src/utils/validationSchema.ts:26-78 | A concatenation has an issue on a field exactly when one of its parts has. |
| ValidationSchema.IssueForField | src/utils/validationSchema.ts:26-78 | A field has an issue exactly when its own rule reports something. Rules are independent across fields. |
| ValidationSchema.CodRequired | src/utils/validationSchema.ts:61-67 | A missing COD always draws a COD issue. |
| ValidationSchema.PpOptional | src/utils/validationSchema.ts:69-77 | A missing PP never draws a PP issue. |
| LabelPrint.NumberOf | src/pages/label-print.tsx:42-43 | `Number(s)` of a digit string is its value (of a safe-integer value). Any other text is NaN. |
| LabelPrint.Numeric | src/pages/label-print.tsx:42-43 | A missing or empty COD/PP cell becomes undefined. Any other cell is converted with `Number`. |
| LabelPrint.AsInput | src/pages/label-print.tsx:40-41 | The spread copy has exactly the row's keys, each holding the row's string. |
| LabelPrint.ProcessRow | src/pages/label-print.tsx:40-44 | In the copy, COD and PP are converted and every other key is the row's own string. The row itself is a value and is not changed. |
| LabelPrint.ValidateRowEmptyIff | src/pages/label-print.tsx:37-58 | A row gets no errors exactly when its converted copy satisfies the schema. |
| LabelPrint.RowErrorsOf | src/pages/label-print.tsx:49-55 | There is one error per schema issue, in order. Each has the issue's field (the first path segment), its message and rowIndex = i. |
| LabelPrint.ErrorForIssue | src/pages/label-print.tsx:49-55 | A row's errors name a field exactly when the schema has an issue on that field. |
| LabelPrint.EmptyCodIsError | src/pages/label-print.tsx:42-46 | An empty or missing COD cell always produces a COD error. |
| LabelPrint.EmptyPpIsFine | src/pages/label-print.tsx:43-46 | An empty or missing PP cell never produces a PP error. |
| LabelPrint.RowErrorsTagged | src/pages/label-print.tsx:64-68 | Every error of row i carries rowIndex i. |
| LabelPrint.ErrorsOfRow | src/pages/label-print.tsx:64-70 | The errors tagged with one row, in order. |
| LabelPrint.ErrorsOfRowAppend | src/pages/label-print.tsx:64-70 | Selecting one row's errors from a concatenation selects them from each part. |
| LabelPrint.ErrorsOfRowUniform | src/pages/label-print.tsx:64-70 | A list whose errors all carry row k goes whole to row k and to no other row. |
| LabelPrint.ErrorsOfRowGather | src/pages/label-print.tsx:64-70 | In the gathered list, the errors tagged i are exactly list i. None is lost or moved, and no error carries an index outside the lists. |
| LabelPrint.GatherEmpty | src/pages/label-print.tsx:64-70 | The gathered list is empty exactly when every list is. |
| LabelPrint.GatherIndexed | src/pages/label-print.tsx:64-70 | Every gathered error carries the index of one of the lists. |
| LabelPrint.AllErrorsIndexed | src/pages/label-print.tsx:64-70 | Every aggregated error names one of the rows. |
| LabelPrint.AllErrorsOfRow | src/pages/label-print.tsx:64-70 | The aggregated errors tagged with row i are exactly `validateRow(row i, i)`, in order. |
| LabelPrint.AllErrorsEmpty | src/pages/label-print.tsx:64-70 | The aggregated list is empty exactly when every row satisfies the schema. |
| LabelPrint.CollectErrors | src/pages/label-print.tsx:63-70 | The `forEach`/`push` loop produces the concatenation of the per-row error lists, in row order. |
| LabelPrint.ErrorsOfRowHasError | src/pages/label-print.tsx:64-70 | A row's errors hold a field exactly when some error tagged with that row is on that field. |
| LabelPrint.ValuesOf | src/pages/label-print.tsx:152 | `Object.values(row)` gives the values in key order. |
| LabelPrint.TableCells | src/pages/label-print.tsx:149-157 | The table shows the first record's keys as headers and one body row per record. Cell (r, c) is flagged exactly when an error tagged r is on the key heading column c. |
| LabelPrint.TableFlagsRowErrors | src/pages/label-print.tsx:149-157 | With the aggregated errors, a cell is flagged exactly when its own row's validation fails on that column. The table is marked erroneous exactly when some row fails. |
| LabelPrint.LabelPrintPage.constructor | src/pages/label-print.tsx:30-34 | The page starts with no records, no errors and 8 labels per sheet. |
| LabelPrint.LabelPrintPage.HandleDataAvailable | src/pages/label-print.tsx:60-71 | The new records replace the old, and the errors become their aggregated errors. The label size is unchanged. |
| LabelPrint.LabelPrintPage.SetLabelType | src/pages/label-print.tsx:171 | Choosing a paper size changes only the label size. |
| LabelPrint.LabelPrintPage.PrintEnabled | src/pages/label-print.tsx:194-201 | Print is enabled exactly when there are records and the aggregated error list is empty, that is, when every row satisfies the schema. |
| ProductSegments.Segments | src/components/InvoiceCard/InvoiceCard.tsx:50-51 | There is one trimmed segment per comma-separated piece: the number of commas plus one. |
| ProductSegments.Pieces | src/components/InvoiceCard/InvoiceCard.tsx:53-55 | There is one trimmed piece per bar-separated part. |
| ProductSegments.CodeBeforeFirstBar | src/components/InvoiceCard/InvoiceCard.tsx:53-55 | The code is the trimmed text before the first bar. Without a bar, the color section is "". |
| ProductSegments.ColorBetweenBars | src/components/InvoiceCard/InvoiceCard.tsx:53-55 | The color section is the trimmed text between the first and the second bar. Anything after a second bar is dropped. |
| ProductSegments.TrailingDigits | src/components/InvoiceCard/InvoiceCard.tsx:58 | Counts the maximal run of digits at the end of the text. |
| ProductSegments.QuantityStar | src/components/InvoiceCard/InvoiceCard.tsx:58 | `match(/\*(\d+)$/)` finds a star followed by digits up to the end, or reports that no such suffix exists. |
| ProductSegments.SuffixRun | src/components/InvoiceCard/InvoiceCard.tsx:58 | A star-and-digits suffix starts just before the maximal run of trailing digits. |
| ProductSegments.SuffixUnique | src/components/InvoiceCard/InvoiceCard.tsx:58 | A text has at most one place where such a suffix can start. |
| ProductSegments.CleanColor | src/components/InvoiceCard/InvoiceCard.tsx:62 | The cleaned color is trimmed. |
| ProductSegments.QuantitySuffixRoundTrip | src/components/InvoiceCard/InvoiceCard.tsx:58-62 | For text + "*" + digits, the quantity is the digits' value (0 allowed) and the color is the text, trimmed. |
| ProductSegments.NoSuffixDefaults | src/components/InvoiceCard/InvoiceCard.tsx:58-62 | Without a suffix the quantity is 1 and the color is the section, trimmed. |
| ProductSegments.EmptyProductOneItem | src/components/InvoiceCard/InvoiceCard.tsx:47-55 | "" gives one segment, with an empty code and an empty color section. |
| ProductSegments.ItemTextReadsBack | src/components/InvoiceCard/InvoiceCard.tsx:50-62 | A written `CODE\|COLOR*QTY` reads back as its code, its color and its quantity. |
| ProductSegments.ItemTextShape | src/components/InvoiceCard/InvoiceCard.tsx:50-55 | A written item holds no comma, and its color section holds no bar. |
| ProductSegments.ItemTextPieces | src/components/InvoiceCard/InvoiceCard.tsx:53-55 | A written item splits into its code and its color section. |
| ProductSegments.DigitsHaveNoSeparator | src/components/InvoiceCard/InvoiceCard.tsx:58 | A numeral holds no comma, bar or star. |
| ProductSegments.TrimmedUnchanged | src/components/InvoiceCard/InvoiceCard.tsx:51 | Trimming a trimmed string changes nothing. |
| ProductSegments.SegmentsOfJoin | src/components/InvoiceCard/InvoiceCard.tsx:50-51 | The segments of comma-joined texts without commas are those texts, trimmed. |
| ProductSegments.ProductTextSegments | src/components/InvoiceCard/InvoiceCard.tsx:50-51 | A written product string has one segment per order, in order. |
| InvoiceCard.UnitPrice | src/components/InvoiceCard/InvoiceCard.tsx:30-45 | The unit price is 3000 exactly for the listed codes and 2000 otherwise. |
| InvoiceCard.ParseItem | src/components/InvoiceCard/InvoiceCard.tsx:51-73 | The item's code is the section before the bar, it is priced from the table, and its total is unit price times quantity. |
| InvoiceCard.ParseProducts | src/components/InvoiceCard/InvoiceCard.tsx:47-79 | There is one item per segment, in order: the number of commas plus one. |
| InvoiceCard.Summary | src/components/InvoiceCard/InvoiceCard.tsx:90-95 | The discount is `max(0, subtotal - (cod + prepaid - 100))` and is never negative. Subtotal minus discount is `min(subtotal, cod + prepaid - 100)`. The total due is COD. |
| InvoiceCard.CardTotals | src/components/InvoiceCard/InvoiceCard.tsx:89-95 | The subtotal is the items' subtotal. The total due is COD read as `Number(x) \|\| 0`, whatever PRODUCT holds. The subtotal less the discount is the lesser of the subtotal and COD plus PP less shipping. |
| InvoiceCard.SubTotalOfOrders | src/components/InvoiceCard/InvoiceCard.tsx:89 | Items carrying the orders' unit prices and quantities add up to the orders' cost. |
| InvoiceCard.CardBillsOrders | src/components/InvoiceCard/InvoiceCard.tsx:47-89 | A record whose product string was written from orders has, as its subtotal, the table price of each order times its quantity, added up. |
| InvoiceCard.EmptyProduct | src/components/InvoiceCard/InvoiceCard.tsx:47-55 | A missing or empty product gives one item: empty code, empty color, quantity 1, price 2000. |
| InvoiceCard.ReadsBackOrders | src/components/InvoiceCard/InvoiceCard.tsx:47-79 | Written orders read back as their codes, colors and quantities, in order, priced from the table. |
| InvoiceCard.SubTotalOfListed | src/components/InvoiceCard/InvoiceCard.tsx:90 | When every item has a listed code, the subtotal is 3000 per piece. |
| InvoiceCard.ListedProductSubTotal | src/components/InvoiceCard/InvoiceCard.tsx:89-90 | A product string of listed codes costs 3000 times its total quantity. |
| SeetarInvoiceCard.Rate | src/components/SeetarInvoiceCard/SeetarInvoiceCard.tsx:30-40 | The rate is the table's price for a listed code and 2200 for any other code. |
| SeetarInvoiceCard.ParseItem | src/components/SeetarInvoiceCard/SeetarInvoiceCard.tsx:48-67 | The line's sno is its position plus 1, its rate comes from the table, and its amount is rate times quantity. |
| SeetarInvoiceCard.ParseProducts | src/components/SeetarInvoiceCard/SeetarInvoiceCard.tsx:46-73 | There is one line per segment, in order, with the segment's position. |
| SeetarInvoiceCard.Summary | src/components/SeetarInvoiceCard/SeetarInvoiceCard.tsx:80-86 | Shipping is 0. The discount is `max(0, subtotal - (cod + prepaid))`. The grand total is `min(subtotal, cod + prepaid)`, between 0 and the subtotal. The total due is COD. |
| SeetarInvoiceCard.CardTotals | src/components/SeetarInvoiceCard/SeetarInvoiceCard.tsx:79-86 | The subtotal is the lines' subtotal. COD and PP are read as `Number(x) \|\| 0`, and the total due is COD whatever PRODUCT holds. The grand total is the lesser of the subtotal and COD plus PP, between 0 and the subtotal. |
| SeetarInvoiceCard.SubTotalOfOrders | src/components/SeetarInvoiceCard/SeetarInvoiceCard.tsx:79 | Lines carrying the orders' rates and quantities add up to the orders' amount. |
| SeetarInvoiceCard.CardBillsOrders | src/components/SeetarInvoiceCard/SeetarInvoiceCard.tsx:42-86 | A record whose product string was written from orders has the orders' amount at the table's rates as its subtotal. Its grand total is the lesser of that amount and COD plus PP. |
| SeetarInvoiceCard.SerialNumbers | src/components/SeetarInvoiceCard/SeetarInvoiceCard.tsx:48-60 | Serial numbers start at 1 and run consecutively. |
| SeetarInvoiceCard.BarlessParticulars | src/components/SeetarInvoiceCard/SeetarInvoiceCard.tsx:61-63 | A trimmed segment without a bar shows as itself followed by a space. |
| SeetarInvoiceCard.ParticularsWithoutColor | src/components/SeetarInvoiceCard/SeetarInvoiceCard.tsx:61-63 | An item without a bar shows its code followed by a trailing space. |
| SeetarInvoiceCard.AgreesWithInvoiceCard | src/components/SeetarInvoiceCard/SeetarInvoiceCard.tsx:46-73 | Both cards read the same number of items, with the same quantities. Each line's particulars are the item's code, a space and its color. |
| SeetarInvoiceCard.ReadsBackOrders | src/components/SeetarInvoiceCard/SeetarInvoiceCard.tsx:46-73 | Written orders read back as numbered lines of code and color, with the quantity and the table rate. |
| SeetarInvoiceCard.ReadsBackOrder | src/components/SeetarInvoiceCard/SeetarInvoiceCard.tsx:48-67 | One written order reads back as its line. |
| Pagination.PageCount | src/components/LabelPage/LabelPage.tsx:13 | `Math.ceil(n / k)`: the least c with c * k >= n. It is 0 exactly when n is 0. |
| Pagination.Slice | src/components/LabelPage/LabelPage.tsx:33 | `slice` clamps its end to the length. |
| Pagination.Paginate | src/components/LabelPage/LabelPage.tsx:13-34 | There are `ceil(n / k)` pages, and no page at all for no items. |
| Pagination.PageSizes | src/components/LabelPage/LabelPage.tsx:32-34 | Page p is `items[p*k .. (p+1)*k)`, and the last page runs to the end. |
| Pagination.MulMonotone | src/components/LabelPage/LabelPage.tsx:33 | The start of a page grows with the page number. |
| Pagination.PagesFull | src/components/LabelPage/LabelPage.tsx:32-34 | Every page holds 1 to k items, and every page but the last holds exactly k. |
| Pagination.PageItem | src/components/LabelPage/LabelPage.tsx:32-34 | Item j of page p is item p*k + j of the input. |
| Pagination.PagesItems | src/components/LabelPage/LabelPage.tsx:32-34 | The same holds for every page and every item. |
| Pagination.PaginateUnfold | src/components/LabelPage/LabelPage.tsx:13-34 | The pages are the first k items followed by the pages of the rest. |
| Pagination.PageShift | src/components/LabelPage/LabelPage.tsx:33 | Page p is page p - 1 of what follows the first page. |
| Pagination.SliceShift | src/components/LabelPage/LabelPage.tsx:33 | Slicing after dropping k items is slicing k further along. |
| Pagination.FlattenPaginate | src/components/LabelPage/LabelPage.tsx:13-34 | The pages concatenate back to the input: no loss, no duplication, same order. |
| Pagination.OnePerPage | src/components/InvoicePage/InvoicePage.tsx:12 | With capacity 1, page i is exactly [items[i]]. |
| Pagination.Map | src/components/InvoicePage/InvoicePage.tsx:12 | `map` keeps the length and maps item i to item i. |
| Pagination.MapPages | src/pages/voucher.tsx:144 | Each page is mapped item by item. |
| Pagination.FlattenMapPages | src/pages/voucher.tsx:142-148 | Mapping page by page and then concatenating is mapping the concatenation. |
| Pagination.OnePerPageMap | src/components/InvoicePage/InvoicePage.tsx:12 | One page per item is pagination with capacity 1, followed by mapping. |
| LabelPage.GridRows | src/components/LabelPage/LabelPage.tsx:21-23 | The grid has 2 columns and 4 rows for 8 labels or 3 rows for 6, so its cell count equals the label count. |
| LabelPage.Pages | src/components/LabelPage/LabelPage.tsx:12-34 | There are `ceil(n / labelType)` pages, none for no data, and each page fits the grid. Every page but the last is full, page p holds the items from p*labelType on, and the pages concatenate to the data. |
| Home.VendorOf | src/pages/index.tsx:228-229 | A cell naming a vendor gives that vendor. Any other text, a number or a missing cell falls back to TODAYTREND. |
| Home.BillVendorOfRead | src/pages/index.tsx:227-229 | A read row's vendor comes from its VENDOR cell. |
| Home.BillPagesPaginate | src/pages/index.tsx:204-216 | Page i is `fields.slice(i*k, i*k + k)`, and there are no pages for no rows. These are the generic pages. |
| Home.BillPagesAreLabelPages | src/pages/index.tsx:204-216 | The bill pages partition the rows in order. Every page but the last is full, and no page is empty. |
| Home.HomePage.constructor | src/pages/index.tsx:80-81 | The page starts with no rows and labelType 8. |
| Home.HomePage.Upload | src/pages/index.tsx:111 | A sheet that reads replaces the rows with the objects read from it. A sheet whose header throws leaves the rows as they were. labelType is unchanged. |
| Home.HomePage.SetLabelType | src/pages/index.tsx:81 | Choosing a paper changes only labelType, which is 6 or 8 by its type. |
| Home.HomePage.Pages | src/pages/index.tsx:204-216 | The printed pages concatenate back to the rows, and there are none exactly when there are no rows. |
| Voucher.GridFitsPage | src/pages/voucher.tsx:167-168 | The 2-by-3 grid has exactly 6 cells, the page capacity. |
| Voucher.OpenPrintWindow | src/pages/voucher.tsx:35-40 | Printing with zero rows is refused with an alert. Otherwise the window shows the voucher pages, and there is at least one. |
| Voucher.VoucherCardsPaginate | src/pages/voucher.tsx:139-148 | The voucher pages are the rows paginated 6 to a page, each row replaced by its label. |
| Voucher.VoucherPages | src/pages/voucher.tsx:140-148 | There are `ceil(total / 6)` pages, none for no rows, each holding 1 to 6 vouchers and all but the last holding 6. Read in order, they show each row's NAME once, in row order. |
| Voucher.VoucherShowsItsRow | src/pages/voucher.tsx:144-145 | Voucher j of page p shows the NAME of row p*6 + j. |
| Voucher.VoucherLabelOfRead | src/pages/voucher.tsx:145 | A read row's voucher shows its NAME cell. |
| InvoicePage.CardOfOrders | src/components/InvoicePage/InvoicePage.tsx:37 | The card of a record written from orders lists one line per order, in order, with the table rate, and its subtotal is the orders' amount. |
| InvoicePage.Pages | src/components/InvoicePage/InvoicePage.tsx:12-38 | There is one page per record, and each page holds exactly one card. |
| InvoicePage.PagesOnePerRecord | src/components/InvoicePage/InvoicePage.tsx:12-38 | There are no pages for no records. Page i is record i's card, so the pages are the records paginated one to a page. |
| DataTable.FindError | src/components/DataTable/DataTable.tsx:42-46 | Gives the position of the first error matching both the row index and the field, or none when no error matches. |
| DataTable.GetCellError | src/components/DataTable/DataTable.tsx:42-46 | `errors.find` gives a matching error, or undefined exactly when no error matches. An error without a rowIndex never matches. |
| DataTable.HeaderAt | src/components/DataTable/DataTable.tsx:74 | The header of a column past the last header is undefined. |
| DataTable.Render | src/components/DataTable/DataTable.tsx:30-36 | Empty data renders only the empty message, "No data available" by default. |
| DataTable.RenderShape | src/components/DataTable/DataTable.tsx:39-40 | Without headers, row 0 is the header and the body is the remaining rows. With headers, every row is body. Cell texts stay in place. |
| DataTable.CellFlagged | src/components/DataTable/DataTable.tsx:71-94 | A body cell is flagged exactly when some error matches its body row index and its column header. The error shown is the first such error. |

## Left out

- IntToString / NumberOrZero / NumberOf: numbers are exact, unbounded integers here, whereas
  JavaScript numbers are IEEE doubles. Number cells, numerals read by `Number` or `parseInt`,
  and the prices, quantities and sums computed from them are assumed to be safe integers
  (below 2^53). Past that bound the source rounds (`Number("99999999999999999999")` is 1e20,
  and a cell holding 2^60 prints "1152921504606847000"), and from 1e21 on `toString` uses
  exponent form ("1e+21"). The same bound applies to `Quantity`, `UnitPrice * quantity`,
  `Rate * quantity` and the subtotal sums in both invoice cards.
- Cells are limited to three kinds: text, integers and blanks. The spreadsheet reader also
  yields fractional numbers (whose text, such as "12.5", would become a record value) and
  booleans (a `true` header cell makes the reader's `toUpperCase` throw). Neither is modelled.
- ToUpper: covers ASCII letters only. JavaScript's `toUpperCase` also maps other letters
  ("ß" to "SS", which changes the length; "ı" and "ſ" to ASCII letters), and that mapping is
  not modelled.
- AssignKeys: the model keeps every key in insertion order. A JavaScript object lists
  integer-like keys ("1", "2024") first, in ascending order, before the other keys. The
  label page's fixed headers have no such key.
- BuildRecordKeys: same key-order simplification as AssignKeys. A header named like an
  integer would be listed first by the source.
- UnitPrice: a code that names an inherited object property ("constructor", "toString",
  "__proto__", and so on) finds that property in the source's price table, so the line total
  becomes NaN. The model's prices are whole numbers, so it charges such a code the
  2000 fallback like any other unlisted code.
- Rate: the same inherited-property lookup gives a NaN amount in the source for such a code.
  The model charges the 2200 fallback.
- VendorOf: a VENDOR cell naming an inherited object property selects that property in the
  source (`Object` for "constructor"), whose missing logo then throws when the card renders.
  The model falls back to TODAYTREND.
- Spreadsheet decoding and file reading (`parseFile`, `XLSX.read`,
  `FileReader`, src/utils/sheetParser.ts:42-68 and src/utils/fileReader.ts:33-42
  and 73-75) are foreign library and I/O calls. The model starts from the
  decoded rows, a `seq<seq<Cell>>` whose rows always exist.
- Clipboard reading and the empty-text guards of the input component
  (src/components/DataInput/DataInput.tsx) are I/O. DataInput.tsx is not part
  of this model.
- `Number()` is modelled only for digit strings. Floats, signs, whitespace
  and hexadecimal are out of scope. Any other text is NaN: an error in the
  validator and 0 on the invoices.
- ValidationSchema.CodIssues: the messages "Invalid input" and "Invalid" are the
  validation library's own default texts for a failed union and for a regex without a
  message. Beyond those texts, the union path (which alternative's issues surface) is not
  modelled. The string-digit alternative
  (src/utils/validationSchema.ts:67, 74) is never reached from the label page,
  which always converts COD and PP with `Number` first.
- ValidationSchema.PpIssues: the union path is not modelled beyond those default texts,
  as for COD.
- The validation library itself is not modelled. Each field rule is an explicit
  ordered list of messages.
- The catch branches of `parseProducts` and of `validateRow` are not modelled,
  because nothing in the modelled code can throw there.
- Currency formatting (`toFixed`), `numberToWords`, the due and invoice dates
  and the random fallback invoice number (src/components/InvoiceCard/InvoiceCard.tsx:156-160)
  are floating-point formatting, an external library, the clock and
  randomness.
- All markup, styling, print dialogs and navigation are rendering, as are the
  printable-content, label-card and window-hook components. The label card's
  vendor fallback repeats the one modelled in `Home.VendorOf`.
