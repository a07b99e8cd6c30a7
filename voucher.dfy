/**
 * The voucher page: the uploaded rows printed six vouchers to a page, each
 * voucher showing its row's NAME; printing nothing is refused.
 */
module Voucher {
  import opened Cells
  import opened Pagination
  import opened FileReader

  /** Vouchers per page. */
  const Capacity: nat := 6

  /** `repeat(2, 1fr)` columns and `repeat(3, 1fr)` rows. */
  const GridColumns: nat := 2
  const GridRows: nat := 3

  /** The page grid has exactly one cell per voucher of a page. */
  lemma GridFitsPage()
    ensures GridColumns * GridRows == Capacity
  {
  }

  /** `item?.NAME`: the text printed on a row's voucher. */
  function VoucherLabel(item: seq<FieldValue>): Cell {
    FieldCell(item, "NAME")
  }

  /** `VoucherCards`: `ceil(total / 6)` pages, page `i` showing the labels of
      `fields.slice(i * 6, i * 6 + 6)`. */
  function VoucherCards(fields: seq<seq<FieldValue>>): seq<seq<Cell>> {
    seq(PageCount(|fields|, Capacity), i requires 0 <= i =>
      Map(VoucherLabel, Slice(fields, i * Capacity, i * Capacity + Capacity)))
  }

  /** The outcomes of the print button. */
  datatype PrintResult = NoDataAlert(message: string) | Opened(pages: seq<seq<Cell>>)

  /** `openPrintWindow`: with no rows, an alert and no window; otherwise a window with the
      voucher pages. */
  function OpenPrintWindow(fields: seq<seq<FieldValue>>): (r: PrintResult)
    ensures r.NoDataAlert? <==> fields == []
    ensures r.NoDataAlert? ==> r.message == "No data to print"
    ensures r.Opened? ==> r.pages == VoucherCards(fields) && r.pages != []
  {
    if |fields| == 0 then NoDataAlert("No data to print")
    else
      VoucherPages(fields);
      Opened(VoucherCards(fields))
  }

  /** The voucher pages are the rows' pages of six with each row replaced by its label. */
  lemma VoucherCardsPaginate(fields: seq<seq<FieldValue>>)
    ensures VoucherCards(fields) == MapPages(VoucherLabel, Paginate(fields, Capacity))
  {
    var pages := Paginate(fields, Capacity);
    var cards := VoucherCards(fields);
    forall i | 0 <= i < |pages| ensures cards[i] == Map(VoucherLabel, pages[i]) {
      Distrib(i, Capacity);
    }
  }

  /** `ceil(total / 6)` pages, none for no rows; every page but the last holds six vouchers and no
      page is empty; read page by page, the vouchers show the rows' names in row order, each
      exactly once. */
  lemma VoucherPages(fields: seq<seq<FieldValue>>)
    ensures |VoucherCards(fields)| == PageCount(|fields|, Capacity)
    ensures VoucherCards(fields) == [] <==> fields == []
    ensures forall p :: 0 <= p < |VoucherCards(fields)| ==> 1 <= |VoucherCards(fields)[p]| <= Capacity
    ensures forall p :: 0 <= p < |VoucherCards(fields)| - 1 ==> |VoucherCards(fields)[p]| == Capacity
    ensures Flatten(VoucherCards(fields)) == Map(VoucherLabel, fields)
  {
    VoucherCardsPaginate(fields);
    PagesFull(fields, Capacity);
    FlattenPaginate(fields, Capacity);
    FlattenMapPages(VoucherLabel, Paginate(fields, Capacity));
  }

  /** Voucher `j` of page `p` shows the label of row `p * 6 + j`. */
  lemma VoucherShowsItsRow(fields: seq<seq<FieldValue>>, p: nat, j: nat)
    requires p < |VoucherCards(fields)| && j < |VoucherCards(fields)[p]|
    ensures p * Capacity + j < |fields|
    ensures VoucherCards(fields)[p][j] == VoucherLabel(fields[p * Capacity + j])
  {
    VoucherCardsPaginate(fields);
    var pages := Paginate(fields, Capacity);
    assert VoucherCards(fields)[p] == Map(VoucherLabel, pages[p]);
    PageItem(fields, Capacity, p, j);
  }

  /** A row read from the sheet is labelled with the cell under its NAME key. */
  lemma VoucherLabelOfRead(item: seq<FieldValue>)
    requires FieldNames(item) == Fields
    ensures VoucherLabel(item) == item[1].cell
  {
    FieldCellOfRead(item, 1);
  }
}
