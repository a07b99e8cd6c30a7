/**
 * The bill-printing home page: the uploaded rows laid out `labelType` bills to a
 * printed page, each bill under its vendor's letterhead.
 */
module Home {
  import opened Cells
  import opened Pagination
  import opened FileReader
  import LabelPage

  /** `TLabelSize`: 6 or 8 bills to a page. */
  type LabelSize = LabelPage.LabelSize

  /** A vendor's letterhead. */
  datatype Vendor = Vendor(name: string, address: string, phone: string, logo: string)

  /** The `vendor` table, keyed by the `EVendor` values. */
  const Vendors: map<string, Vendor> := map[
    "TODAYTREND" := Vendor("Today Trend", "Ranibari, Kathmandu", "+977 982-0135145", "today_trend_logo.png"),
    "MANTRAMART" := Vendor("Mantra Mart", "Ranibari, Kathmandu", "+977 970-3726062", "mantra_mart_logo.png"),
    "DRESSBERRY" := Vendor("Dress Berry", "Ranibari, Kathmandu", "+977 982-0135145", "dress_berry_logo.png"),
    "VANESSA" := Vendor("Vanessa", "Ranibari, Kathmandu", "+977 982-0135145", "vanessa_logo.png"),
    "DALICART" := Vendor("Dali.Com", "Kathmandu, Sorakhutte", "+977 01-4952477", "dali_cart_logo.png")]

  /** The vendor every unrecognised row falls back to. */
  const DefaultVendor: Vendor := Vendors["TODAYTREND"]

  /** `vendor?.[VENDOR] || vendor[EVendor.TODAYTREND]`: the named vendor when the cell names one,
      Today Trend for any other text, a number or a missing cell. */
  function VendorOf(cell: Cell): (v: Vendor)
    ensures cell.Text? && cell.text in Vendors ==> v == Vendors[cell.text]
    ensures !(cell.Text? && cell.text in Vendors) ==> v == DefaultVendor
  {
    if cell.Text? && cell.text in Vendors then Vendors[cell.text] else DefaultVendor
  }

  /** The vendor on a row's bill. */
  function BillVendor(obj: seq<FieldValue>): Vendor {
    VendorOf(FieldCell(obj, "VENDOR"))
  }

  /** A row read from the spreadsheet has its VENDOR cell at the eighth key. */
  lemma BillVendorOfRead(obj: seq<FieldValue>)
    requires FieldNames(obj) == Fields
    ensures BillVendor(obj) == VendorOf(obj[7].cell)
  {
    FieldCellOfRead(obj, 7);
  }

  /** The printed pages: none without rows, otherwise `ceil(n / k)` pages, page `i` being
      `fields.slice(i * k, i * k + k)`. */
  function BillPages(fields: seq<seq<FieldValue>>, labelType: LabelSize): seq<seq<seq<FieldValue>>> {
    if |fields| > 0 then
      seq(PageCount(|fields|, labelType), i requires 0 <= i => Slice(fields, i * labelType, i * labelType + labelType))
    else []
  }

  /** As on the label sheet, page `i` is `fields.slice(i * k, (i + 1) * k)`. */
  lemma BillPagesPaginate(fields: seq<seq<FieldValue>>, labelType: LabelSize)
    ensures BillPages(fields, labelType) == Paginate(fields, labelType)
  {
    var pages := Paginate(fields, labelType);
    if |fields| > 0 {
      var bills := BillPages(fields, labelType);
      forall i | 0 <= i < |pages| ensures bills[i] == pages[i] {
        Distrib(i, labelType);
      }
    }
  }

  /** The bill pages are the label sheet's pages: they partition the rows in order, every page
      but the last is full, and no page is empty. */
  lemma BillPagesAreLabelPages(fields: seq<seq<FieldValue>>, labelType: LabelSize)
    ensures BillPages(fields, labelType) == LabelPage.Pages(fields, labelType)
    ensures Flatten(BillPages(fields, labelType)) == fields
    ensures forall p :: 0 <= p < |BillPages(fields, labelType)| - 1 ==> |BillPages(fields, labelType)[p]| == labelType
    ensures forall p :: 0 <= p < |BillPages(fields, labelType)| ==> 1 <= |BillPages(fields, labelType)[p]| <= labelType
  {
    BillPagesPaginate(fields, labelType);
    var pages := LabelPage.Pages(fields, labelType);
  }

  /** The page's state: the rows read from the upload and the chosen paper. */
  class HomePage {
    var fields: seq<seq<FieldValue>>
    var labelType: LabelSize

    /** `useState([])` and `useState(8)`. */
    constructor ()
      ensures fields == [] && labelType == 8
    {
      fields := [];
      labelType := 8;
    }

    /** The upload's `setFields` callback: a sheet that reads replaces the rows; one whose header
        holds a number throws before the callback, and the rows stay as they were. */
    method Upload(excelData: seq<seq<Cell>>)
      modifies this
      ensures ReadSheet(excelData).Success? ==> fields == ReadSheet(excelData).value
      ensures ReadSheet(excelData).Failure? ==> fields == old(fields)
      ensures labelType == old(labelType)
    {
      match ReadSheet(excelData)
      case Success(rows) => fields := rows;
      case Failure(_) =>
    }

    /** Clicking a paper card selects it and changes nothing else. */
    method SetLabelType(paper: LabelSize)
      modifies this
      ensures labelType == paper && fields == old(fields)
    {
      labelType := paper;
    }

    /** The pages printed for the current state. */
    function Pages(): (pages: seq<seq<seq<FieldValue>>>)
      reads this
      ensures pages == BillPages(fields, labelType)
      ensures Flatten(pages) == fields
      ensures pages == [] <==> fields == []
    {
      BillPagesAreLabelPages(fields, labelType);
      BillPages(fields, labelType)
    }
  }
}
