/**
 * The label sheet: records laid out `labelType` to a page on a two-column grid.
 */
module LabelPage {
  import opened Pagination

  /** `TLabelSize`: a sheet holds 6 or 8 labels. */
  type LabelSize = n: int | n == 6 || n == 8 witness 8

  /** `repeat(2, 1fr)`: the grid always has two columns. */
  const GridColumns: nat := 2

  /** The grid's rows: four for eight labels, three for six, so the grid has exactly one cell per
      label of the sheet. */
  function GridRows(labelType: LabelSize): (rows: nat)
    ensures GridColumns * rows == labelType
  {
    if labelType == 8 then 4 else 3
  }

  /** The pages rendered for `data`: `ceil(|data| / labelType)` of them, none for no data; page `p`
      holds `data[p * labelType ..]` up to `labelType` items, so every page but the last is full,
      no page is empty, and the pages concatenate back to `data`. */
  function Pages<T>(data: seq<T>, labelType: LabelSize): (pages: seq<seq<T>>)
    ensures |pages| == PageCount(|data|, labelType)
    ensures pages == [] <==> data == []
    ensures Flatten(pages) == data
    ensures forall p :: 0 <= p < |pages| ==> 1 <= |pages[p]| <= GridColumns * GridRows(labelType)
    ensures forall p :: 0 <= p < |pages| - 1 ==> |pages[p]| == labelType
    ensures forall p, j :: 0 <= p < |pages| && 0 <= j < |pages[p]| ==>
      p * labelType + j < |data| && pages[p][j] == data[p * labelType + j]
  {
    FlattenPaginate(data, labelType);
    PagesFull(data, labelType);
    PagesItems(data, labelType);
    Paginate(data, labelType)
  }
}
