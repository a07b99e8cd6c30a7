/**
 * The invoice pages: one printed page per record, each holding that record's
 * Seetar invoice card.
 */
module InvoicePage {
  import opened Wrappers
  import opened SheetParser
  import opened Pagination
  import SeetarInvoiceCard
  import ProductSegments

  /** What a page's card shows: the record's lines and totals. */
  datatype Card = Card(items: seq<SeetarInvoiceCard.LineItem>, totals: SeetarInvoiceCard.Totals)

  /** `<SeetarInvoiceCard {...item} />`. */
  function CardOf(item: Record): Card {
    Card(SeetarInvoiceCard.ParseProducts(Lookup(item, "PRODUCT")), SeetarInvoiceCard.CardTotals(item))
  }

  /** The card of a record whose product string was written from orders lists those orders,
      one line each in order with its table rate, and totals them. */
  lemma CardOfOrders(item: Record, orders: seq<ProductSegments.Order>)
    requires |orders| >= 1 && forall i :: 0 <= i < |orders| ==> ProductSegments.Writable(orders[i])
    requires Lookup(item, "PRODUCT") == Some(ProductSegments.ProductText(orders))
    ensures |CardOf(item).items| == |orders|
    ensures forall i :: 0 <= i < |orders| ==> CardOf(item).items[i] == SeetarInvoiceCard.OrderLine(i, orders[i])
    ensures CardOf(item).totals.subTotal == SeetarInvoiceCard.OrdersAmount(orders)
  {
    SeetarInvoiceCard.ReadsBackOrders(orders);
    SeetarInvoiceCard.CardBillsOrders(item, orders);
  }

  /** A printed page: the record's card, alone. */
  function PageOf(item: Record): seq<Card> {
    [CardOf(item)]
  }

  /** `data.map(...)`: each page holds exactly one card. */
  function Pages(data: seq<Record>): (pages: seq<seq<Card>>)
    ensures |pages| == |data|
    ensures forall i :: 0 <= i < |pages| ==> |pages[i]| == 1
  {
    Map(PageOf, data)
  }

  /** One page per record, none for no records, and page `i` is record `i`'s card: the pages are
      the records paginated one to a page, each replaced by its card. */
  lemma PagesOnePerRecord(data: seq<Record>)
    ensures Pages(data) == [] <==> data == []
    ensures Pages(data) == MapPages(CardOf, Paginate(data, 1))
    ensures Flatten(Pages(data)) == Map(CardOf, data)
  {
    OnePerPageMap(PageOf, CardOf, data);
  }
}
