/**
 * The Seetar invoice card: numbered lines of particulars, quantity, rate and
 * amount read from the product string, and the card's totals without shipping.
 */
module SeetarInvoiceCard {
  import opened Wrappers
  import opened Strings
  import opened SheetParser
  import opened ProductSegments
  import InvoiceCard

  /** `itemPricesByCode`. */
  const Rates: map<string, nat> := map["SB101" := 2200, "SB102" := 2200, "SB103" := 3500,
    "BB101" := 1800, "BB102" := 2200, "BB103" := 2000, "MH101" := 3200, "MH102" := 3200, "MH103" := 3200]

  /** The `?? 2200` fallback for every other code. */
  const DefaultRate: nat := 2200

  const ShippingCost: int := 0

  /** `itemPricesByCode[code] ?? 2200`: the table's rate for a listed code, the fallback
      otherwise. */
  function Rate(code: string): (rate: nat)
    ensures code in Rates ==> rate == Rates[code]
    ensures code !in Rates ==> rate == DefaultRate
  {
    if code in Rates then Rates[code] else DefaultRate
  }

  /** `ParsedItem`. */
  datatype LineItem = LineItem(sno: nat, particulars: string, qty: nat, rate: nat, amount: nat)

  /** The line read from the trimmed segment at position `index`. */
  function ParseItem(index: nat, segment: string): (item: LineItem)
    ensures item.sno == index + 1
    ensures item.rate == Rate(CodeSection(segment))
    ensures item.amount == item.rate * item.qty
  {
    var code := CodeSection(segment);
    var colorSection := ColorSection(segment);
    var qty := Quantity(colorSection);
    var rate := Rate(code);
    InvoiceCard.NatProduct(rate, qty);
    LineItem(index + 1, code + " " + CleanColor(colorSection), qty, rate, rate * qty)
  }

  /** `parseProducts`: one line per comma-separated segment, numbered from 1. */
  function ParseProducts(product: Option<string>): (items: seq<LineItem>)
    ensures |items| == Count(InvoiceCard.ProductString(product), ',') + 1
    ensures forall i :: 0 <= i < |items| ==> items[i] == ParseItem(i, Segments(InvoiceCard.ProductString(product))[i])
  {
    var segments := Segments(InvoiceCard.ProductString(product));
    seq(|segments|, i requires 0 <= i < |segments| => ParseItem(i, segments[i]))
  }

  /** `items.reduce((sum, item) => sum + item.amount, 0)`. */
  function SubTotal(items: seq<LineItem>): nat {
    if items == [] then 0 else SubTotal(items[..|items| - 1]) + items[|items| - 1].amount
  }

  /** The figures printed on the card. */
  datatype Totals = Totals(subTotal: nat, shippingCost: int, cod: nat, prepaid: nat, discount: nat,
    totalDue: nat, grandTotal: int)

  /** The card's figures from its subtotal, COD and PP: the discount is what the subtotal
      exceeds COD plus PP by, or nothing; the grand total is the lesser of the subtotal and COD
      plus PP, so it is never negative and never more than the subtotal; the total due is COD. */
  function Summary(subTotal: nat, cod: nat, prepaid: nat): (t: Totals)
    ensures t.subTotal == subTotal && t.cod == cod && t.prepaid == prepaid
    ensures t.shippingCost == 0
    ensures t.discount >= t.subTotal - (t.cod + t.prepaid)
    ensures t.discount == 0 || t.discount == t.subTotal - (t.cod + t.prepaid)
    ensures t.grandTotal == t.subTotal - t.discount
    ensures t.grandTotal == InvoiceCard.Min(t.subTotal, t.cod + t.prepaid)
    ensures 0 <= t.grandTotal <= t.subTotal
    ensures t.totalDue == t.cod
  {
    var discount := InvoiceCard.Max(0, subTotal - (cod + prepaid - ShippingCost));
    Totals(subTotal, ShippingCost, cod, prepaid, discount, cod, subTotal - discount)
  }

  /** The totals of a record's card: the subtotal of its lines, and COD and PP as
      `Number(x) || 0`. */
  function CardTotals(data: Record): (t: Totals)
    ensures t.subTotal == SubTotal(ParseProducts(Lookup(data, "PRODUCT")))
    ensures t.cod == NumberOrZero(Lookup(data, "COD")) && t.prepaid == NumberOrZero(Lookup(data, "PP"))
    ensures t.totalDue == NumberOrZero(Lookup(data, "COD"))
    ensures t.grandTotal == InvoiceCard.Min(t.subTotal, t.cod + t.prepaid)
    ensures 0 <= t.grandTotal <= t.subTotal
  {
    var subTotal := SubTotal(ParseProducts(Lookup(data, "PRODUCT")));
    var cod := NumberOrZero(Lookup(data, "COD"));
    var prepaid := NumberOrZero(Lookup(data, "PP"));
    Summary(subTotal, cod, prepaid)
  }

  /** The serial numbers run 1, 2, 3, … without gaps. */
  lemma SerialNumbers(product: Option<string>)
    ensures ParseProducts(product)[0].sno == 1
    ensures forall i :: 0 <= i < |ParseProducts(product)| - 1 ==>
      ParseProducts(product)[i + 1].sno == ParseProducts(product)[i].sno + 1
  {
  }

  /** An item without a bar has no color, and its particulars are its code and a trailing
      space. */
  lemma ParticularsWithoutColor(product: Option<string>, i: nat)
    requires i < |ParseProducts(product)|
    requires '|' !in Segments(InvoiceCard.ProductString(product))[i]
    ensures ParseProducts(product)[i].particulars == Segments(InvoiceCard.ProductString(product))[i] + " "
  {
    var segment := Segments(InvoiceCard.ProductString(product))[i];
    assert ParseProducts(product)[i] == ParseItem(i, segment);
    BarlessParticulars(i, segment);
  }

  /** A trimmed segment without a bar is all code: its particulars are the segment and a space. */
  lemma BarlessParticulars(index: nat, segment: string)
    requires '|' !in segment && IsTrimmed(segment)
    ensures ParseItem(index, segment).particulars == segment + " "
  {
    assert segment[..|segment|] == segment;
    CodeBeforeFirstBar(segment, |segment|);
    TrimmedUnchanged(segment);
    NoSuffixDefaults("");
    assert CleanColor("") == "";
  }

  /** Both invoice cards read the same lines from the same product string: the same number of
      items, and line `i` has item `i`'s quantity and reads as its code, a space and its color. */
  lemma AgreesWithInvoiceCard(product: Option<string>)
    ensures |ParseProducts(product)| == |InvoiceCard.ParseProducts(product)|
    ensures forall i :: 0 <= i < |ParseProducts(product)| ==>
      var line := ParseProducts(product)[i];
      var item := InvoiceCard.ParseProducts(product)[i];
      line.qty == item.quantity && line.particulars == item.itemCode + " " + item.color
  {
  }

  /** Writing orders down and reading them back gives each order's code and color as the
      particulars, its quantity, and the table's rate. */
  lemma ReadsBackOrders(orders: seq<Order>)
    requires |orders| >= 1 && forall i :: 0 <= i < |orders| ==> Writable(orders[i])
    ensures |ParseProducts(Some(ProductText(orders)))| == |orders|
    ensures forall i :: 0 <= i < |orders| ==> ParseProducts(Some(ProductText(orders)))[i] == OrderLine(i, orders[i])
  {
    ProductTextSegments(orders);
    forall i | 0 <= i < |orders| ensures ParseItem(i, ItemText(orders[i])) == OrderLine(i, orders[i]) {
      ReadsBackOrder(i, orders[i]);
    }
  }

  /** What a list of orders comes to at the table's rates: each order's rate times its
      quantity, added up. */
  function OrdersAmount(orders: seq<Order>): nat {
    if orders == [] then 0
    else OrdersAmount(orders[..|orders| - 1]) + Rate(orders[|orders| - 1].code) * orders[|orders| - 1].quantity
  }

  /** Lines that carry the orders' rates and quantities add up to the orders' amount. */
  lemma {:induction false} SubTotalOfOrders(items: seq<LineItem>, orders: seq<Order>)
    requires |items| == |orders|
    requires forall i :: 0 <= i < |items| ==> items[i].amount == Rate(orders[i].code) * orders[i].quantity
    ensures SubTotal(items) == OrdersAmount(orders)
  {
    if items != [] {
      SubTotalOfOrders(items[..|items| - 1], orders[..|orders| - 1]);
    }
  }

  /** A record whose product string was written from orders has the orders' amount as its
      subtotal, and the lesser of that amount and COD plus PP as its grand total. */
  lemma CardBillsOrders(data: Record, orders: seq<Order>)
    requires |orders| >= 1 && forall i :: 0 <= i < |orders| ==> Writable(orders[i])
    requires Lookup(data, "PRODUCT") == Some(ProductText(orders))
    ensures CardTotals(data).subTotal == OrdersAmount(orders)
    ensures CardTotals(data).grandTotal ==
      InvoiceCard.Min(OrdersAmount(orders), CardTotals(data).cod + CardTotals(data).prepaid)
  {
    ReadsBackOrders(orders);
    SubTotalOfOrders(ParseProducts(Some(ProductText(orders))), orders);
  }

  /** The line an order should read back as, at position `index`. */
  function OrderLine(index: nat, o: Order): LineItem {
    LineItem(index + 1, o.code + " " + o.color, o.quantity, Rate(o.code), Rate(o.code) * o.quantity)
  }

  lemma ReadsBackOrder(index: nat, o: Order)
    requires Writable(o)
    ensures ParseItem(index, ItemText(o)) == OrderLine(index, o)
  {
    ItemTextReadsBack(o);
  }
}
