/**
 * The invoice card: the record's product string read item by item against the
 * price table, and the card's totals from COD and PP.
 */
module InvoiceCard {
  import opened Wrappers
  import opened Strings
  import opened SheetParser
  import opened ProductSegments

  /** The codes of `itemPricesByCode`, each priced 3000. */
  const PricedCodes: seq<string> := ["SB101", "SB102", "SB103", "SB104", "SB105", "SB106", "SB107",
    "SB108", "SB109", "SB110", "SB201", "SB202", "SB203", "SB205"]

  const ListedPrice: nat := 3000

  /** The `|| 2000` fallback for every other code. */
  const DefaultPrice: nat := 2000

  const ShippingCost: int := 100

  /** `itemPricesByCode[code] || 2000`: the listed price exactly for the listed codes. */
  function UnitPrice(code: string): (price: nat)
    ensures price == ListedPrice <==> code in PricedCodes
    ensures price == DefaultPrice <==> code !in PricedCodes
  {
    if code in PricedCodes then ListedPrice else DefaultPrice
  }

  /** `ParsedItem`. */
  datatype ParsedItem = ParsedItem(itemCode: string, color: string, quantity: nat, unitPrice: nat, total: nat)

  /** The item read from one trimmed segment. */
  function ParseItem(segment: string): (item: ParsedItem)
    ensures item.itemCode == CodeSection(segment)
    ensures item.unitPrice == UnitPrice(item.itemCode)
    ensures item.total == item.unitPrice * item.quantity
  {
    var code := CodeSection(segment);
    var colorSection := ColorSection(segment);
    var quantity := Quantity(colorSection);
    var unitPrice := UnitPrice(code);
    NatProduct(unitPrice, quantity);
    ParsedItem(code, CleanColor(colorSection), quantity, unitPrice, unitPrice * quantity)
  }

  lemma NatProduct(a: nat, b: nat)
    ensures a * b >= 0
  {
  }

  /** `productString: string = ""`: a missing product reads as the empty string. */
  function ProductString(product: Option<string>): string {
    match product
    case Some(s) => s
    case None => ""
  }

  /** `parseProducts`: one item per comma-separated segment, in order. */
  function ParseProducts(product: Option<string>): (items: seq<ParsedItem>)
    ensures |items| == Count(ProductString(product), ',') + 1
    ensures forall i :: 0 <= i < |items| ==> items[i] == ParseItem(Segments(ProductString(product))[i])
  {
    var segments := Segments(ProductString(product));
    seq(|segments|, i requires 0 <= i < |segments| => ParseItem(segments[i]))
  }

  /** `items.reduce((sum, item) => sum + item.total, 0)`. */
  function SubTotal(items: seq<ParsedItem>): nat {
    if items == [] then 0 else SubTotal(items[..|items| - 1]) + items[|items| - 1].total
  }

  /** The quantities of the items added up. */
  function TotalQuantity(items: seq<ParsedItem>): nat {
    if items == [] then 0 else TotalQuantity(items[..|items| - 1]) + items[|items| - 1].quantity
  }

  function Max(a: int, b: int): int {
    if a >= b then a else b
  }

  function Min(a: int, b: int): int {
    if a <= b then a else b
  }

  /** The figures printed on the card. */
  datatype Totals = Totals(subTotal: nat, shippingCost: int, cod: nat, prepaid: nat, discount: nat, totalDue: nat)

  /** The card's figures from its subtotal, COD and PP. The discount is what the subtotal
      exceeds the amount collected (COD plus PP less shipping) by, and nothing when it does not;
      the subtotal less the discount is therefore the lesser of the two; the total due is COD
      whatever the items are. */
  function Summary(subTotal: nat, cod: nat, prepaid: nat): (t: Totals)
    ensures t.subTotal == subTotal && t.cod == cod && t.prepaid == prepaid
    ensures t.shippingCost == ShippingCost
    ensures t.discount >= t.subTotal - (t.cod + t.prepaid - t.shippingCost)
    ensures t.discount == 0 || t.discount == t.subTotal - (t.cod + t.prepaid - t.shippingCost)
    ensures t.subTotal - t.discount == Min(t.subTotal, t.cod + t.prepaid - t.shippingCost)
    ensures t.totalDue == t.cod
  {
    var discount := Max(0, subTotal - (cod + prepaid - ShippingCost));
    Totals(subTotal, ShippingCost, cod, prepaid, discount, cod)
  }

  /** The totals of a record's card: the subtotal of its items, and COD and PP as
      `Number(x) || 0`. */
  function CardTotals(data: Record): (t: Totals)
    ensures t.subTotal == SubTotal(ParseProducts(Lookup(data, "PRODUCT")))
    ensures t.cod == NumberOrZero(Lookup(data, "COD")) && t.prepaid == NumberOrZero(Lookup(data, "PP"))
    ensures t.totalDue == NumberOrZero(Lookup(data, "COD"))
    ensures t.subTotal - t.discount == Min(t.subTotal, t.cod + t.prepaid - ShippingCost)
  {
    var subTotal := SubTotal(ParseProducts(Lookup(data, "PRODUCT")));
    var cod := NumberOrZero(Lookup(data, "COD"));
    var prepaid := NumberOrZero(Lookup(data, "PP"));
    Summary(subTotal, cod, prepaid)
  }

  /** A missing or empty product string still yields one item: no code, no color, quantity 1
      at the fallback price. */
  lemma EmptyProduct()
    ensures ParseProducts(None) == ParseProducts(Some(""))
    ensures ParseProducts(Some("")) == [ParsedItem("", "", 1, DefaultPrice, DefaultPrice)]
  {
    EmptyProductOneItem();
    assert "" !in PricedCodes;
  }

  /** Writing orders down and reading them back gives each order's code, color and quantity, in
      order, priced from the table. */
  lemma {:induction false} ReadsBackOrders(orders: seq<Order>)
    requires |orders| >= 1 && forall i :: 0 <= i < |orders| ==> Writable(orders[i])
    ensures |ParseProducts(Some(ProductText(orders)))| == |orders|
    ensures forall i :: 0 <= i < |orders| ==>
      ParseProducts(Some(ProductText(orders)))[i] ==
        ParsedItem(orders[i].code, orders[i].color, orders[i].quantity,
          UnitPrice(orders[i].code), UnitPrice(orders[i].code) * orders[i].quantity)
  {
    ProductTextSegments(orders);
    forall i | 0 <= i < |orders|
      ensures ParseItem(ItemText(orders[i])) ==
        ParsedItem(orders[i].code, orders[i].color, orders[i].quantity,
          UnitPrice(orders[i].code), UnitPrice(orders[i].code) * orders[i].quantity)
    {
      ItemTextReadsBack(orders[i]);
    }
  }

  /** What a list of orders costs at the table's prices: each order's unit price times its
      quantity, added up. */
  function OrdersCost(orders: seq<Order>): nat {
    if orders == [] then 0
    else OrdersCost(orders[..|orders| - 1]) + UnitPrice(orders[|orders| - 1].code) * orders[|orders| - 1].quantity
  }

  /** Items that carry the orders' prices and quantities add up to the orders' cost. */
  lemma {:induction false} SubTotalOfOrders(items: seq<ParsedItem>, orders: seq<Order>)
    requires |items| == |orders|
    requires forall i :: 0 <= i < |items| ==> items[i].total == UnitPrice(orders[i].code) * orders[i].quantity
    ensures SubTotal(items) == OrdersCost(orders)
  {
    if items != [] {
      SubTotalOfOrders(items[..|items| - 1], orders[..|orders| - 1]);
    }
  }

  /** A record whose product string was written from orders is billed, before the discount,
      the table price of each order times its quantity, added up. */
  lemma CardBillsOrders(data: Record, orders: seq<Order>)
    requires |orders| >= 1 && forall i :: 0 <= i < |orders| ==> Writable(orders[i])
    requires Lookup(data, "PRODUCT") == Some(ProductText(orders))
    ensures CardTotals(data).subTotal == OrdersCost(orders)
  {
    ReadsBackOrders(orders);
    SubTotalOfOrders(ParseProducts(Some(ProductText(orders))), orders);
  }

  /** When every item is a listed code, the subtotal is the listed price per piece. */
  lemma {:induction false} SubTotalOfListed(items: seq<ParsedItem>)
    requires forall i :: 0 <= i < |items| ==>
      items[i].itemCode in PricedCodes && items[i].unitPrice == UnitPrice(items[i].itemCode) &&
      items[i].total == items[i].unitPrice * items[i].quantity
    ensures SubTotal(items) == ListedPrice * TotalQuantity(items)
  {
    if items != [] {
      var init := items[..|items| - 1];
      assert forall i :: 0 <= i < |init| ==> init[i] == items[i];
      SubTotalOfListed(init);
    }
  }

  /** Every item of a parsed product string is priced from the table, so a string of listed
      codes costs the listed price per piece. */
  lemma ListedProductSubTotal(product: Option<string>)
    requires forall i :: 0 <= i < |ParseProducts(product)| ==> ParseProducts(product)[i].itemCode in PricedCodes
    ensures SubTotal(ParseProducts(product)) == ListedPrice * TotalQuantity(ParseProducts(product))
  {
    SubTotalOfListed(ParseProducts(product));
  }
}
