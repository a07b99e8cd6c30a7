/**
 * The product mini-grammar shared by the validator and both invoice cards:
 * items separated by commas, each `CODE|LABEL` with an optional `*QTY` suffix
 * after the label.
 */
module ProductSegments {
  import opened Wrappers
  import opened Strings

  /** `s.split(",").map(p => p.trim())`: one trimmed item per comma-separated piece. */
  function Segments(s: string): (r: seq<string>)
    ensures |r| == Count(s, ',') + 1
    ensures forall i :: 0 <= i < |r| ==> r[i] == Trim(Split(s, ',')[i]) && IsTrimmed(r[i])
  {
    var parts := Split(s, ',');
    seq(|parts|, i requires 0 <= i < |parts| => Trim(parts[i]))
  }

  /** `item.split("|").map(s => s.trim())`. */
  function Pieces(item: string): (r: seq<string>)
    ensures |r| == Count(item, '|') + 1
    ensures forall i :: 0 <= i < |r| ==> r[i] == Trim(Split(item, '|')[i])
  {
    var parts := Split(item, '|');
    seq(|parts|, i requires 0 <= i < |parts| => Trim(parts[i]))
  }

  /** `codeSection`: the first piece. */
  function CodeSection(item: string): string {
    Pieces(item)[0]
  }

  /** `colorSection = ""`: the second piece, or "" when there is none; later pieces are dropped. */
  function ColorSection(item: string): string {
    var p := Pieces(item);
    if |p| > 1 then p[1] else ""
  }

  /** The code is the trimmed text before the first bar (the whole item without one), and an
      item without a bar has no color section. */
  lemma CodeBeforeFirstBar(item: string, i: nat)
    requires i <= |item| && '|' !in item[..i] && (i == |item| || item[i] == '|')
    ensures CodeSection(item) == Trim(item[..i])
    ensures i == |item| ==> ColorSection(item) == ""
  {
    SplitFirst(item, '|', i);
  }

  /** The color section is the trimmed text between the first bar and the next one (or the end). */
  lemma ColorBetweenBars(item: string, i: nat, j: nat)
    requires i < j <= |item| && item[i] == '|' && '|' !in item[..i]
    requires '|' !in item[i + 1..j] && (j == |item| || item[j] == '|')
    ensures ColorSection(item) == Trim(item[i + 1..j])
  {
    SplitAtFirst(item, '|', i);
    var rest := item[i + 1..];
    assert rest[..j - i - 1] == item[i + 1..j];
    SplitFirst(rest, '|', j - i - 1);
  }

  // ---------------------------------------------------------------------------
  // The quantity suffix `/\*(\d+)$/`
  // ---------------------------------------------------------------------------

  /** The length of the longest run of digits at the end of `s`. */
  function TrailingDigits(s: string): (n: nat)
    ensures n <= |s|
    ensures AllDigits(s[|s| - n..])
    ensures n == |s| || !IsDigit(s[|s| - n - 1])
  {
    if s == [] || !IsDigit(s[|s| - 1]) then 0
    else
      var m := TrailingDigits(s[..|s| - 1]);
      assert s[|s| - (m + 1)..] == s[..|s| - 1][|s| - 1 - m..] + [s[|s| - 1]];
      m + 1
  }

  /** The reference reading of the pattern: a star at `k` followed by one or more digits up to
      the end. */
  predicate SuffixAt(s: string, k: int) {
    0 <= k < |s| && s[k] == '*' && IsDigits(s[k + 1..])
  }

  /** Where the `*digits` suffix starts, if the text ends in one. */
  function QuantityStar(s: string): (r: Option<nat>)
    ensures r.Some? ==> SuffixAt(s, r.value)
    ensures r.None? ==> forall k :: !SuffixAt(s, k)
  {
    var n := TrailingDigits(s);
    if 0 < n < |s| && s[|s| - n - 1] == '*' then Some(|s| - n - 1)
    else
      assert forall k :: !SuffixAt(s, k) by {
        forall k | SuffixAt(s, k) ensures false {
          SuffixRun(s, k);
        }
      }
      None
  }

  /** A star followed by digits to the end starts exactly where the longest run of trailing
      digits begins. */
  lemma SuffixRun(s: string, k: int)
    requires SuffixAt(s, k)
    ensures TrailingDigits(s) == |s| - k - 1
  {
  }

  /** The star of a suffix is unique: there is at most one place a suffix can start. */
  lemma SuffixUnique(s: string, k: int, k': int)
    requires SuffixAt(s, k) && SuffixAt(s, k')
    ensures k == k'
  {
    SuffixRun(s, k);
    SuffixRun(s, k');
  }

  /** `quantityMatch ? parseInt(quantityMatch[1]) : 1`. */
  function Quantity(colorSection: string): nat {
    match QuantityStar(colorSection)
    case Some(k) => DigitsValue(colorSection[k + 1..])
    case None => 1
  }

  /** `colorSection.replace(/\*\d+$/, "").trim()`. */
  function CleanColor(colorSection: string): (c: string)
    ensures IsTrimmed(c)
  {
    match QuantityStar(colorSection)
    case Some(k) => Trim(colorSection[..k])
    case None => Trim(colorSection)
  }

  /** A text followed by `*` and a numeral yields that number as quantity and the trimmed text
      as color; the quantity may be 0. */
  lemma QuantitySuffixRoundTrip(text: string, digits: string)
    requires IsDigits(digits)
    ensures Quantity(text + "*" + digits) == DigitsValue(digits)
    ensures CleanColor(text + "*" + digits) == Trim(text)
  {
    var s := text + "*" + digits;
    assert s[|text| + 1..] == digits;
    assert s[..|text|] == text;
    assert SuffixAt(s, |text|);
    var k := QuantityStar(s).value;
    SuffixUnique(s, k, |text|);
  }

  /** Without a `*digits` suffix the quantity is 1 and the color is the section trimmed. */
  lemma NoSuffixDefaults(colorSection: string)
    requires forall k :: !SuffixAt(colorSection, k)
    ensures Quantity(colorSection) == 1
    ensures CleanColor(colorSection) == Trim(colorSection)
  {
  }

  /** An empty (or absent) product string still yields one item, whose code is empty. */
  lemma EmptyProductOneItem()
    ensures Segments("") == [""]
    ensures CodeSection("") == "" && ColorSection("") == ""
    ensures Quantity("") == 1 && CleanColor("") == ""
  {
    assert Split("", ',') == [""];
    assert Split("", '|') == [""];
    NoSuffixDefaults("");
  }
  // ---------------------------------------------------------------------------
  // Writing a product string
  // ---------------------------------------------------------------------------

  /** One ordered item as a spreadsheet cell spells it: a code, a color and a quantity. */
  datatype Order = Order(code: string, color: string, quantity: nat)

  /** The code and color of an order can be written down and read back: neither holds a
      separator, and neither has whitespace at its ends. */
  predicate Writable(o: Order) {
    ',' !in o.code && '|' !in o.code && ',' !in o.color && '|' !in o.color
    && IsTrimmed(o.code) && IsTrimmed(o.color)
  }

  /** `CODE|COLOR*QTY`. */
  function ItemText(o: Order): string {
    o.code + "|" + o.color + "*" + NatToString(o.quantity)
  }

  /** The orders written one after another, separated by commas. */
  function ProductText(orders: seq<Order>): string
    requires |orders| >= 1
  {
    Join(seq(|orders|, i requires 0 <= i < |orders| => ItemText(orders[i])), ',')
  }

  /** A written order reads back as itself: its code before the bar, its color with the quantity
      suffix removed, and its quantity from the suffix. */
  lemma ItemTextReadsBack(o: Order)
    requires Writable(o)
    ensures ',' !in ItemText(o) && Trim(ItemText(o)) == ItemText(o)
    ensures CodeSection(ItemText(o)) == o.code
    ensures Quantity(ColorSection(ItemText(o))) == o.quantity
    ensures CleanColor(ColorSection(ItemText(o))) == o.color
  {
    var digits := NatToString(o.quantity);
    ItemTextPieces(o);
    QuantitySuffixRoundTrip(o.color, digits);
    DigitsRoundTrip(o.quantity);
    TrimmedUnchanged(o.color);
  }

  /** The color section of a written order: the color and its quantity suffix. */
  function ColorText(o: Order): string {
    o.color + "*" + NatToString(o.quantity)
  }

  /** A written order holds no comma, its color section no bar, and neither has whitespace at
      its ends. */
  lemma ItemTextShape(o: Order)
    requires Writable(o)
    ensures ItemText(o) == o.code + "|" + ColorText(o)
    ensures ',' !in ItemText(o) && '|' !in ColorText(o)
    ensures IsTrimmed(ItemText(o)) && IsTrimmed(ColorText(o))
  {
    var digits := NatToString(o.quantity);
    DigitsHaveNoSeparator(digits);
    var s := ItemText(o);
    var color := ColorText(o);
    assert s == o.code + "|" + color;
    assert forall i :: 0 <= i < |color| ==> color[i] != '|';
    assert forall i :: 0 <= i < |s| ==> s[i] != ',';
  }

  /** The pieces of a written order are its code and its color section. */
  lemma ItemTextPieces(o: Order)
    requires Writable(o)
    ensures ',' !in ItemText(o) && Trim(ItemText(o)) == ItemText(o)
    ensures Pieces(ItemText(o)) == [o.code, ColorText(o)]
  {
    ItemTextShape(o);
    TrimmedUnchanged(ItemText(o));
    PiecesOfPair(o.code, ColorText(o));
  }

  /** Two trimmed bar-free texts joined by a bar are read back as those two pieces. */
  lemma PiecesOfPair(a: string, b: string)
    requires '|' !in a && '|' !in b && IsTrimmed(a) && IsTrimmed(b)
    ensures Pieces(a + "|" + b) == [a, b]
  {
    TrimmedUnchanged(a);
    TrimmedUnchanged(b);
    assert Join([a, b], '|') == a + "|" + b;
    SplitJoin([a, b], '|');
  }

  lemma DigitsHaveNoSeparator(digits: string)
    requires AllDigits(digits)
    ensures ',' !in digits && '|' !in digits && '*' !in digits
  {
    assert forall i :: 0 <= i < |digits| ==> IsDigit(digits[i]);
  }

  /** A trimmed string is left as it is. */
  lemma TrimmedUnchanged(s: string)
    requires IsTrimmed(s)
    ensures Trim(s) == s
  {
    assert [] + s + [] == s;
    TrimCharacterized([], s, []);
  }

  /** The segments of comma-joined texts without commas are those texts, trimmed. */
  lemma SegmentsOfJoin(texts: seq<string>)
    requires |texts| >= 1 && forall i :: 0 <= i < |texts| ==> ',' !in texts[i]
    ensures Segments(Join(texts, ',')) == seq(|texts|, i requires 0 <= i < |texts| => Trim(texts[i]))
  {
    SplitJoin(texts, ',');
  }

  /** The segments of a written product string are the written orders, one each, in order. */
  lemma ProductTextSegments(orders: seq<Order>)
    requires |orders| >= 1 && forall i :: 0 <= i < |orders| ==> Writable(orders[i])
    ensures |Segments(ProductText(orders))| == |orders|
    ensures forall i :: 0 <= i < |orders| ==> Segments(ProductText(orders))[i] == ItemText(orders[i])
  {
    var texts := seq(|orders|, i requires 0 <= i < |orders| => ItemText(orders[i]));
    forall i | 0 <= i < |orders| ensures ',' !in texts[i] && Trim(texts[i]) == texts[i] {
      ItemTextReadsBack(orders[i]);
    }
    SegmentsOfJoin(texts);
  }
}
