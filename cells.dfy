/**
 * Cell values as the spreadsheet reader materialises them (text, numbers, or
 * nothing at all), with JavaScript's truthiness and `toString` on them.
 */
module Cells {
  import opened Strings

  /** `Blank` stands for an `undefined` (or `null`) cell. */
  datatype Cell = Text(text: string) | Number(value: int) | Blank

  /** `Boolean(cell)`: the empty string, the number 0 and a blank cell are falsy. */
  predicate Truthy(c: Cell) {
    match c
    case Text(s) => s != ""
    case Number(n) => n != 0
    case Blank => false
  }

  /** `row.filter(Boolean).length`. */
  function CountTruthy(row: seq<Cell>): (n: nat)
    ensures n <= |row|
    ensures n == 0 <==> forall i :: 0 <= i < |row| ==> !Truthy(row[i])
    ensures |row| == 1 ==> (n == 1 <==> Truthy(row[0]))
  {
    if row == [] then 0
    else
      var rest := CountTruthy(row[1..]);
      assert forall i :: 1 <= i < |row| ==> row[i] == row[1..][i - 1];
      (if Truthy(row[0]) then 1 else 0) + rest
  }

  /** Counting is additive: the truthy cells of a concatenation are those of each part. */
  lemma {:induction false} CountTruthyAppend(a: seq<Cell>, b: seq<Cell>)
    ensures CountTruthy(a + b) == CountTruthy(a) + CountTruthy(b)
  {
    if a == [] {
      assert a + b == b;
    } else {
      assert (a + b)[0] == a[0];
      assert (a + b)[1..] == a[1..] + b;
      CountTruthyAppend(a[1..], b);
    }
  }

  /** `cell?.toString() || ""`: the text of a cell, "" for a blank one. */
  function CellText(c: Cell): (s: string)
    ensures c.Text? ==> s == c.text
    ensures c.Number? ==> s != ""
    ensures c.Blank? ==> s == ""
  {
    match c
    case Text(t) => t
    case Number(n) => IntToString(n)
    case Blank => ""
  }

  /** A cell with no text is falsy; the converse fails only for the number 0, whose text is "0". */
  lemma TextlessIsFalsy(c: Cell)
    ensures CellText(c) == "" ==> !Truthy(c)
    ensures !Truthy(c) && CellText(c) != "" <==> c == Number(0)
  {
  }
}
