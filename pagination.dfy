/**
 * Fixed-capacity pages: `ceil(n / k)` pages, page `p` being the slice of the
 * items from `p * k` up to `(p + 1) * k` (clamped to the end).
 */
module Pagination {

  /** `Math.ceil(n / k)` for a positive capacity: the least `c` with `c * k >= n`, counted one
      page at a time. */
  function PageCount(n: nat, k: nat): (c: nat)
    requires k > 0
    ensures c * k >= n
    ensures c > 0 ==> (c - 1) * k < n
    ensures n == 0 <==> c == 0
    decreases n
  {
    if n == 0 then 0
    else
      var c' := PageCount(if n <= k then 0 else n - k, k);
      Distrib(c', k);
      1 + c'
  }

  /** `(a + 1) * k == a * k + k`. */
  lemma Distrib(a: int, k: int)
    ensures (a + 1) * k == a * k + k
  {
  }

  /** `items.slice(from, to)`: bounds past the end are clamped to the end. */
  function Slice<T>(items: seq<T>, from: nat, to: nat): (r: seq<T>)
    ensures from <= to <= |items| ==> r == items[from..to]
    ensures from <= |items| < to ==> r == items[from..]
  {
    var a := if from <= |items| then from else |items|;
    var b := if to <= |items| then to else |items|;
    if a <= b then items[a..b] else []
  }

  /** The pages of `items` with `k` per page; an empty list has no pages at all, not one empty
      page. */
  function Paginate<T>(items: seq<T>, k: nat): (pages: seq<seq<T>>)
    requires k > 0
    ensures |pages| == PageCount(|items|, k)
    ensures pages == [] <==> items == []
  {
    seq(PageCount(|items|, k), p requires 0 <= p => Page(items, k, p))
  }

  /** Page `p`: `items.slice(p * k, (p + 1) * k)`. */
  function Page<T>(items: seq<T>, k: nat, p: nat): seq<T> {
    Slice(items, p * k, (p + 1) * k)
  }

  /** The concatenation of the pages. */
  function Flatten<T>(pages: seq<seq<T>>): seq<T> {
    if pages == [] then [] else pages[0] + Flatten(pages[1..])
  }

  /** Page `p` starts at item `p * k`, every page but the last is full, and the last holds
      between 1 and `k` items. */
  lemma PageSizes<T>(items: seq<T>, k: nat, p: nat)
    requires k > 0 && p < PageCount(|items|, k)
    ensures p * k < |items|
    ensures p < PageCount(|items|, k) - 1 ==> (p + 1) * k <= |items|
    ensures p < PageCount(|items|, k) - 1 ==> Paginate(items, k)[p] == items[p * k..(p + 1) * k]
    ensures p == PageCount(|items|, k) - 1 ==> |items| <= (p + 1) * k
    ensures p == PageCount(|items|, k) - 1 ==> Paginate(items, k)[p] == items[p * k..]
  {
    var c := PageCount(|items|, k);
    MulMonotone(p, c - 1, k);
    Distrib(p, k);
    Distrib(c - 1, k);
    if p < c - 1 {
      MulMonotone(p + 1, c - 1, k);
    }
  }

  lemma {:induction false} MulMonotone(a: nat, b: nat, k: nat)
    requires a <= b
    ensures a * k <= b * k
    decreases b - a
  {
    if a < b {
      MulMonotone(a + 1, b, k);
      Distrib(a, k);
    }
  }

  /** Every page holds between 1 and `k` items, and every page but the last holds exactly `k`. */
  lemma PagesFull<T>(items: seq<T>, k: nat)
    requires k > 0
    ensures forall p :: 0 <= p < |Paginate(items, k)| ==> 1 <= |Paginate(items, k)[p]| <= k
    ensures forall p :: 0 <= p < |Paginate(items, k)| - 1 ==> |Paginate(items, k)[p]| == k
  {
    forall p | 0 <= p < |Paginate(items, k)| ensures 1 <= |Paginate(items, k)[p]| <= k {
      PageSizes(items, k, p);
      Distrib(p, k);
    }
    forall p | 0 <= p < |Paginate(items, k)| - 1 ensures |Paginate(items, k)[p]| == k {
      PageSizes(items, k, p);
      Distrib(p, k);
    }
  }

  /** Item `j` of page `p` is item `p * k + j` of the input. */
  lemma PageItem<T>(items: seq<T>, k: nat, p: nat, j: nat)
    requires k > 0 && p < PageCount(|items|, k) && j < |Paginate(items, k)[p]|
    ensures j < k && p * k + j < |items|
    ensures Paginate(items, k)[p][j] == items[p * k + j]
  {
    PageSizes(items, k, p);
  }

  /** Item `j` of page `p` is item `p * k + j` of the input, for every page and item. */
  lemma PagesItems<T>(items: seq<T>, k: nat)
    requires k > 0
    ensures forall p, j :: 0 <= p < |Paginate(items, k)| && 0 <= j < |Paginate(items, k)[p]| ==>
      p * k + j < |items| && Paginate(items, k)[p][j] == items[p * k + j]
  {
    var pages := Paginate(items, k);
    forall p, j | 0 <= p < |pages| && 0 <= j < |pages[p]|
      ensures p * k + j < |items| && pages[p][j] == items[p * k + j]
    {
      PageItem(items, k, p, j);
    }
  }

  /** Past the first page, the pages are the pages of what comes after the first `k` items. */
  lemma PaginateUnfold<T>(items: seq<T>, k: nat)
    requires k > 0 && |items| > 0
    ensures |items| <= k ==> Paginate(items, k) == [items]
    ensures |items| > k ==> Paginate(items, k) == [items[..k]] + Paginate(items[k..], k)
  {
    var pages := Paginate(items, k);
    if |items| > k {
      var rest := Paginate(items[k..], k);
      assert |pages| == |rest| + 1;
      assert pages[0] == items[..k];
      forall p | 0 < p < |pages| ensures pages[p] == rest[p - 1] {
        PageShift(items, k, p);
      }
      assert pages == [items[..k]] + rest;
    } else {
      assert PageCount(|items|, k) == 1;
      assert pages[0] == Slice(items, 0, k) == items;
      assert pages == [items];
    }
  }

  /** Page `p` of the items is page `p - 1` of what follows the first page. */
  lemma PageShift<T>(items: seq<T>, k: nat, p: nat)
    requires k <= |items| && 0 < p
    ensures Page(items, k, p) == Page(items[k..], k, p - 1)
  {
    var q := p - 1;
    Distrib(q, k);
    Distrib(p, k);
    SliceShift(items, k, q * k, p * k);
  }

  /** Slicing after dropping the first `k` items is slicing further along. */
  lemma SliceShift<T>(items: seq<T>, k: nat, from: nat, to: nat)
    requires k <= |items|
    ensures Slice(items[k..], from, to) == Slice(items, from + k, to + k)
  {
  }

  /** No item is lost, duplicated or reordered: the pages concatenate back to the input. */
  lemma {:induction false} FlattenPaginate<T>(items: seq<T>, k: nat)
    requires k > 0
    ensures Flatten(Paginate(items, k)) == items
    decreases |items|
  {
    if items == [] {
      assert Paginate(items, k) == [];
    } else {
      PaginateUnfold(items, k);
      if |items| <= k {
        assert Flatten([items]) == items + Flatten([items][1..]);
        assert [items][1..] == [];
      } else {
        FlattenPaginate(items[k..], k);
        var pages := [items[..k]] + Paginate(items[k..], k);
        assert pages[1..] == Paginate(items[k..], k);
        assert items[..k] + items[k..] == items;
      }
    }
  }

  /** With one item per page, page `i` is exactly `[items[i]]`. */
  lemma OnePerPage<T>(items: seq<T>)
    ensures Paginate(items, 1) == seq(|items|, i requires 0 <= i < |items| => [items[i]])
  {
    forall i | 0 <= i < |items| ensures Paginate(items, 1)[i] == [items[i]] {
      PageSizes(items, 1, i);
    }
  }

  /** `items.map(f)`. */
  function Map<T, U>(f: T -> U, items: seq<T>): (r: seq<U>)
    ensures |r| == |items| && forall i :: 0 <= i < |items| ==> r[i] == f(items[i])
  {
    seq(|items|, i requires 0 <= i < |items| => f(items[i]))
  }

  /** Each page mapped. */
  function MapPages<T, U>(f: T -> U, pages: seq<seq<T>>): (r: seq<seq<U>>)
    ensures |r| == |pages| && forall p :: 0 <= p < |pages| ==> r[p] == Map(f, pages[p])
  {
    seq(|pages|, p requires 0 <= p < |pages| => Map(f, pages[p]))
  }

  /** Mapping page by page and concatenating is mapping the concatenation. */
  lemma {:induction false} FlattenMapPages<T, U>(f: T -> U, pages: seq<seq<T>>)
    ensures Flatten(MapPages(f, pages)) == Map(f, Flatten(pages))
  {
    if pages != [] {
      FlattenMapPages(f, pages[1..]);
      assert MapPages(f, pages)[1..] == MapPages(f, pages[1..]);
      var a := pages[0];
      var b := Flatten(pages[1..]);
      assert Map(f, a + b) == Map(f, a) + Map(f, b);
    }
  }

  /** Mapping each item to a page of its own is paginating one to a page and mapping: the pages
      concatenate to the mapped items. */
  lemma OnePerPageMap<T, U>(page: T -> seq<U>, f: T -> U, items: seq<T>)
    requires forall x :: page(x) == [f(x)]
    ensures Map(page, items) == MapPages(f, Paginate(items, 1))
    ensures Flatten(Map(page, items)) == Map(f, items)
  {
    OnePerPage(items);
    var pages := Paginate(items, 1);
    assert forall i :: 0 <= i < |pages| ==> pages[i] == [items[i]];
    forall i | 0 <= i < |items| ensures Map(page, items)[i] == MapPages(f, pages)[i] {
      assert Map(f, pages[i]) == [f(items[i])];
    }
    FlattenPaginate(items, 1);
    FlattenMapPages(f, pages);
  }
}
