/** Client-side pagination shared by every list screen: the page count
    `Math.ceil(n / size)`, the page contents `list.slice((p - 1) * size, p * size)`, and
    the three pager widgets (the five-number `Paginacion` component, the four-number
    sliding window of the search results, and the fixed "first four pages" strip of the
    older screens).
 */
module Paging {

  function Min(a: int, b: int): int { if a <= b then a else b }
  function Max(a: int, b: int): int { if a >= b then a else b }

  /** `Math.ceil(n / size)`: the fewest pages of `size` items that hold `n` items. */
  function CeilDiv(n: nat, size: nat): (r: nat)
    requires size > 0
    ensures r * size >= n
    ensures r == 0 || r * size - size < n
    ensures r == 0 <==> n == 0
  {
    var q := (n + size - 1) / size;
    assert q * size <= n + size - 1 < q * size + size;
    q
  }

  // ---------------------------------------------------------------------------
  // Array.prototype.slice

  /** How `slice` reads one of its bounds: a negative bound counts from the end, and
      either kind is clamped to the length. */
  function SliceBound(x: int, n: nat): (r: nat)
    ensures r <= n
    ensures 0 <= x ==> r == Min(x, n)
  {
    if x < 0 then Max(n + x, 0) else Min(x, n)
  }

  /** `s.slice(start, end)` with JavaScript's reading of negative bounds. */
  function JsSlice<T>(s: seq<T>, start: int, end: int): (r: seq<T>)
    ensures start <= end ==> |r| <= end - start
    ensures 0 <= start <= end ==> r == s[Min(start, |s|)..Min(end, |s|)]
  {
    var a := SliceBound(start, |s|);
    var b := SliceBound(end, |s|);
    if a < b then s[a..b] else []
  }

  /** The items shown on page `page` (counted from 1) of `s`, `size` at a time. */
  function PageSlice<T>(s: seq<T>, page: int, size: nat): (r: seq<T>)
    requires size > 0
    ensures |r| <= size
    ensures page >= 1 ==> r == s[Min((page - 1) * size, |s|)..Min(page * size, |s|)]
    ensures page == 0 ==> r == []
    ensures page >= 1 ==> (|r| > 0 <==> page <= CeilDiv(|s|, size))
  {
    if page >= 1 then
      PageSliceFrom1(s, page, size);
      JsSlice(s, (page - 1) * size, page * size)
    else
      PageSliceUpTo0(s, page, size);
      JsSlice(s, (page - 1) * size, page * size)
  }

  lemma PageSliceFrom1<T>(s: seq<T>, page: int, size: nat)
    requires size > 0 && page >= 1
    ensures var r := JsSlice(s, (page - 1) * size, page * size);
      && |r| <= size
      && r == s[Min((page - 1) * size, |s|)..Min(page * size, |s|)]
      && (|r| > 0 <==> page <= CeilDiv(|s|, size))
  {
    var a := (page - 1) * size;
    var b := page * size;
    PageBounds(page, size);
    PageArith(|s|, page, size);
    assert 0 <= a && b == a + size;
  }

  lemma PageSliceUpTo0<T>(s: seq<T>, page: int, size: nat)
    requires size > 0 && page <= 0
    ensures var r := JsSlice(s, (page - 1) * size, page * size);
      |r| <= size && (page == 0 ==> r == [])
  {
    var a := (page - 1) * size;
    var b := page * size;
    PageBounds(page, size);
    assert b <= 0 && b == a + size;
    if page == 0 {
      assert b == 0;
    }
  }

  /** The two ends of page `page` lie `size` apart, the first page starts at 0 and no
      page before the first ends after 0. */
  lemma PageBounds(page: int, size: nat)
    ensures (page - 1) * size + size == page * size
    ensures page >= 1 ==> (page - 1) * size >= 0
    ensures page <= 0 ==> page * size <= 0
  {
  }

  lemma PageArith(n: nat, page: int, size: nat)
    requires size > 0 && page >= 1
    ensures (page - 1) * size + size == page * size
    ensures (page - 1) * size < n <==> page <= CeilDiv(n, size)
  {
    var t := CeilDiv(n, size);
    if page <= t {
      assert (page - 1) * size <= (t - 1) * size;
    } else {
      assert (page - 1) * size >= t * size;
    }
  }

  /** Every item appears on exactly one page: item `i` is entry `i % size` of page
      `i / size + 1`, and that page is one of the `ceil(n / size)` pages. */
  lemma PageCoverage<T>(s: seq<T>, size: nat, i: nat)
    requires size > 0 && i < |s|
    ensures 1 <= i / size + 1 <= CeilDiv(|s|, size)
    ensures i % size < |PageSlice(s, i / size + 1, size)|
    ensures PageSlice(s, i / size + 1, size)[i % size] == s[i]
  {
    DivMod(i, size);
    PageEntry(s, size, i / size, i % size);
  }

  lemma DivMod(i: nat, size: nat)
    requires size > 0
    ensures i == (i / size) * size + i % size && 0 <= i % size < size && i / size >= 0
  {
  }

  /** Entry `m` of page `q + 1` is item `q * size + m`. */
  lemma PageEntry<T>(s: seq<T>, size: nat, q: nat, m: nat)
    requires size > 0 && m < size && q * size + m < |s|
    ensures 1 <= q + 1 <= CeilDiv(|s|, size)
    ensures m < |PageSlice(s, q + 1, size)|
    ensures PageSlice(s, q + 1, size)[m] == s[q * size + m]
  {
    PageArith(|s|, q + 1, size);
    assert (q + 1 - 1) * size == q * size;
  }

  /** Pages past the last one are empty, as is a list whose page count is zero. */
  lemma PageBeyondLast<T>(s: seq<T>, page: int, size: nat)
    requires size > 0 && page > CeilDiv(|s|, size)
    ensures PageSlice(s, page, size) == []
  {
  }

  // ---------------------------------------------------------------------------
  // Pager widgets

  /** The numbers `a, a + 1, ..., b` (nothing when `b < a`). */
  function Range(a: int, b: int): (r: seq<int>)
    ensures |r| == Max(b - a + 1, 0)
    ensures forall i :: 0 <= i < |r| ==> r[i] == a + i
  {
    seq(Max(b - a + 1, 0), i requires 0 <= i => a + i)
  }

  /** The page buttons of the shared `Paginacion` component: up to five numbers
      starting two before the current page, pushed back to end at the last page. */
  function Window5(page: int, total: int): (r: seq<int>)
    ensures |r| == Min(5, Max(total, 0))
    ensures forall i :: 0 <= i < |r| ==> r[i] == r[0] + i && 1 <= r[i] <= total
    ensures 1 <= page <= total ==> page in r
    ensures 3 <= page && page + 2 <= total ==> r[2] == page
    ensures 1 <= page <= 3 && 1 <= total ==> r[0] == 1
    ensures total >= 5 && page + 2 > total ==> r[4] == total
  {
    var inicio := Max(page - 2, 1);
    var fin := inicio + 4;
    if fin > total then
      var r := Range(Max(total - 4, 1), total);
      assert 1 <= page <= total ==> r[page - r[0]] == page;
      r
    else
      var r := Range(inicio, fin);
      assert 1 <= page <= total ==> r[page - inicio] == page;
      r
  }

  /** One arrow or jump button: the page it moves to and whether it is disabled. */
  datatype Button = Button(target: int, disabled: bool)

  /** Everything the `Paginacion` component draws: `<<`, `<`, the numbers, `>`, `>>`. */
  datatype Pager = Pager(first: Button, prev: Button, numbers: seq<int>, next: Button, last: Button)

  /** `<<` leads to page 1 and `<` to the page before, both disabled on page 1; `>`
      leads to the page after and `>>` to the last, both disabled on the last page;
      between them the five-page window. */
  function PaginacionControls(page: int, total: int): (p: Pager)
    ensures p.first == Button(1, page == 1) && p.prev == Button(page - 1, page == 1)
    ensures p.next == Button(page + 1, page == total) && p.last == Button(total, page == total)
    ensures p.numbers == Window5(page, total)
    ensures page in p.numbers <==> 1 <= page <= total
  {
    Pager(
      Button(1, page == 1),
      Button(page - 1, page == 1),
      Window5(page, total),
      Button(page + 1, page == total),
      Button(total, page == total))
  }

  /** The set of moves the pager offers from a page. */
  function Moves(p: Pager): seq<Button> {
    [p.first, p.prev, p.next, p.last] + seq(|p.numbers|, i requires 0 <= i < |p.numbers| => Button(p.numbers[i], false))
  }

  /** From any page of a non-empty list, every button the pager leaves enabled lands on
      a page of the list, so a user who only clicks stays within pages 1..total. */
  lemma PaginacionStaysInRange(page: int, total: int)
    requires 1 <= page <= total
    ensures forall b :: b in Moves(PaginacionControls(page, total)) && !b.disabled ==>
      1 <= b.target <= total
  {
    var ctl := PaginacionControls(page, total);
    forall b | b in Moves(ctl) && !b.disabled ensures 1 <= b.target <= total {
      var i :| 0 <= i < |Moves(ctl)| && Moves(ctl)[i] == b;
      if i >= 4 {
        assert b.target == ctl.numbers[i - 4];
      }
    }
  }

  /** On an empty list the page count is zero: no number is drawn, and on any page but
      0 the `>>` and `>` buttons stay enabled, `>>` leading to page 0; `<` is disabled
      only on page 1, so from page 0 it leads to page -1. */
  lemma PaginacionEmptyList(page: int)
    ensures var c := PaginacionControls(page, 0);
      && c.numbers == []
      && c.last == Button(0, page == 0) && c.next == Button(page + 1, page == 0)
      && c.first == Button(1, page == 1) && c.prev == Button(page - 1, page == 1)
  {
  }

  /** The sliding window of the search results and of the older provider screen: up to
      four numbers starting one before the current page, pulled back at the end. */
  function Window4(page: int, total: int): (r: seq<int>)
    ensures |r| == Min(4, Max(total, 0))
    ensures forall i :: 0 <= i < |r| ==> r[i] == r[0] + i && 1 <= r[i] <= total
    ensures 1 <= page <= total ==> page in r
    ensures 2 <= page && page + 2 <= total ==> r[1] == page
  {
    var start := Max(1, page - 1);
    var end := Min(total, start + 3);
    var start' := if end - start < 3 then Max(1, end - 3) else start;
    var r := Range(start', end);
    assert 1 <= page <= total ==> r[page - start'] == page;
    r
  }

  /** The arrows of those screens clamp instead of trusting the disabled flag:
      `Math.max(1, p - 1)` and `Math.min(total, p + 1)`. */
  function ClampedArrows(page: int, total: int): (r: (Button, Button))
    ensures 1 <= page <= total ==> 1 <= r.0.target <= total && 1 <= r.1.target <= total
    ensures r.0.disabled <==> page == 1
    ensures r.1.disabled <==> page == total
    ensures 1 < page <= total ==> r.0.target == page - 1
    ensures 1 <= page < total ==> r.1.target == page + 1
  {
    (Button(Max(1, page - 1), page == 1), Button(Min(total, page + 1), page == total))
  }

  /** The page strip of the older screens: buttons 1 .. min(4, total), whatever the
      current page. */
  function LeadingPages(total: int): (r: seq<int>)
    ensures |r| == Min(4, Max(total, 0))
    ensures forall i :: 0 <= i < |r| ==> r[i] == i + 1
  {
    Range(1, Min(4, total))
  }

  /** The older screens' arrows move by one without clamping; they are disabled only
      at page 1 and at exactly the last page. */
  function PlainArrows(page: int, total: int): (r: (Button, Button))
    ensures r.0.target == page - 1 && r.1.target == page + 1
    ensures r.0.disabled <==> page == 1
    ensures r.1.disabled <==> page == total
  {
    (Button(page - 1, page == 1), Button(page + 1, page == total))
  }

  /** A page beyond four is reachable only through the arrows: no number button
      names it. */
  lemma LeadingPagesHideLater(total: int, page: int)
    requires page > 4
    ensures page !in LeadingPages(total)
  {
  }
}
