/** The search results page (`components/resultado-busqueda/Resultados-Busqueda.tsx`) and
    its product card (`components/resultado-busqueda/ProductCard.tsx`): descriptions cut
    to ten words, ten products a page, a strip of up to four page buttons and arrows
    that clamp.
 */
module SearchResults {
  import opened Text
  import opened Words
  import opened Paging

  const PageSize: nat := 10
  const CardWordLimit: nat := 10

  /** The description a card shows: `truncateText(description, 10)`. */
  function CardDescription(description: string): (r: string)
    ensures WordCount(description) <= CardWordLimit ==> r == description
    ensures WordCount(description) > CardWordLimit ==>
      && |r| >= 3 && r[|r| - 3..] == "..."
      && r[..|r| - 3] <= description
      && WordCount(r[..|r| - 3]) == CardWordLimit
  {
    TruncateTextSpec(description, CardWordLimit);
    FirstWordsSpec(description, CardWordLimit);
    var r := TruncateText(description, CardWordLimit);
    assert WordCount(description) > CardWordLimit ==> r[..|r| - 3] == FirstWords(description, CardWordLimit);
    r
  }

  /** Cutting a card's description again changes nothing. */
  lemma CardDescriptionIdempotent(description: string)
    ensures CardDescription(CardDescription(description)) == CardDescription(description)
  {
    TruncateTextIdempotent(description, CardWordLimit);
  }

  /** A card's label text: the truncation keeps the words it keeps in order, as the
      leading words of the description. */
  lemma CardDescriptionWords(description: string)
    requires WordCount(description) > CardWordLimit
    ensures var r := CardDescription(description);
      Split(r[..|r| - 3], ' ') == Split(description, ' ')[..CardWordLimit]
  {
    var ws := Split(description, ' ');
    SplitNoSep(description, ' ');
    assert NoSep(ws[..CardWordLimit], ' ');
    SplitJoin(ws[..CardWordLimit], ' ');
  }

  /** The page strip's state: the results and the current page. */
  datatype Results<T> = Results(products: seq<T>, page: int)

  function TotalPages<T>(r: Results<T>): (n: nat)
    ensures n * PageSize >= |r.products| && (n == 0 <==> r.products == [])
    ensures n == 0 || (n - 1) * PageSize < |r.products|
  {
    CeilDiv(|r.products|, PageSize)
  }

  /** `currentProducts`. */
  function Visible<T>(r: Results<T>): (v: seq<T>)
    ensures |v| <= PageSize
    ensures r.page >= 1 ==> v == r.products[Min((r.page - 1) * PageSize, |r.products|)..Min(r.page * PageSize, |r.products|)]
    ensures r.page >= 1 ==> (v != [] <==> r.page <= TotalPages(r))
  {
    PageSlice(r.products, r.page, PageSize)
  }

  /** A click on the strip. */
  datatype Click = PrevArrow | NextArrow | Number(n: int)

  /** The buttons the strip draws: the two clamping arrows and the window of up to four
      numbers. */
  function Strip<T>(r: Results<T>): (s: (Button, seq<int>, Button))
    ensures s.1 == Window4(r.page, TotalPages(r))
  {
    var arrows := ClampedArrows(r.page, TotalPages(r));
    (arrows.0, Window4(r.page, TotalPages(r)), arrows.1)
  }

  /** A click the page can receive: the arrows always, a number only when it is drawn. */
  predicate Offered<T>(r: Results<T>, c: Click) {
    c.Number? ==> c.n in Strip(r).1
  }

  /** `paginate`, through whichever button was clicked. */
  function OnClick<T>(r: Results<T>, c: Click): (r': Results<T>)
    requires Offered(r, c)
    ensures r'.products == r.products
    ensures TotalPages(r) >= 1 && (1 <= r.page <= TotalPages(r) || c.Number?) ==> 1 <= r'.page <= TotalPages(r)
    ensures TotalPages(r) == 0 && r.page >= 0 && c == NextArrow ==> r'.page == 0
  {
    var s := Strip(r);
    match c
    case PrevArrow => r.(page := s.0.target)
    case NextArrow => r.(page := s.2.target)
    case Number(n) => r.(page := n)
  }

  /** Clicks in turn, stopping at one that is not on offer. */
  function Clicks<T>(r: Results<T>, cs: seq<Click>): (r': Results<T>)
    ensures r'.products == r.products
    ensures TotalPages(r) >= 1 && 1 <= r.page <= TotalPages(r) ==> 1 <= r'.page <= TotalPages(r)
    decreases |cs|
  {
    if |cs| == 0 || !Offered(r, cs[0]) then r else Clicks(OnClick(r, cs[0]), cs[1..])
  }

  /** From the first page, any clicks keep a non-empty result list on a page that shows
      products. */
  lemma ClicksKeepProductsShown<T>(products: seq<T>, cs: seq<Click>)
    requires products != []
    ensures Visible(Clicks(Results(products, 1), cs)) != []
  {
    var r := Results(products, 1);
    assert TotalPages(r) >= 1;
  }

  /** With no results the next arrow moves to page 0, where nothing shows. */
  lemma EmptyResultsNextArrow<T>(r: Results<T>)
    requires r.products == [] && r.page >= 0
    ensures var r' := OnClick(r, NextArrow); r'.page == 0 && Visible(r') == []
  {
  }
}
