/** The home page (`components/home/Inicio.tsx`): the search that navigates to the
    results page, the product cards' image address and their title-cased labels.
 */
module Home {
  import opened Results
  import opened Text
  import opened Words
  import Autocomplete

  /** `handleSearch`: a query that is blank once trimmed goes nowhere; any other query
      navigates with its trimmed text. */
  function HandleSearch(query: string): (r: Option<string>)
    ensures r.None? <==> AllSpace(query)
    ensures r.Some? ==> r.value != "" && Trim(r.value) == r.value
    ensures r.Some? ==> exists i :: TrimmedAt(query, r.value, i)
  {
    TrimEmptyIff(query);
    TrimIdempotent(query);
    TrimShape(query);
    if Trim(query) != "" then Some(Trim(query)) else None
  }

  /** Searching again for the query that was navigated to navigates to the same query. */
  lemma SearchAgain(query: string)
    requires HandleSearch(query).Some?
    ensures HandleSearch(HandleSearch(query).value) == HandleSearch(query)
  {
    TrimIdempotent(query);
  }

  /** The search form around the box (`Inicio.tsx`:80-95). Its `onSubmit` runs
      `handleSearch` on the query the form was last rendered with. The suggestions are
      `<button>`s without a `type`, hence submit buttons of this form, and they come
      before the form's own search button; so while the list is open the first
      suggestion is the form's default button, the one the browser clicks when Enter
      in the box is not prevented. */
  datatype FormButton = SearchButton | SuggestionButton(index: nat)

  function DefaultButton(b: Autocomplete.Box): (r: FormButton)
    ensures r.SuggestionButton? <==> b.open
    ensures r.SuggestionButton? ==> r.index == 0 && Autocomplete.Suggestions[r.index] == "Marca"
  {
    if b.open then SuggestionButton(0) else SearchButton
  }

  /** What a user does on the search form. A mouse click starts with a mousedown, which
      the box's document listener (`AutocompleteSearch.tsx`:16-27) turns into "close the
      list" unless it lands on the input; a suggestion can also be pressed from the
      keyboard once it has the focus, with no mousedown. */
  datatype Action =
    | TypeText(value: string)
    | ClickBox
    | PressKey(key: Autocomplete.Key)
    | ClickSuggestion(index: nat)
    | ActivateSuggestion(index: nat)
    | ClickSearchButton
    | ClickElsewhere

  /** The box after an action and the trimmed query the page navigated with, if any. */
  datatype PageOutcome = PageOutcome(box: Autocomplete.Box, navigated: Option<string>)

  /** A suggestion button clicked without a mousedown: its own handler and its wrapper's
      both pick it, and then its default action submits the form. When React has
      already rendered the pick (`rerenderedFirst`), the list and the button are gone
      and a removed button belongs to no form, so nothing is submitted; otherwise the
      form submits the query it was rendered with, the one from before the pick. */
  function PressSuggestion(b: Autocomplete.Box, i: nat, rerenderedFirst: bool): (r: PageOutcome)
    requires Autocomplete.Valid(b) && i < |Autocomplete.Suggestions|
    ensures r.box == Autocomplete.Pick(b, Autocomplete.Suggestions[i])
    ensures r.navigated == if rerenderedFirst then None else HandleSearch(b.query)
  {
    PageOutcome(Autocomplete.Pick(b, Autocomplete.Suggestions[i]),
                if rerenderedFirst then None else HandleSearch(b.query))
  }

  /** One action on the home page's search form. `rerenderedFirst` stands for React's
      render schedule: whether a state change made by a click handler is on screen
      before that click's default action runs. Navigating away, which unmounts the
      form, is not modelled: the box is returned as the component last held it. */
  function PageStep(b: Autocomplete.Box, a: Action, rerenderedFirst: bool): (r: PageOutcome)
    requires Autocomplete.Valid(b)
    ensures Autocomplete.Valid(r.box)
    ensures r.navigated.Some? ==> r.navigated == HandleSearch(b.query)
    ensures a == PressKey(Autocomplete.Enter) && b.open && b.highlight == -1 ==>
      r == PressSuggestion(b, 0, rerenderedFirst)
    ensures a.PressKey? && !(a.key == Autocomplete.Enter && b.open && b.highlight == -1) ==>
      r.box == Autocomplete.KeyDown(b, a.key).box
    ensures a == PressKey(Autocomplete.Enter) && !b.open ==> r == PageOutcome(b, HandleSearch(b.query))
    ensures a.ClickSuggestion? ==> r == PageOutcome(b.(open := false), None)
    ensures a.ClickSearchButton? ==> r == PageOutcome(b.(open := false), HandleSearch(b.query))
    ensures r.navigated.Some? ==>
      || (a == PressKey(Autocomplete.Enter) && (!b.open || (b.highlight == -1 && !rerenderedFirst)))
      || a.ClickSearchButton?
      || (a.ActivateSuggestion? && b.open && !rerenderedFirst)
  {
    match a
    case TypeText(v) => PageOutcome(Autocomplete.Step(b, Autocomplete.Typed(v)).box, None)
    case ClickBox => PageOutcome(Autocomplete.Step(b, Autocomplete.ClickedInput).box, None)
    case ClickElsewhere => PageOutcome(Autocomplete.Step(b, Autocomplete.ClickedOutside).box, None)
    // The mousedown closes the list, and the list is off the screen before the mouse
    // comes up, so the suggestion's handlers never see the click.
    case ClickSuggestion(_) => PageOutcome(b.(open := false), None)
    // The mousedown closes the list; the click submits the form.
    case ClickSearchButton => PageOutcome(b.(open := false), HandleSearch(b.query))
    case ActivateSuggestion(i) =>
      if b.open && i < |Autocomplete.Suggestions| then PressSuggestion(b, i, rerenderedFirst)
      else PageOutcome(b, None)
    case PressKey(k) =>
      if k == Autocomplete.Enter && b.open && b.highlight == -1 then
        PressSuggestion(b, DefaultButton(b).index, rerenderedFirst)
      else
        // Enter with the list closed calls `onSearch`, and its implicit submission
        // through the search button searches for the same query again.
        var o := Autocomplete.KeyDown(b, k);
        PageOutcome(o.box, if o.searched.Some? then HandleSearch(o.searched.value) else None)
  }

  /** Pressing Enter in the search box with its suggestion list closed searches for the
      box's text; the box's own `onSearch` call and the form's submission agree. */
  lemma EnterSearches(b: Autocomplete.Box, rerenderedFirst: bool)
    requires Autocomplete.Valid(b) && !b.open
    ensures var o := Autocomplete.KeyDown(b, Autocomplete.Enter);
      o.searched == Some(b.query) && PageStep(b, PressKey(Autocomplete.Enter), rerenderedFirst).navigated == HandleSearch(o.searched.value)
  {
  }

  /** Enter with the list open and nothing highlighted is left to the form, which picks
      the first suggestion although the box's handler does nothing; and the page never
      searches for a suggestion it has just picked, only for the text typed before. */
  lemma EnterWithNoHighlight(b: Autocomplete.Box, rerenderedFirst: bool)
    requires Autocomplete.Valid(b) && b.open && b.highlight == -1
    ensures Autocomplete.KeyDown(b, Autocomplete.Enter) == Autocomplete.Outcome(b, None)
    ensures var r := PageStep(b, PressKey(Autocomplete.Enter), rerenderedFirst);
      && r.box.query == "in: Marca " && !r.box.open && r.box.highlight == -1
      && (r.navigated.Some? <==> !rerenderedFirst && !AllSpace(b.query))
      && (r.navigated.Some? ==> r.navigated.value == Trim(b.query))
  {
  }

  /** Every query the page navigates with, over any run of actions, is non-empty and
      already trimmed, and the highlight stays valid throughout. */
  function PageRun(b: Autocomplete.Box, acts: seq<Action>, rerenderedFirst: bool): (r: (Autocomplete.Box, seq<string>))
    requires Autocomplete.Valid(b)
    ensures Autocomplete.Valid(r.0)
    ensures |r.1| <= |acts|
    ensures forall k :: 0 <= k < |r.1| ==> r.1[k] != "" && Trim(r.1[k]) == r.1[k]
    decreases |acts|
  {
    if acts == [] then (b, [])
    else
      var o := PageStep(b, acts[0], rerenderedFirst);
      var rest := PageRun(o.box, acts[1..], rerenderedFirst);
      (rest.0, (if o.navigated.Some? then [o.navigated.value] else []) + rest.1)
  }

  const StaticPrefix := "http://localhost:8080/static/"

  predicate StartsWith(s: string, prefix: string) {
    prefix <= s
  }

  /** The card image: a path starting with "http" is used as it is, any other path is
      served from the backend's static folder. */
  function ImageSrc(path: string): (r: string)
    ensures StartsWith(path, "http") ==> r == path
    ensures !StartsWith(path, "http") ==> r == StaticPrefix + path && |r| > |path|
    ensures StartsWith(r, "http")
  {
    if StartsWith(path, "http") then path
    else
      assert (StaticPrefix + path)[..4] == StaticPrefix[..4];
      StaticPrefix + path
  }

  /** The address of an address is the address itself. */
  lemma ImageSrcIdempotent(path: string)
    ensures ImageSrc(ImageSrc(path)) == ImageSrc(path)
  {
  }

  /** A random product as the card shows it. */
  datatype Product = Product(uuid: string, genericName: string, image: string, brandName: string)

  datatype Card = Card(image: string, title: string, brand: string, target: string)

  /** The card: its image address, the generic name and brand name passed through
      `capitalize`, and the detail page its button opens. */
  function CardOf(p: Product): (c: Card)
    ensures c.image == ImageSrc(p.image) && c.target == "/detalle/" + p.uuid
    ensures |c.title| == |p.genericName| && WordCount(c.title) == WordCount(p.genericName)
    ensures LowerStr(c.title) == LowerRecapped(p.genericName) && LowerStr(c.brand) == LowerRecapped(p.brandName)
    ensures c.title == TitleCase(p.genericName) && c.brand == TitleCase(p.brandName)
  {
    TitleCaseSpec(p.genericName);
    TitleCaseWords(p.genericName);
    TitleCaseLower(p.genericName);
    TitleCaseLower(p.brandName);
    Card(ImageSrc(p.image), TitleCase(p.genericName), TitleCase(p.brandName), "/detalle/" + p.uuid)
  }
}
