/** The home page's search box (`components/home/AutocompleteSearch.tsx`): the query
    text, whether the four suggestions are open, and which one is highlighted; the keys
    move the highlight, Enter either picks the highlighted suggestion or runs the
    search.
 */
module Autocomplete {
  import opened Results

  const Suggestions: seq<string> := ["Marca", "Categoría", "Registro sanitario", "Proveedor"]

  /** The box: the query, whether the list is open, and the highlighted position (-1 for
      none). */
  datatype Box = Box(query: string, open: bool, highlight: int)

  function Initial(query: string): Box {
    Box(query, false, -1)
  }

  /** The highlight is "none" or one of the suggestions. */
  predicate Valid(b: Box) {
    -1 <= b.highlight < |Suggestions|
  }

  datatype Key = ArrowDown | ArrowUp | Enter | OtherKey

  /** What a user can do with the box. */
  datatype Event =
    | Typed(value: string)
    | ClickedInput
    | ClickedOutside
    | Pressed(key: Key)
    | ClickedSuggestion(index: nat)

  /** The result of one event for the box's own handlers: the new box and, when the box
      calls `onSearch`, the query it passes. What the form around the box does on top of
      this is the home page's concern. */
  datatype Outcome = Outcome(box: Box, searched: Option<string>)

  /** `handleSuggestionClick`: the query becomes "in: " and the suggestion and a space,
      and the list closes; the highlight is left where it was. */
  function Pick(b: Box, suggestion: string): (r: Box)
    ensures r.query == "in: " + suggestion + " " && !r.open && r.highlight == b.highlight
  {
    Box("in: " + suggestion + " ", false, b.highlight)
  }

  /** `handleKeyDown`, the box's own handler: it prevents the browser's default for the
      arrows and for Enter on a highlighted suggestion only. */
  function KeyDown(b: Box, k: Key): (r: Outcome)
    requires Valid(b)
    ensures Valid(r.box)
    ensures r.searched.Some? <==> !b.open && k == Enter
    ensures r.searched.Some? ==> r.searched.value == b.query && r.box == b
    ensures b.open && k == ArrowDown ==>
      r.box == b.(highlight := if b.highlight < |Suggestions| - 1 then b.highlight + 1 else b.highlight)
    ensures b.open && k == ArrowUp ==>
      r.box == b.(highlight := if b.highlight > 0 then b.highlight - 1 else b.highlight)
    ensures b.open && k == Enter && b.highlight != -1 ==> r.box == Pick(b, Suggestions[b.highlight])
    ensures b.open && k == Enter && b.highlight == -1 ==> r.box == b
    ensures k == OtherKey || (!b.open && k != Enter) ==> r == Outcome(b, None)
  {
    if b.open then
      match k
      case ArrowDown => Outcome(b.(highlight := if b.highlight < |Suggestions| - 1 then b.highlight + 1 else b.highlight), None)
      case ArrowUp => Outcome(b.(highlight := if b.highlight > 0 then b.highlight - 1 else b.highlight), None)
      case Enter => if b.highlight != -1 then Outcome(Pick(b, Suggestions[b.highlight]), None) else Outcome(b, None)
      case OtherKey => Outcome(b, None)
    else if k == Enter then Outcome(b, Some(b.query))
    else Outcome(b, None)
  }

  /** One event. Clicking a suggestion only happens while the list is open and names one
      of the four. */
  function Step(b: Box, e: Event): (r: Outcome)
    requires Valid(b)
    requires e.ClickedSuggestion? ==> b.open && e.index < |Suggestions|
    ensures Valid(r.box)
    ensures r.searched.Some? ==> e == Pressed(Enter) && !b.open
  {
    match e
    case Typed(v) => Outcome(b.(query := v), None)
    case ClickedInput => Outcome(b.(open := true), None)
    case ClickedOutside => Outcome(b.(open := false), None)
    case Pressed(k) => KeyDown(b, k)
    case ClickedSuggestion(i) => Outcome(Pick(b, Suggestions[i]), None)
  }

  /** Whether an event can happen in a box. */
  predicate Possible(b: Box, e: Event) {
    e.ClickedSuggestion? ==> b.open && e.index < |Suggestions|
  }

  /** A run of events; it stops at the first one the box cannot take. */
  function Run(b: Box, es: seq<Event>): (r: Box)
    requires Valid(b)
    ensures Valid(r)
    decreases |es|
  {
    if |es| == 0 || !Possible(b, es[0]) then b else Run(Step(b, es[0]).box, es[1..])
  }

  /** From the initial box, any run of events keeps the highlight within [-1, 3]. */
  lemma HighlightStaysInRange(query: string, es: seq<Event>)
    ensures -1 <= Run(Initial(query), es).highlight <= 3
  {
  }

  /** Down then up from a highlighted suggestion below the last comes back to it; up
      from "none" stays at "none". */
  lemma DownThenUp(b: Box)
    requires Valid(b) && b.open && 0 <= b.highlight < |Suggestions| - 1
    ensures KeyDown(KeyDown(b, ArrowDown).box, ArrowUp).box == b
  {
  }

  lemma UpFromNone(b: Box)
    requires Valid(b) && b.open && b.highlight == -1
    ensures KeyDown(b, ArrowUp).box == b
  {
  }

  function Downs(k: nat): (r: seq<Event>)
    ensures |r| == k && forall j :: 0 <= j < k ==> r[j] == Pressed(ArrowDown)
  {
    seq(k, _ => Pressed(ArrowDown))
  }

  /** With the list open, `k` presses of the down arrow move the highlight `k` places,
      stopping at the last suggestion. */
  lemma {:induction false} DownSaturates(b: Box, k: nat)
    requires Valid(b) && b.open
    ensures var h := b.highlight + k; Run(b, Downs(k)) == b.(highlight := if h < |Suggestions| then h else |Suggestions| - 1)
    decreases k
  {
    if k > 0 {
      var b' := KeyDown(b, ArrowDown).box;
      assert Downs(k)[1..] == Downs(k - 1);
      DownSaturates(b', k - 1);
    }
  }
}
