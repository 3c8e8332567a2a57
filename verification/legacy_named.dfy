/** The older, local-only brand and category screens
    (`components/Formularios/Marcas/Marcas.tsx` and
    `components/Formularios/Categorias/Categorias.tsx`, which are the same component
    over a different noun): a list of `{id, nombre}` kept in memory, a one-field form,
    a case-insensitive search, seven entries a page and a strip of the first four page
    numbers.
 */
module LegacyNamed {
  import opened Results
  import opened Text
  import opened Lists
  import opened Paging

  const PageSize: nat := 7

  datatype Item = Item(id: int, nombre: string)

  /** The list, the draft name, the id being edited (`null` when none), the search term
      and the current page. */
  datatype Screen = Screen(items: seq<Item>, draft: string, editando: Option<int>, busqueda: string, page: int)

  function Initial(): Screen {
    Screen([], "", None, "", 1)
  }

  function Id(x: Item): int { x.id }

  /** `agregarMarca` / `agregarCategoria`; `freshId` stands for `Date.now()`. A blank
      draft changes nothing. Otherwise an edit renames the item with the edited id (the
      draft is stored as typed, not lower-cased) and a create appends a new item; either
      way the draft is emptied. */
  function Submit(s: Screen, freshId: int): (r: Screen)
    ensures !HasText(s.draft) ==> r == s
    ensures HasText(s.draft) ==> r.draft == "" && r.editando == None && r.busqueda == s.busqueda && r.page == s.page
    ensures HasText(s.draft) && s.editando.None? ==> r.items == s.items + [Item(freshId, s.draft)]
    ensures HasText(s.draft) && s.editando.Some? ==>
      && |r.items| == |s.items|
      && forall i :: 0 <= i < |s.items| ==>
           r.items[i] == if s.items[i].id == s.editando.value then s.items[i].(nombre := s.draft) else s.items[i]
  {
    if !HasText(s.draft) then s
    else if s.editando.Some? then
      var name := s.draft;
      s.(items := ReplaceWhere(s.items, Id, s.editando.value, (x: Item) => x.(nombre := name)), editando := None, draft := "")
    else
      s.(items := s.items + [Item(freshId, s.draft)], draft := "")
  }

  /** `editarMarca`: the first item with the id fills the draft with its name as
      stored; an unknown id changes nothing. */
  function StartEdit(s: Screen, id: int): (r: Screen)
    ensures !HasKey(s.items, Id, id) ==> r == s
    ensures HasKey(s.items, Id, id) ==>
      exists i :: 0 <= i < |s.items| && s.items[i].id == id
        && (forall j :: 0 <= j < i ==> s.items[j].id != id)
        && r == s.(draft := s.items[i].nombre, editando := Some(id))
  {
    match IndexOf(s.items, Id, id)
    case None => s
    case Some(i) => s.(draft := s.items[i].nombre, editando := Some(id))
  }

  /** `eliminarMarca`: every item with the id goes, immediately. */
  function Delete(s: Screen, id: int): (r: Screen)
    ensures r == s.(items := r.items)
    ensures forall x :: x in r.items <==> x in s.items && x.id != id
    ensures SubseqOf(r.items, s.items)
    ensures forall x :: multiset(r.items)[x] == if x.id != id then multiset(s.items)[x] else 0
  {
    RemoveWhereSpec(s.items, Id, id);
    s.(items := RemoveWhere(s.items, Id, id))
  }

  /** The search box sets the term only; the page stays where it was. */
  function Search(s: Screen, term: string): (r: Screen)
    ensures r == s.(busqueda := term)
  {
    s.(busqueda := term)
  }

  /** `cambiarPagina`, from a number button or an arrow. */
  function GoTo(s: Screen, page: int): (r: Screen)
    ensures r == s.(page := page)
  {
    s.(page := page)
  }

  /** What the screen renders: the matching items, their page count, the current page
      and the pager strip. */
  datatype Rendered = Rendered(view: Lists.View<Item>, numbers: seq<int>, prev: Button, next: Button)

  /** The list's filter callback for the screen's search term. */
  function Shown(s: Screen): Item -> bool {
    (x: Item) => Matches(x.nombre, s.busqueda)
  }

  /** The items whose name contains the search term, in order, each as often as it is stored. */
  function Filtered(s: Screen): (r: seq<Item>)
    ensures forall x :: x in r <==> x in s.items && Matches(x.nombre, s.busqueda)
    ensures SubseqOf(r, s.items)
    ensures forall x :: multiset(r)[x] == if Matches(x.nombre, s.busqueda) then multiset(s.items)[x] else 0
  {
    FilterSpec(s.items, Shown(s));
    Filter(s.items, Shown(s))
  }

  function Render(s: Screen): (v: Rendered)
    ensures SubseqOf(v.view.filtered, s.items)
    ensures forall x :: x in v.view.filtered <==> x in s.items && Matches(x.nombre, s.busqueda)
    ensures forall x :: multiset(v.view.filtered)[x] == if Matches(x.nombre, s.busqueda) then multiset(s.items)[x] else 0
    ensures |v.view.visible| <= PageSize
    ensures s.page >= 1 ==> v.view.visible == v.view.filtered[Min((s.page - 1) * PageSize, |v.view.filtered|)..Min(s.page * PageSize, |v.view.filtered|)]
    ensures v.view.totalPages * PageSize >= |v.view.filtered| && (v.view.totalPages == 0 <==> v.view.filtered == [])
    ensures v.view.totalPages == 0 || (v.view.totalPages - 1) * PageSize < |v.view.filtered|
    ensures v.numbers == LeadingPages(v.view.totalPages)
    ensures (v.prev, v.next) == PlainArrows(s.page, v.view.totalPages)
  {
    var view := PageView(Filtered(s), s.page, PageSize);
    var arrows := PlainArrows(s.page, view.totalPages);
    Rendered(view, LeadingPages(view.totalPages), arrows.0, arrows.1)
  }

  /** Because the search keeps the page, a term typed while on a later page can leave
      that page empty although some items match: here, on page 2 or later with at most
      seven matches. The first number button brings the matches back. */
  lemma SearchCanHideMatches(s: Screen, term: string)
    requires s.page >= 2
    requires var n := |Render(Search(s, term)).view.filtered|; 1 <= n <= PageSize
    ensures var v := Render(Search(s, term)).view; v.filtered != [] && v.visible == []
    ensures var v := Render(GoTo(Search(s, term), 1)).view; v.visible == v.filtered
  {
  }

  /** A created item with a fresh id, then deleted, leaves the list as it was. */
  lemma CreateThenDelete(s: Screen, freshId: int)
    requires HasText(s.draft) && s.editando.None?
    requires !HasKey(s.items, Id, freshId)
    ensures Delete(Submit(s, freshId), freshId).items == s.items
  {
    AppendThenRemove(s.items, Id, Item(freshId, s.draft));
  }

  /** Opening an item and saving with a non-blank draft renames it and nothing else. */
  lemma EditThenSave(s: Screen, i: nat, freshId: int)
    requires i < |s.items| && UniqueKeys(s.items, Id) && HasText(s.items[i].nombre)
    ensures Submit(StartEdit(s, s.items[i].id), freshId).items == s.items
  {
    var id := s.items[i].id;
    assert HasKey(s.items, Id, id);
    var r := Submit(StartEdit(s, id), freshId);
    assert StartEdit(s, id).draft == s.items[i].nombre;
    forall j | 0 <= j < |s.items| ensures r.items[j] == s.items[j] {
      if j != i {
        assert Id(s.items[j]) != Id(s.items[i]) by {
          if j < i { assert Id(s.items[j]) != Id(s.items[i]); } else { assert Id(s.items[i]) != Id(s.items[j]); }
        }
      }
    }
  }

  /** With fresh ids for new items, ids stay unique. */
  lemma IdsStayUnique(s: Screen, freshId: int, id: int)
    requires UniqueKeys(s.items, Id)
    requires s.editando.None? ==> !HasKey(s.items, Id, freshId)
    ensures UniqueKeys(Submit(s, freshId).items, Id)
    ensures UniqueKeys(Delete(s, id).items, Id)
  {
    if HasText(s.draft) {
      var name := s.draft;
      if s.editando.Some? {
        UniqueKeysKept(s.items, Id, s.editando.value, (x: Item) => x.(nombre := name), Item(freshId, name));
      } else {
        UniqueKeysKept(s.items, Id, id, (x: Item) => x, Item(freshId, name));
      }
    }
    UniqueKeysKept(s.items, Id, id, (x: Item) => x, Item(freshId, s.draft));
  }
}
