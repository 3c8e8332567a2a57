/** The brand screen (`Formularios/Marcas/Marcas.tsx`): a list of brands kept in step
    with the backend, a one-field form that creates or renames a brand, deletion after
    a confirmation dialog, and a searchable list shown eight at a time.
 */
module Brands {
  import opened Results
  import opened Text
  import opened Words
  import opened Lists
  import opened Paging

  const PageSize: nat := 8
  const FetchError := "Error fetching brands"
  const SaveError := "Error adding/updating brand"
  const DeleteError := "Error deleting brand"

  /** A brand as the screen keeps it. */
  datatype Brand = Brand(uuid: string, nombre: string)

  /** A brand as the backend sends it; `name` may be missing. */
  datatype BrandData = BrandData(uuid: string, name: Option<string>)

  /** The component state: the list, the form's draft name, the uuid being edited, the
      search term, the error banner and the current page. */
  datatype Screen = Screen(
    marcas: seq<Brand>,
    draft: string,
    editando: Option<string>,
    busqueda: string,
    error: Option<string>,
    page: int)

  function Initial(): Screen {
    Screen([], "", None, "", None, 1)
  }

  function Uuid(b: Brand): string { b.uuid }

  /** `editando` is truthy. */
  predicate Editing(s: Screen) {
    Present(s.editando)
  }

  /** `fetchMarcas`: a good answer replaces the list, a missing name reading as "". */
  function Loaded(s: Screen, resp: Envelope<seq<BrandData>>): (r: Screen)
    ensures resp.ok && resp.data.Some? ==>
      && |r.marcas| == |resp.data.value|
      && (forall i :: 0 <= i < |r.marcas| ==>
            r.marcas[i].uuid == resp.data.value[i].uuid
            && r.marcas[i].nombre == resp.data.value[i].name.GetOr(""))
      && r.error == s.error && r.draft == s.draft
    ensures !(resp.ok && resp.data.Some?) ==> r == s.(error := Some(FetchError))
  {
    if resp.ok && resp.data.Some? then
      var ds := resp.data.value;
      s.(marcas := seq(|ds|, i requires 0 <= i < |ds| => Brand(ds[i].uuid, ds[i].name.GetOr(""))))
    else
      s.(error := Some(FetchError))
  }

  /** Nothing is sent for a blank draft; otherwise the draft goes out lower-cased, as a
      rename of the edited brand when one is being edited and as a new brand if not. */
  function SubmitRequest(s: Screen): (r: Option<NameRequest>)
    ensures r.None? <==> !HasText(s.draft)
    ensures r.Some? ==> r.value.name == LowerStr(s.draft) && IsLowerCase(r.value.name)
    ensures r.Some? ==> (r.value.Put? <==> Editing(s))
    ensures r.Some? && r.value.Put? ==> r.value.uuid == s.editando.value
  {
    if !HasText(s.draft) then None
    else
      LowerStrIdempotent(s.draft);
      if Editing(s) then Some(Put(s.editando.value, LowerStr(s.draft)))
      else Some(Post(LowerStr(s.draft)))
  }

  /** The answer is used only when it is a 2xx with a data member. */
  predicate Accepted<T>(resp: Envelope<T>) {
    resp.ok && resp.data.Some?
  }

  /** `agregarMarca`, given the backend's answer to `SubmitRequest(s)`. */
  function Submit(s: Screen, resp: Envelope<BrandData>): (r: Screen)
    ensures r.busqueda == s.busqueda && r.page == s.page
    ensures !HasText(s.draft) ==> r == s
    ensures HasText(s.draft) && !Accepted(resp) ==> r == s.(error := Some(SaveError))
    ensures HasText(s.draft) && Accepted(resp) ==> r.draft == "" && r.error == None
    ensures HasText(s.draft) && Accepted(resp) && !Editing(s) ==>
      && r.marcas == s.marcas + [Brand(resp.data.value.uuid, resp.data.value.name.GetOr(""))]
      && r.editando == s.editando
    ensures HasText(s.draft) && Accepted(resp) && Editing(s) ==>
      && r.editando == None
      && |r.marcas| == |s.marcas|
      && forall i :: 0 <= i < |s.marcas| ==>
           && r.marcas[i].uuid == s.marcas[i].uuid
           && (s.marcas[i].uuid != s.editando.value ==> r.marcas[i] == s.marcas[i])
           && (s.marcas[i].uuid == s.editando.value ==> r.marcas[i].nombre == resp.data.value.name.GetOr(""))
  {
    if !HasText(s.draft) then s
    else if !Accepted(resp) then s.(error := Some(SaveError))
    else
      var d := resp.data.value;
      if Editing(s) then
        var name := d.name.GetOr("");
        s.(marcas := ReplaceWhere(s.marcas, Uuid, s.editando.value, (b: Brand) => b.(nombre := name)),
           editando := None, draft := "", error := None)
      else
        s.(marcas := s.marcas + [Brand(d.uuid, d.name.GetOr(""))], draft := "", error := None)
  }

  /** `editarMarca`: the first brand with that uuid fills the draft, title-cased, and
      becomes the one being edited; an unknown uuid changes nothing. */
  function StartEdit(s: Screen, uuid: string): (r: Screen)
    ensures !HasKey(s.marcas, Uuid, uuid) ==> r == s
    ensures HasKey(s.marcas, Uuid, uuid) ==>
      exists i :: 0 <= i < |s.marcas| && s.marcas[i].uuid == uuid
        && (forall j :: 0 <= j < i ==> s.marcas[j].uuid != uuid)
        && r == s.(draft := TitleCase(s.marcas[i].nombre), editando := Some(uuid))
  {
    match IndexOf(s.marcas, Uuid, uuid)
    case None => s
    case Some(i) => s.(draft := TitleCase(s.marcas[i].nombre), editando := Some(uuid))
  }

  /** `eliminarMarca`: nothing happens unless the dialog is confirmed; then a 2xx answer
      removes the brand and clears the error, and any other answer sets the error. */
  function Delete(s: Screen, uuid: string, confirmed: bool, ok: bool): (r: Screen)
    ensures !confirmed ==> r == s
    ensures confirmed && !ok ==> r == s.(error := Some(DeleteError))
    ensures confirmed && ok ==>
      && r == s.(marcas := r.marcas, error := None)
      && (forall b :: b in r.marcas <==> b in s.marcas && b.uuid != uuid)
      && SubseqOf(r.marcas, s.marcas)
      && (forall b :: multiset(r.marcas)[b] == if b.uuid != uuid then multiset(s.marcas)[b] else 0)
  {
    if !confirmed then s
    else if !ok then s.(error := Some(DeleteError))
    else
      RemoveWhereSpec(s.marcas, Uuid, uuid);
      s.(marcas := RemoveWhere(s.marcas, Uuid, uuid), error := None)
  }

  /** `handleBusqueda`: a new term always starts from page 1. */
  function Search(s: Screen, term: string): (r: Screen)
    ensures r.busqueda == term && r.page == 1
  {
    s.(busqueda := term, page := 1)
  }

  function Shown(s: Screen): Brand -> bool {
    (b: Brand) => Matches(b.nombre, s.busqueda)
  }

  /** `marcasFiltradas`: the brands whose name contains the search term, in order, each as
      often as it is stored. */
  function Filtered(s: Screen): (r: seq<Brand>)
    ensures forall x :: x in r <==> x in s.marcas && Matches(x.nombre, s.busqueda)
    ensures SubseqOf(r, s.marcas)
    ensures forall x :: multiset(r)[x] == if Matches(x.nombre, s.busqueda) then multiset(s.marcas)[x] else 0
  {
    FilterSpec(s.marcas, Shown(s));
    Filter(s.marcas, Shown(s))
  }

  /** What the screen renders: the brands whose name contains the term, ignoring case,
      their page count and the current page of at most eight. */
  function View(s: Screen): (v: Lists.View<Brand>)
    ensures SubseqOf(v.filtered, s.marcas)
    ensures forall b :: b in v.filtered <==> b in s.marcas && Matches(b.nombre, s.busqueda)
    ensures forall b :: multiset(v.filtered)[b] == if Matches(b.nombre, s.busqueda) then multiset(s.marcas)[b] else 0
    ensures |v.visible| <= PageSize
    ensures v.totalPages * PageSize >= |v.filtered| && (v.totalPages == 0 <==> v.filtered == [])
    ensures v.totalPages == 0 || (v.totalPages - 1) * PageSize < |v.filtered|
    ensures s.page >= 1 ==> v.visible == v.filtered[Min((s.page - 1) * PageSize, |v.filtered|)..Min(s.page * PageSize, |v.filtered|)]
  {
    PageView(Filtered(s), s.page, PageSize)
  }

  /** Right after a search, the page shows the first matches: all of them when there are
      at most eight, otherwise the first eight. */
  lemma SearchShowsFirstPage(s: Screen, term: string)
    ensures var v := View(Search(s, term));
      v.visible == v.filtered[..Min(PageSize, |v.filtered|)]
  {
  }

  /** Opening a brand for editing and saving the draft untouched sends the stored name
      lower-cased (the title case is undone, except that a word-initial micro sign comes
      back as the Greek small mu), and sends nothing for a blank name. */
  lemma EditThenSave(s: Screen, i: nat)
    requires i < |s.marcas| && s.marcas[i].uuid != ""
    requires forall j :: 0 <= j < i ==> s.marcas[j].uuid != s.marcas[i].uuid
    ensures SubmitRequest(StartEdit(s, s.marcas[i].uuid)) ==
      if HasText(s.marcas[i].nombre) then Some(Put(s.marcas[i].uuid, LowerRecapped(s.marcas[i].nombre))) else None
  {
    var b := s.marcas[i];
    assert HasKey(s.marcas, Uuid, b.uuid);
    TitleCaseLower(b.nombre);
  }

  /** A brand created and then deleted leaves the list as it was, provided the backend
      gave it a uuid no other brand had. */
  lemma CreateThenDelete(s: Screen, resp: Envelope<BrandData>)
    requires HasText(s.draft) && !Editing(s) && Accepted(resp)
    requires !HasKey(s.marcas, Uuid, resp.data.value.uuid)
    ensures Delete(Submit(s, resp), resp.data.value.uuid, true, true).marcas == s.marcas
  {
    var b := Brand(resp.data.value.uuid, resp.data.value.name.GetOr(""));
    AppendThenRemove(s.marcas, Uuid, b);
  }

  /** Every change the screen makes keeps brand uuids unique, given a backend that hands
      out fresh uuids. */
  lemma UuidsStayUnique(s: Screen, resp: Envelope<BrandData>, uuid: string, confirmed: bool, ok: bool)
    requires UniqueKeys(s.marcas, Uuid)
    requires Accepted(resp) && !Editing(s) ==> !HasKey(s.marcas, Uuid, resp.data.value.uuid)
    ensures UniqueKeys(Submit(s, resp).marcas, Uuid)
    ensures UniqueKeys(Delete(s, uuid, confirmed, ok).marcas, Uuid)
  {
    var b := Brand("", "");
    if HasText(s.draft) && Accepted(resp) {
      var d := resp.data.value;
      var name := d.name.GetOr("");
      var f := (x: Brand) => x.(nombre := name);
      if Editing(s) {
        UniqueKeysKept(s.marcas, Uuid, s.editando.value, f, b);
      } else {
        UniqueKeysKept(s.marcas, Uuid, uuid, f, Brand(d.uuid, name));
      }
    }
    UniqueKeysKept(s.marcas, Uuid, uuid, (x: Brand) => x, b);
  }
}
