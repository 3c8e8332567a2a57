/** The category screen (`Formularios/Categorias/Categorias.tsx`): the same one-field
    create/rename form as the brand screen, but the backend's record replaces the local
    one wholesale, deletion needs no confirmation, records without a usable name are
    never listed, and the page count is at least one.
 */
module Categories {
  import opened Results
  import opened Text
  import opened Lists
  import opened Paging

  const PageSize: nat := 7
  const UpdateError := "Error al actualizar la categoría"
  const AddError := "Error al agregar la categoría"
  const DeleteError := "Error al eliminar la categoría"

  /** A category record as the backend stores it; `name` is None when it is null or not
      a string. */
  datatype Category = Category(
    uuid: string,
    name: Option<string>,
    createdAt: string,
    updatedAt: string,
    deletedAt: Option<string>)

  /** The error banner: a failed load (its text comes from the failure itself) or one of
      the fixed messages. */
  datatype Banner = LoadFailed | Message(text: string)

  datatype Screen = Screen(
    categorias: seq<Category>,
    draft: string,
    editando: Option<string>,
    busqueda: string,
    page: int,
    error: Option<Banner>)

  function Uuid(c: Category): string { c.uuid }

  predicate Editing(s: Screen) {
    Present(s.editando)
  }

  /** `fetchCategorias`: the list is replaced only by a 2xx answer whose `success` is
      set and whose `data` is an array. */
  function Loaded(s: Screen, resp: Envelope<seq<Category>>): (r: Screen)
    ensures resp.ok && resp.success && resp.data.Some? ==>
      r == s.(categorias := resp.data.value, error := None)
    ensures !(resp.ok && resp.success && resp.data.Some?) ==>
      r == s.(error := Some(LoadFailed))
  {
    if resp.ok && resp.success && resp.data.Some? then s.(categorias := resp.data.value, error := None)
    else s.(error := Some(LoadFailed))
  }

  /** Nothing is sent for a blank draft; otherwise the lower-cased draft goes out. */
  function SubmitRequest(s: Screen): (r: Option<NameRequest>)
    ensures r.None? <==> !HasText(s.draft)
    ensures r.Some? ==> r.value.name == LowerStr(s.draft)
    ensures r.Some? ==> (r.value.Put? <==> Editing(s))
    ensures r.Some? && r.value.Put? ==> r.value.uuid == s.editando.value
  {
    if !HasText(s.draft) then None
    else if Editing(s) then Some(Put(s.editando.value, LowerStr(s.draft)))
    else Some(Post(LowerStr(s.draft)))
  }

  /** `agregarCategoria`, given the backend's answer: any 2xx answer is taken, the
      returned record replacing the edited one or joining the end of the list, and the
      form is cleared; a failure keeps the form and shows which of the two failed. */
  function Submit(s: Screen, resp: Envelope<Category>): (r: Screen)
    ensures r.busqueda == s.busqueda && r.page == s.page
    ensures !HasText(s.draft) ==> r == s
    ensures HasText(s.draft) && !resp.ok ==>
      r == s.(error := Some(Message(if Editing(s) then UpdateError else AddError)))
    ensures HasText(s.draft) && resp.ok ==>
      r.draft == "" && r.editando == None && r.error == None
    ensures HasText(s.draft) && resp.ok && resp.data.Some? && !Editing(s) ==>
      r.categorias == s.categorias + [resp.data.value]
    ensures HasText(s.draft) && resp.ok && resp.data.Some? && Editing(s) ==>
      && |r.categorias| == |s.categorias|
      && forall i :: 0 <= i < |s.categorias| ==>
           r.categorias[i] == if s.categorias[i].uuid == s.editando.value then resp.data.value else s.categorias[i]
  {
    if !HasText(s.draft) then s
    else if !resp.ok then s.(error := Some(Message(if Editing(s) then UpdateError else AddError)))
    else
      var cats :=
        match resp.data
        case None => s.categorias
        case Some(c) =>
          if Editing(s) then ReplaceWhere(s.categorias, Uuid, s.editando.value, (_: Category) => c)
          else s.categorias + [c];
      s.(categorias := cats, draft := "", editando := None, error := None)
  }

  /** `editarCategoria`: the stored name is copied into the draft verbatim. */
  function StartEdit(s: Screen, uuid: string): (r: Screen)
    ensures !HasKey(s.categorias, Uuid, uuid) ==> r == s
    ensures HasKey(s.categorias, Uuid, uuid) ==>
      exists i :: 0 <= i < |s.categorias| && s.categorias[i].uuid == uuid
        && (forall j :: 0 <= j < i ==> s.categorias[j].uuid != uuid)
        && r == s.(draft := s.categorias[i].name.GetOr(""), editando := Some(uuid))
  {
    match IndexOf(s.categorias, Uuid, uuid)
    case None => s
    case Some(i) => s.(draft := s.categorias[i].name.GetOr(""), editando := Some(uuid))
  }

  /** `eliminarCategoria`: no confirmation; a 2xx answer removes the category. */
  function Delete(s: Screen, uuid: string, ok: bool): (r: Screen)
    ensures !ok ==> r == s.(error := Some(Message(DeleteError)))
    ensures ok ==>
      && r == s.(categorias := r.categorias, error := None)
      && (forall c :: c in r.categorias <==> c in s.categorias && c.uuid != uuid)
      && SubseqOf(r.categorias, s.categorias)
      && (forall c :: multiset(r.categorias)[c] == if c.uuid != uuid then multiset(s.categorias)[c] else 0)
  {
    if !ok then s.(error := Some(Message(DeleteError)))
    else
      RemoveWhereSpec(s.categorias, Uuid, uuid);
      s.(categorias := RemoveWhere(s.categorias, Uuid, uuid), error := None)
  }

  /** Typing in the search box: the page goes back to 1. */
  function Search(s: Screen, term: string): (r: Screen)
    ensures r.busqueda == term && r.page == 1 && r.categorias == s.categorias
  {
    s.(busqueda := term, page := 1)
  }

  /** A category is listed when it has a non-empty string name containing the term. */
  predicate Listed(c: Category, term: string) {
    c.name.Some? && c.name.value != "" && Matches(c.name.value, term)
  }

  /** What the category screen renders; the pager is drawn only for a non-empty list. */
  datatype CategoryView = CategoryView(filtered: seq<Category>, totalPages: int, visible: seq<Category>, showPager: bool)

  /** The list's filter callback for the screen's search term. */
  function Shown(s: Screen): Category -> bool {
    (x: Category) => Listed(x, s.busqueda)
  }

  /** The categories listed for the search term, in order, each as often as it is stored. */
  function Filtered(s: Screen): (r: seq<Category>)
    ensures forall x :: x in r <==> x in s.categorias && Listed(x, s.busqueda)
    ensures SubseqOf(r, s.categorias)
    ensures forall x :: multiset(r)[x] == if Listed(x, s.busqueda) then multiset(s.categorias)[x] else 0
  {
    FilterSpec(s.categorias, Shown(s));
    Filter(s.categorias, Shown(s))
  }

  function View(s: Screen): (v: CategoryView)
    ensures SubseqOf(v.filtered, s.categorias)
    ensures forall c :: c in v.filtered <==> c in s.categorias && Listed(c, s.busqueda)
    ensures forall c :: multiset(v.filtered)[c] == if Listed(c, s.busqueda) then multiset(s.categorias)[c] else 0
    ensures v.totalPages >= 1 && v.totalPages * PageSize >= |v.filtered|
    ensures |v.filtered| > 0 ==> (v.totalPages - 1) * PageSize < |v.filtered|
    ensures |v.visible| <= PageSize
    ensures s.page >= 1 ==> v.visible == v.filtered[Min((s.page - 1) * PageSize, |v.filtered|)..Min(s.page * PageSize, |v.filtered|)]
    ensures v.showPager <==> v.filtered != []
  {
    var filtered := Filtered(s);
    CategoryView(filtered, Max(1, CeilDiv(|filtered|, PageSize)), PageSlice(filtered, s.page, PageSize), |filtered| > 0)
  }

  /** A category whose name is null or empty is never listed, whatever the term, even
      the empty one that lists every other category. */
  lemma NamelessNeverListed(s: Screen, c: Category)
    requires c in s.categorias
    ensures (c.name.None? || c.name.value == "") ==> c !in View(s).filtered
    ensures c.name.Some? && c.name.value != "" && s.busqueda == "" ==> c in View(s).filtered
  {
    if c.name.Some? {
      MatchesSpec(c.name.value, "");
    }
  }

  /** Opening a category and saving it unchanged sends its stored name lower-cased. */
  lemma EditThenSave(s: Screen, i: nat)
    requires i < |s.categorias| && s.categorias[i].uuid != ""
    requires forall j :: 0 <= j < i ==> s.categorias[j].uuid != s.categorias[i].uuid
    ensures var n := s.categorias[i].name.GetOr("");
      SubmitRequest(StartEdit(s, s.categorias[i].uuid)) ==
        if HasText(n) then Some(Put(s.categorias[i].uuid, LowerStr(n))) else None
  {
    assert HasKey(s.categorias, Uuid, s.categorias[i].uuid);
  }

  /** A category created with a fresh uuid and then deleted leaves the list as it was. */
  lemma CreateThenDelete(s: Screen, resp: Envelope<Category>)
    requires HasText(s.draft) && !Editing(s) && resp.ok && resp.data.Some?
    requires !HasKey(s.categorias, Uuid, resp.data.value.uuid)
    ensures Delete(Submit(s, resp), resp.data.value.uuid, true).categorias == s.categorias
  {
    AppendThenRemove(s.categorias, Uuid, resp.data.value);
  }
}
