/** The older provider screen (`components/Formularios/Proveedores/Proveedores.tsx`):
    providers fetched from the backend, a form whose brands are picked by name from a
    fixed list of ten, saves and deletes that reload the list on success, a search over
    name, representative and e-mail, four providers a page and arrows that clamp.
 */
module LegacyProviders {
  import opened Results
  import opened Lists
  import opened Paging

  const PageSize: nat := 4

  /** `marcasDisponibles`. */
  const Available: seq<string> := [
    "Marca 1", "Marca 2", "Marca 3", "Marca 4", "Marca 5",
    "Otra Marca 1", "Otra Marca 2", "Otra Marca 3", "Otra Marca 4", "Otra Marca 5"
  ]

  /** A brand as the backend stores it under a provider and as the payload sends it:
      `{name}`. */
  datatype BrandObj = BrandObj(name: string)

  datatype Proveedor = Proveedor(uuid: string, name: string, represent: string, typePerson: string,
                                 nit: string, phone: string, email: string, brands: seq<BrandObj>)

  /** The form: six text fields and the picked brand names. */
  datatype Form = Form(name: string, represent: string, typePerson: string, nit: string,
                       phone: string, email: string, brands: seq<string>)

  /** The request body: the form's fields and one `{name}` per picked brand. */
  datatype Body = Body(name: string, represent: string, typePerson: string, nit: string,
                       phone: string, email: string, brands: seq<BrandObj>)

  datatype Screen = Screen(proveedores: seq<Proveedor>, form: Form, editingId: Option<string>,
                           brandTerm: string, dropdownOpen: bool, listTerm: string, page: int)

  const EmptyForm := Form("", "", "", "", "", "", [])

  function Same(m: string): string { m }

  /** Brand names in the form appear at most once. */
  predicate DistinctBrands(f: Form) {
    UniqueKeys(f.brands, Same)
  }

  /** `handleMarcaSelect`: an absent name is appended, a present one left alone; either
      way the brand search box is emptied. */
  function SelectBrand(s: Screen, m: string): (r: Screen)
    ensures m in r.form.brands && r.brandTerm == ""
    ensures m in s.form.brands ==> r.form.brands == s.form.brands
    ensures m !in s.form.brands ==> r.form.brands == s.form.brands + [m]
    ensures r == s.(form := r.form, brandTerm := "") && r.form == s.form.(brands := r.form.brands)
  {
    var brands := if m in s.form.brands then s.form.brands else s.form.brands + [m];
    s.(form := s.form.(brands := brands), brandTerm := "")
  }

  /** `handleRemoveMarca`: every copy of the name goes, the others stay in order. */
  function RemoveBrand(s: Screen, m: string): (r: Screen)
    ensures forall x :: x in r.form.brands <==> x in s.form.brands && x != m
    ensures SubseqOf(r.form.brands, s.form.brands)
    ensures forall x :: multiset(r.form.brands)[x] == if x != m then multiset(s.form.brands)[x] else 0
    ensures r == s.(form := r.form) && r.form == s.form.(brands := r.form.brands)
  {
    RemoveWhereSpec(s.form.brands, Same, m);
    s.(form := s.form.(brands := RemoveWhere(s.form.brands, Same, m)))
  }

  /** Picking a name not yet picked and then removing it gives back the form's list. */
  lemma SelectThenRemove(s: Screen, m: string)
    requires m !in s.form.brands
    ensures RemoveBrand(SelectBrand(s, m), m).form.brands == s.form.brands
  {
    assert !HasKey(s.form.brands, Same, Same(m));
    AppendThenRemove(s.form.brands, Same, m);
  }

  /** Selecting and removing keep the picked names distinct. */
  lemma BrandsStayDistinct(s: Screen, m: string)
    requires DistinctBrands(s.form)
    ensures DistinctBrands(SelectBrand(s, m).form)
    ensures DistinctBrands(RemoveBrand(s, m).form)
  {
    if m !in s.form.brands {
      assert !HasKey(s.form.brands, Same, Same(m));
    }
    UniqueKeysKept(s.form.brands, Same, m, Same, m);
  }

  /** `filteredMarcas`: the available names that contain the search text, ignoring
      case, and are not picked yet, in the list's order. */
  function Candidates(s: Screen): (r: seq<string>)
    ensures forall m :: m in r <==> m in Available && Matches(m, s.brandTerm) && m !in s.form.brands
    ensures SubseqOf(r, Available)
  {
    var keep := (m: string) => Matches(m, s.brandTerm) && m !in s.form.brands;
    FilterSpec(Available, keep);
    Filter(Available, keep)
  }

  /** The dropdown is drawn only while open and with something to offer. */
  predicate DropdownShown(s: Screen) {
    s.dropdownOpen && |Candidates(s)| > 0
  }

  /** A picked name is never offered again, and after a pick the box is empty, so every
      other available unpicked name is offered. */
  lemma PickedNotOffered(s: Screen, m: string)
    ensures m !in Candidates(SelectBrand(s, m))
    ensures forall x :: x in Available && x !in SelectBrand(s, m).form.brands ==> x in Candidates(SelectBrand(s, m))
  {
    forall x | x in Available {
      MatchesSpec(x, "");
    }
  }

  /** The `providerData` body. */
  function Payload(f: Form): (b: Body)
    ensures |b.brands| == |f.brands| && forall i :: 0 <= i < |f.brands| ==> b.brands[i] == BrandObj(f.brands[i])
    ensures (b.name, b.represent, b.typePerson, b.nit, b.phone, b.email) == (f.name, f.represent, f.typePerson, f.nit, f.phone, f.email)
  {
    Body(f.name, f.represent, f.typePerson, f.nit, f.phone, f.email,
         seq(|f.brands|, i requires 0 <= i < |f.brands| => BrandObj(f.brands[i])))
  }

  datatype Request = Put(uuid: string, body: Body) | Post(body: Body)

  /** `PUT /api/provider/<id>` when the edited id is truthy, otherwise `POST`. */
  function SaveRequest(s: Screen): (r: Request)
    ensures r.Put? <==> s.editingId.Some? && s.editingId.value != ""
    ensures r.Put? ==> r.uuid == s.editingId.value
    ensures r.body == Payload(s.form)
  {
    if s.editingId.Some? && s.editingId.value != "" then Request.Put(s.editingId.value, Payload(s.form))
    else Request.Post(Payload(s.form))
  }

  /** `fetchProveedores`: the list is replaced only when the answer reports success and
      carries an array. */
  function Reloaded(list: seq<Proveedor>, answer: Envelope<seq<Proveedor>>): (r: seq<Proveedor>)
    ensures answer.success && answer.data.Some? ==> r == answer.data.value
    ensures !(answer.success && answer.data.Some?) ==> r == list
  {
    if answer.success && answer.data.Some? then answer.data.value else list
  }

  /** `handleSubmit` once the save has answered: `saved` is the save's `success` (false
      also for a network error) and `reload` the answer of the fetch that follows. On
      success the form is cleared and edit mode left; otherwise nothing changes. */
  function Submit(s: Screen, saved: bool, reload: Envelope<seq<Proveedor>>): (r: Screen)
    ensures !saved ==> r == s
    ensures saved ==> r.proveedores == Reloaded(s.proveedores, reload) && r.form == EmptyForm && r.editingId == None
    ensures saved ==> r == s.(proveedores := r.proveedores, form := EmptyForm, editingId := None)
  {
    if saved then s.(proveedores := Reloaded(s.proveedores, reload), form := EmptyForm, editingId := None)
    else s
  }

  /** `handleDelete`: on success the list is fetched again; otherwise nothing changes. */
  function Delete(s: Screen, deleted: bool, reload: Envelope<seq<Proveedor>>): (r: Screen)
    ensures !deleted ==> r == s
    ensures deleted ==> r == s.(proveedores := Reloaded(s.proveedores, reload))
  {
    if deleted then s.(proveedores := Reloaded(s.proveedores, reload)) else s
  }

  function BrandNames(bs: seq<BrandObj>): (r: seq<string>)
    ensures |r| == |bs| && forall i :: 0 <= i < |bs| ==> r[i] == bs[i].name
  {
    seq(|bs|, i requires 0 <= i < |bs| => bs[i].name)
  }

  /** `handleEdit`: the form takes the provider's fields and its brands' names, and the
      provider's uuid becomes the edited id. */
  function StartEdit(s: Screen, p: Proveedor): (r: Screen)
    ensures r.editingId == Some(p.uuid) && r.proveedores == s.proveedores
    ensures (r.form.name, r.form.represent, r.form.typePerson, r.form.nit, r.form.phone, r.form.email) == (p.name, p.represent, p.typePerson, p.nit, p.phone, p.email)
    ensures r.form.brands == BrandNames(p.brands)
  {
    s.(form := Form(p.name, p.represent, p.typePerson, p.nit, p.phone, p.email, BrandNames(p.brands)),
       editingId := Some(p.uuid))
  }

  /** Opening a provider and saving it unchanged sends back exactly what the provider
      holds, to its own address when its uuid is not empty. */
  lemma EditThenSaveSendsProvider(s: Screen, p: Proveedor)
    ensures var q := SaveRequest(StartEdit(s, p));
      q.body == Body(p.name, p.represent, p.typePerson, p.nit, p.phone, p.email, p.brands)
      && (p.uuid != "" ==> q == Request.Put(p.uuid, q.body))
  {
    var b := SaveRequest(StartEdit(s, p)).body;
    assert b.brands == p.brands;
  }

  /** `filteredProveedores`: the term in the name, the representative or the e-mail,
      ignoring case. */
  predicate Found(p: Proveedor, term: string) {
    Matches(p.name, term) || Matches(p.represent, term) || Matches(p.email, term)
  }

  datatype Rendered = Rendered(view: Lists.View<Proveedor>, numbers: seq<int>, prev: Button, next: Button)

  /** The list's filter callback for the screen's search term. */
  function Shown(s: Screen): Proveedor -> bool {
    (x: Proveedor) => Found(x, s.listTerm)
  }

  /** The providers that show the search term, in order, each as often as it is stored. */
  function Filtered(s: Screen): (r: seq<Proveedor>)
    ensures forall x :: x in r <==> x in s.proveedores && Found(x, s.listTerm)
    ensures SubseqOf(r, s.proveedores)
    ensures forall x :: multiset(r)[x] == if Found(x, s.listTerm) then multiset(s.proveedores)[x] else 0
  {
    FilterSpec(s.proveedores, Shown(s));
    Filter(s.proveedores, Shown(s))
  }

  function Render(s: Screen): (v: Rendered)
    ensures forall x :: x in v.view.filtered <==> x in s.proveedores && Found(x, s.listTerm)
    ensures SubseqOf(v.view.filtered, s.proveedores)
    ensures forall x :: multiset(v.view.filtered)[x] == if Found(x, s.listTerm) then multiset(s.proveedores)[x] else 0
    ensures |v.view.visible| <= PageSize
    ensures s.page >= 1 ==> v.view.visible == v.view.filtered[Min((s.page - 1) * PageSize, |v.view.filtered|)..Min(s.page * PageSize, |v.view.filtered|)]
    ensures v.view.totalPages * PageSize >= |v.view.filtered| && (v.view.totalPages == 0 <==> v.view.filtered == [])
    ensures v.view.totalPages == 0 || (v.view.totalPages - 1) * PageSize < |v.view.filtered|
    ensures v.numbers == Window4(s.page, v.view.totalPages)
    ensures (v.prev, v.next) == ClampedArrows(s.page, v.view.totalPages)
  {
    var view := PageView(Filtered(s), s.page, PageSize);
    var arrows := ClampedArrows(s.page, view.totalPages);
    Rendered(view, Window4(s.page, view.totalPages), arrows.0, arrows.1)
  }

  /** The two arrows, `Math.max(prev - 1, 1)` and `Math.min(prev + 1, totalPages)`. */
  function PrevPage(s: Screen): (r: Screen)
    ensures r == s.(page := Render(s).prev.target)
    ensures r.page == Max(1, s.page - 1)
  {
    s.(page := Render(s).prev.target)
  }

  function NextPage(s: Screen): (r: Screen)
    ensures r == s.(page := Render(s).next.target)
    ensures r.page == Min(Render(s).view.totalPages, s.page + 1)
  {
    s.(page := Render(s).next.target)
  }

  /** On a page within range the arrows stay within range, and every visible page
      shows providers. With nothing to show, the right arrow goes to page 0. */
  lemma ArrowsStayInRange(s: Screen)
    requires var t := Render(s).view.totalPages; 1 <= s.page <= t
    ensures var t := Render(s).view.totalPages;
      1 <= PrevPage(s).page <= t && 1 <= NextPage(s).page <= t
      && Render(PrevPage(s)).view.visible != [] && Render(NextPage(s)).view.visible != []
  {
    var f := Render(s).view.filtered;
    PageArith(|f|, PrevPage(s).page, PageSize);
    PageArith(|f|, NextPage(s).page, PageSize);
  }

  lemma NextOnEmptyList(s: Screen)
    requires Render(s).view.filtered == [] && s.page >= 0
    ensures NextPage(s).page == 0 && Render(NextPage(s)).view.visible == []
  {
  }
}
