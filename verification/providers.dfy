/** The provider screen (`Formularios/Proveedores/Proveedores.tsx`): a seven-field form
    with a brand picker, a create/update submission whose text fields are partly
    lower-cased, deletion, a search over every field and the brand names, and pages of
    four.
 */
module Providers {
  import opened Results
  import opened Text
  import opened Lists
  import opened Paging

  const PageSize: nat := 4
  const UpdatedText := "Proveedor actualizado correctamente"
  const CreatedText := "Proveedor registrado correctamente"
  const DeletedText := "Proveedor eliminado correctamente"

  /** A brand attached to a provider, and the entries of the brand catalogue the picker
      offers. */
  datatype BrandTag = BrandTag(uuid: string, name: string)

  /** A provider as the screen lists it. */
  datatype Proveedor = Proveedor(
    id: string, empresa: string, tipoPersona: string, nit: string,
    asesor: string, telefono: string, email: string, marcas: seq<BrandTag>)

  /** The form's fields (a provider without its id). */
  datatype Form = Form(
    empresa: string, tipoPersona: string, nit: string,
    asesor: string, telefono: string, email: string, marcas: seq<BrandTag>)

  /** A provider as the backend names its fields, both in requests (where `uuid` is
      absent) and in answers. */
  datatype ApiProveedor = ApiProveedor(
    uuid: string, name: string, nit: string, typesPerson: string,
    represent: string, phone: string, email: string, brands: seq<BrandTag>)

  datatype Screen = Screen(
    proveedores: seq<Proveedor>,
    catalogue: seq<BrandTag>,
    form: Form,
    editingId: Option<string>,
    picker: string,
    busqueda: string,
    page: int,
    toast: Option<Notice>)

  function EmptyForm(): Form {
    Form("", "", "", "", "", "", [])
  }

  function Id(p: Proveedor): string { p.id }
  function TagUuid(b: BrandTag): string { b.uuid }

  predicate Editing(s: Screen) {
    Present(s.editingId)
  }

  // ---------------------------------------------------------------------------
  // Brand picker

  /** `handleMarcaSelect`: the brand joins the form, its name lower-cased, unless a
      brand with that uuid is already there; the picker text is cleared either way. */
  function SelectBrand(s: Screen, b: BrandTag): (r: Screen)
    ensures r.picker == ""
    ensures HasKey(s.form.marcas, TagUuid, b.uuid) ==> r == s.(picker := "")
    ensures !HasKey(s.form.marcas, TagUuid, b.uuid) ==>
      r == s.(picker := "", form := s.form.(marcas := s.form.marcas + [BrandTag(b.uuid, LowerStr(b.name))]))
    ensures UniqueKeys(s.form.marcas, TagUuid) ==> UniqueKeys(r.form.marcas, TagUuid)
    ensures HasKey(r.form.marcas, TagUuid, b.uuid)
  {
    if HasKey(s.form.marcas, TagUuid, b.uuid) then s.(picker := "")
    else
      var tag := BrandTag(b.uuid, LowerStr(b.name));
      var ms := s.form.marcas + [tag];
      assert UniqueKeys(s.form.marcas, TagUuid) ==> UniqueKeys(ms, TagUuid) by {
        if UniqueKeys(s.form.marcas, TagUuid) {
          UniqueKeysKept(s.form.marcas, TagUuid, "", (t: BrandTag) => t, tag);
        }
      }
      assert TagUuid(ms[|ms| - 1]) == b.uuid;
      s.(picker := "", form := s.form.(marcas := ms))
  }

  /** `handleRemoveMarca`: drops the entries with that uuid and nothing else. */
  function RemoveBrand(s: Screen, uuid: string): (r: Screen)
    ensures r == s.(form := s.form.(marcas := r.form.marcas))
    ensures forall t :: t in r.form.marcas <==> t in s.form.marcas && t.uuid != uuid
    ensures !HasKey(r.form.marcas, TagUuid, uuid)
    ensures SubseqOf(r.form.marcas, s.form.marcas)
    ensures forall t :: multiset(r.form.marcas)[t] == if t.uuid != uuid then multiset(s.form.marcas)[t] else 0
  {
    RemoveWhereSpec(s.form.marcas, TagUuid, uuid);
    s.(form := s.form.(marcas := RemoveWhere(s.form.marcas, TagUuid, uuid)))
  }

  /** Picking a brand that was not yet chosen and removing it again restores the form. */
  lemma SelectThenRemove(s: Screen, b: BrandTag)
    requires !HasKey(s.form.marcas, TagUuid, b.uuid)
    ensures RemoveBrand(SelectBrand(s, b), b.uuid).form == s.form
  {
    AppendThenRemove(s.form.marcas, TagUuid, BrandTag(b.uuid, LowerStr(b.name)));
  }

  /** `filteredBrands`: catalogue brands whose name contains the picker text and that
      are not already chosen. */
  function Candidates(s: Screen): (r: seq<BrandTag>)
    ensures forall b :: b in r <==>
      b in s.catalogue && Matches(b.name, s.picker) && !HasKey(s.form.marcas, TagUuid, b.uuid)
    ensures SubseqOf(r, s.catalogue)
    ensures forall b :: multiset(r)[b] ==
                          if Matches(b.name, s.picker) && !HasKey(s.form.marcas, TagUuid, b.uuid)
                          then multiset(s.catalogue)[b] else 0
  {
    var keep := (b: BrandTag) => Matches(b.name, s.picker) && !HasKey(s.form.marcas, TagUuid, b.uuid);
    FilterSpec(s.catalogue, keep);
    Filter(s.catalogue, keep)
  }

  /** A brand just picked is no longer offered. */
  lemma PickedNotOffered(s: Screen, b: BrandTag)
    ensures b !in Candidates(SelectBrand(s, b))
  {
  }

  // ---------------------------------------------------------------------------
  // Submission

  /** The request body: company name, NIT, representative, e-mail and brand names
      lower-cased; person type and phone as typed; brand uuids and order kept. */
  function Payload(f: Form): (p: ApiProveedor)
    ensures p.uuid == ""
    ensures p.name == LowerStr(f.empresa) && p.nit == LowerStr(f.nit)
    ensures p.represent == LowerStr(f.asesor) && p.email == LowerStr(f.email)
    ensures p.typesPerson == f.tipoPersona && p.phone == f.telefono
    ensures |p.brands| == |f.marcas|
    ensures forall i :: 0 <= i < |f.marcas| ==>
      p.brands[i].uuid == f.marcas[i].uuid && p.brands[i].name == LowerStr(f.marcas[i].name)
  {
    ApiProveedor("", LowerStr(f.empresa), LowerStr(f.nit), f.tipoPersona, LowerStr(f.asesor), f.telefono,
      LowerStr(f.email), seq(|f.marcas|, i requires 0 <= i < |f.marcas| => BrandTag(f.marcas[i].uuid, LowerStr(f.marcas[i].name))))
  }

  /** The lower-cased fields of the body are lower-case, and normalising a body a second
      time changes nothing. */
  lemma PayloadNormalised(f: Form)
    ensures var p := Payload(f);
      && IsLowerCase(p.name) && IsLowerCase(p.nit) && IsLowerCase(p.represent) && IsLowerCase(p.email)
      && Payload(Form(p.name, p.typesPerson, p.nit, p.represent, p.phone, p.email, p.brands)) == p
  {
    LowerStrIdempotent(f.empresa);
    LowerStrIdempotent(f.nit);
    LowerStrIdempotent(f.asesor);
    LowerStrIdempotent(f.email);
    forall i | 0 <= i < |f.marcas| {
      LowerStrIdempotent(f.marcas[i].name);
    }
  }

  /** Where the body goes: PUT to the edited provider, or POST for a new one. */
  datatype Request = Update(id: string, body: ApiProveedor) | Create(body: ApiProveedor)

  function SubmitRequest(s: Screen): (r: Request)
    ensures r.body == Payload(s.form)
    ensures r.Update? <==> Editing(s)
    ensures r.Update? ==> r.id == s.editingId.value
  {
    if Editing(s) then Update(s.editingId.value, Payload(s.form)) else Create(Payload(s.form))
  }

  function FromApi(d: ApiProveedor): Proveedor {
    Proveedor(d.uuid, d.name, d.typesPerson, d.nit, d.represent, d.phone, d.email, d.brands)
  }

  function WithId(f: Form, id: string): Proveedor {
    Proveedor(id, f.empresa, f.tipoPersona, f.nit, f.asesor, f.telefono, f.email, f.marcas)
  }

  /** `handleSubmit`, given the backend's answer. A 2xx answer with `success` set:
      an update writes the form itself (as typed, not the lower-cased body) over the
      edited provider, a create appends the provider the backend returned; either way
      the form is emptied and a confirmation shown. Anything else shows an error and
      keeps list, form and editing state. */
  function Submit(s: Screen, resp: Envelope<ApiProveedor>): (r: Screen)
    ensures r.busqueda == s.busqueda && r.page == s.page && r.picker == s.picker
    ensures !(resp.ok && resp.success) ==> r == s.(toast := Some(Failed))
    ensures resp.ok && resp.success && Editing(s) ==>
      && r.form == EmptyForm() && r.editingId == None
      && r.toast == Some(Confirmed(UpdatedText))
      && |r.proveedores| == |s.proveedores|
      && forall i :: 0 <= i < |s.proveedores| ==>
           r.proveedores[i] == if s.proveedores[i].id == s.editingId.value then WithId(s.form, s.editingId.value) else s.proveedores[i]
    ensures resp.ok && resp.success && !Editing(s) && resp.data.Some? ==>
      && r.form == EmptyForm() && r.editingId == s.editingId
      && r.toast == Some(Confirmed(CreatedText))
      && r.proveedores == s.proveedores + [FromApi(resp.data.value)]
    ensures resp.ok && resp.success && !Editing(s) && resp.data.None? ==> r == s.(toast := Some(Failed))
  {
    if !(resp.ok && resp.success) then s.(toast := Some(Failed))
    else if Editing(s) then
      var id := s.editingId.value;
      var updated := WithId(s.form, id);
      s.(proveedores := ReplaceWhere(s.proveedores, Id, id, (_: Proveedor) => updated),
         editingId := None, form := EmptyForm(), toast := Some(Confirmed(UpdatedText)))
    else if resp.data.None? then s.(toast := Some(Failed))
    else
      s.(proveedores := s.proveedores + [FromApi(resp.data.value)],
         form := EmptyForm(), toast := Some(Confirmed(CreatedText)))
  }

  /** `handleDelete`: a 2xx answer with `success` set removes the provider. */
  function Delete(s: Screen, id: string, ok: bool, success: bool): (r: Screen)
    ensures !(ok && success) ==> r == s.(toast := Some(Failed))
    ensures ok && success ==>
      && r == s.(proveedores := r.proveedores, toast := Some(Confirmed(DeletedText)))
      && (forall p :: p in r.proveedores <==> p in s.proveedores && p.id != id)
      && SubseqOf(r.proveedores, s.proveedores)
      && (forall p :: multiset(r.proveedores)[p] == if p.id != id then multiset(s.proveedores)[p] else 0)
  {
    if !(ok && success) then s.(toast := Some(Failed))
    else
      RemoveWhereSpec(s.proveedores, Id, id);
      s.(proveedores := RemoveWhere(s.proveedores, Id, id), toast := Some(Confirmed(DeletedText)))
  }

  /** `handleEdit`: the provider's fields fill the form and its id becomes the one being
      edited. */
  function StartEdit(s: Screen, p: Proveedor): (r: Screen)
    ensures WithId(r.form, p.id) == p && r.editingId == Some(p.id)
    ensures r.proveedores == s.proveedores
  {
    s.(form := Form(p.empresa, p.tipoPersona, p.nit, p.asesor, p.telefono, p.email, p.marcas), editingId := Some(p.id))
  }

  /** Editing a listed provider and saving at once, when the backend agrees, leaves that
      provider exactly as it was listed. */
  lemma EditThenSaveKeepsRecord(s: Screen, i: nat, resp: Envelope<ApiProveedor>)
    requires i < |s.proveedores| && s.proveedores[i].id != ""
    requires UniqueKeys(s.proveedores, Id)
    requires resp.ok && resp.success
    ensures Submit(StartEdit(s, s.proveedores[i]), resp).proveedores == s.proveedores
  {
    var p := s.proveedores[i];
    var r := Submit(StartEdit(s, p), resp).proveedores;
    forall j | 0 <= j < |s.proveedores| ensures r[j] == s.proveedores[j] {
      if j < i {
        assert Id(s.proveedores[j]) != Id(s.proveedores[i]);
      } else if j > i {
        assert Id(s.proveedores[i]) != Id(s.proveedores[j]);
      }
    }
  }

  // ---------------------------------------------------------------------------
  // Search and pages

  /** `handleBusqueda`: the page goes back to 1. */
  function Search(s: Screen, term: string): (r: Screen)
    ensures r.busqueda == term && r.page == 1 && r.proveedores == s.proveedores
  {
    s.(busqueda := term, page := 1)
  }

  /** A provider matches when the term occurs, ignoring case, in its company name,
      representative, e-mail, NIT, phone or person type, or in the name of one of its
      brands. */
  predicate ProviderMatches(p: Proveedor, term: string) {
    || Matches(p.empresa, term) || Matches(p.asesor, term) || Matches(p.email, term)
    || Matches(p.nit, term) || Matches(p.telefono, term) || Matches(p.tipoPersona, term)
    || exists k :: 0 <= k < |p.marcas| && Matches(p.marcas[k].name, term)
  }

  /** The list's filter callback for the screen's search term. */
  function Shown(s: Screen): Proveedor -> bool {
    (x: Proveedor) => ProviderMatches(x, s.busqueda)
  }

  /** The providers that show the search term, in order, each as often as it is stored. */
  function Filtered(s: Screen): (r: seq<Proveedor>)
    ensures forall x :: x in r <==> x in s.proveedores && ProviderMatches(x, s.busqueda)
    ensures SubseqOf(r, s.proveedores)
    ensures forall x :: multiset(r)[x] == if ProviderMatches(x, s.busqueda) then multiset(s.proveedores)[x] else 0
  {
    FilterSpec(s.proveedores, Shown(s));
    Filter(s.proveedores, Shown(s))
  }

  function View(s: Screen): (v: Lists.View<Proveedor>)
    ensures SubseqOf(v.filtered, s.proveedores)
    ensures forall p :: p in v.filtered <==> p in s.proveedores && ProviderMatches(p, s.busqueda)
    ensures forall p :: multiset(v.filtered)[p] == if ProviderMatches(p, s.busqueda) then multiset(s.proveedores)[p] else 0
    ensures |v.visible| <= PageSize
    ensures v.totalPages * PageSize >= |v.filtered| && (v.totalPages == 0 <==> v.filtered == [])
    ensures v.totalPages == 0 || (v.totalPages - 1) * PageSize < |v.filtered|
    ensures s.page >= 1 ==> v.visible == v.filtered[Min((s.page - 1) * PageSize, |v.filtered|)..Min(s.page * PageSize, |v.filtered|)]
  {
    PageView(Filtered(s), s.page, PageSize)
  }

  /** Searching for a brand's name finds every provider that carries that brand. */
  lemma BrandNameFindsProvider(s: Screen, p: Proveedor, k: nat)
    requires p in s.proveedores && k < |p.marcas|
    ensures p in View(Search(s, p.marcas[k].name)).filtered
  {
    var n := p.marcas[k].name;
    ContainsIff(LowerStr(n), LowerStr(n));
    assert OccursAt(LowerStr(n), LowerStr(n), 0);
  }
}
