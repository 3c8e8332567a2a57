/** The sanitary-registry screen (`Formularios/RegistrosSanitarios/RegistrosSanitarios.tsx`):
    a five-field form plus one PDF attachment, create/update/delete against the backend
    with the envelope checked strictly, a search over three fields and pages of three.
 */
module Registries {
  import opened Results
  import opened Text
  import opened Words
  import opened Lists
  import opened Paging

  const PageSize: nat := 3
  const PdfType := "application/pdf"
  const UpdatedText := "Registro actualizado correctamente"
  const CreatedText := "Registro creado correctamente"

  /** A registry record as the backend returns it. */
  datatype Registro = Registro(
    uuid: string, url: string, numberRegistry: string, expirationDate: string,
    cluster: string, status: string, typeRisk: string,
    createdAt: string, updatedAt: string, deletedAt: Option<string>)

  /** The form, which is also the request body. */
  datatype Draft = Draft(
    numberRegistry: string, expirationDate: string, cluster: string, status: string,
    typeRisk: string, fileName: string, fileContent: string)

  datatype Screen = Screen(
    registros: seq<Registro>,
    draft: Draft,
    editando: Option<string>,
    busqueda: string,
    page: int,
    showFileInput: bool,
    toast: Option<Notice>)

  function EmptyDraft(): Draft {
    Draft("", "", "", "", "", "", "")
  }

  function Uuid(r: Registro): string { r.uuid }

  predicate Editing(s: Screen) {
    Present(s.editando)
  }

  /** The create and update calls hand back a record only for a 2xx answer whose
      `success` is set and whose `data` is present; anything else is an error. */
  predicate Accepted<T>(resp: Envelope<T>) {
    resp.ok && resp.success && resp.data.Some?
  }

  /** The list loads from an answer of the same strict kind. */
  function Loaded(s: Screen, resp: Envelope<seq<Registro>>): (r: Screen)
    ensures Accepted(resp) ==> r == s.(registros := resp.data.value)
    ensures !Accepted(resp) ==> r == s.(toast := Some(Failed))
  {
    if Accepted(resp) then s.(registros := resp.data.value) else s.(toast := Some(Failed))
  }

  // ---------------------------------------------------------------------------
  // The attachment

  /** A file chosen in the file input: its name, MIME type and its `data:` URL as the
      browser's reader produces it. */
  datatype PickedFile = PickedFile(name: string, mimeType: string, dataUrl: string)

  /** `handleFileChange`: no file or a non-PDF file leaves everything as it was (the
      latter after an alert); a PDF fills the file fields with its name and the second
      comma-separated piece of its data URL, and hides the file input. */
  function PickFile(s: Screen, file: Option<PickedFile>): (r: Screen)
    ensures file.None? || file.value.mimeType != PdfType ==> r == s
    ensures file.Some? && file.value.mimeType == PdfType ==>
      && r == s.(draft := r.draft, showFileInput := false)
      && r.draft == s.draft.(fileName := file.value.name, fileContent := r.draft.fileContent)
  {
    match file
    case None => s
    case Some(f) =>
      if f.mimeType != PdfType then s
      else s.(draft := s.draft.(fileName := f.name, fileContent := Piece(f.dataUrl, ',', 1).GetOr("")),
              showFileInput := false)
  }

  /** For a data URL of the usual shape, "header,payload", the stored content is the
      payload. */
  lemma PickPdfStoresPayload(s: Screen, name: string, header: string, payload: string)
    requires ',' !in header && ',' !in payload
    ensures PickFile(s, Some(PickedFile(name, PdfType, header + "," + payload))).draft.fileContent == payload
  {
    DataUrlPayload(header, payload);
  }

  /** `handleDeleteFile`: only the two file fields are cleared, and the input shows. */
  function DeleteFile(s: Screen): (r: Screen)
    ensures r.draft.fileName == "" && r.draft.fileContent == "" && r.showFileInput
    ensures r.draft.(fileName := s.draft.fileName, fileContent := s.draft.fileContent) == s.draft
    ensures r.(draft := s.draft, showFileInput := s.showFileInput) == s
  {
    s.(draft := s.draft.(fileName := "", fileContent := ""), showFileInput := true)
  }

  // ---------------------------------------------------------------------------
  // Submission

  /** The body sent: registry number, cluster, status and risk type lower-cased; the
      expiry date and both file fields exactly as in the form. */
  function Normalised(d: Draft): (b: Draft)
    ensures b.numberRegistry == LowerStr(d.numberRegistry) && b.cluster == LowerStr(d.cluster)
    ensures b.status == LowerStr(d.status) && b.typeRisk == LowerStr(d.typeRisk)
    ensures b.expirationDate == d.expirationDate && b.fileName == d.fileName && b.fileContent == d.fileContent
  {
    d.(numberRegistry := LowerStr(d.numberRegistry), cluster := LowerStr(d.cluster),
       status := LowerStr(d.status), typeRisk := LowerStr(d.typeRisk))
  }

  /** Normalising twice is normalising once. */
  lemma NormalisedIdempotent(d: Draft)
    ensures Normalised(Normalised(d)) == Normalised(d)
  {
    LowerStrIdempotent(d.numberRegistry);
    LowerStrIdempotent(d.cluster);
    LowerStrIdempotent(d.status);
    LowerStrIdempotent(d.typeRisk);
  }

  datatype Request = Update(uuid: string, body: Draft) | Create(body: Draft)

  function SubmitRequest(s: Screen): (r: Request)
    ensures r.body == Normalised(s.draft)
    ensures r.Update? <==> Editing(s)
    ensures r.Update? ==> r.uuid == s.editando.value
  {
    if Editing(s) then Update(s.editando.value, Normalised(s.draft)) else Create(Normalised(s.draft))
  }

  /** `handleSubmit`, given the backend's answer. An accepted answer puts the returned
      record in place of the edited one (or at the end), shows a confirmation and resets
      the form; otherwise only an error toast appears. */
  function Submit(s: Screen, resp: Envelope<Registro>): (r: Screen)
    ensures r.busqueda == s.busqueda && r.page == s.page
    ensures !Accepted(resp) ==> r == s.(toast := Some(Failed))
    ensures Accepted(resp) ==> r.draft == EmptyDraft() && r.showFileInput
    ensures Accepted(resp) && Editing(s) ==>
      && r.editando == None && r.toast == Some(Confirmed(UpdatedText))
      && |r.registros| == |s.registros|
      && forall i :: 0 <= i < |s.registros| ==>
           r.registros[i] == if s.registros[i].uuid == s.editando.value then resp.data.value else s.registros[i]
    ensures Accepted(resp) && !Editing(s) ==>
      && r.editando == s.editando && r.toast == Some(Confirmed(CreatedText))
      && r.registros == s.registros + [resp.data.value]
  {
    if !Accepted(resp) then s.(toast := Some(Failed))
    else
      var rec := resp.data.value;
      var s' :=
        if Editing(s) then
          s.(registros := ReplaceWhere(s.registros, Uuid, s.editando.value, (_: Registro) => rec),
             editando := None, toast := Some(Confirmed(UpdatedText)))
        else
          s.(registros := s.registros + [rec], toast := Some(Confirmed(CreatedText)));
      ResetForm(s')
  }

  /** `resetForm`: all seven fields emptied, the file input shown, nothing else touched. */
  function ResetForm(s: Screen): (r: Screen)
    ensures r.draft == EmptyDraft() && r.showFileInput
    ensures r.(draft := s.draft, showFileInput := s.showFileInput) == s
  {
    s.(draft := EmptyDraft(), showFileInput := true)
  }

  /** `iniciarEdicion`: the record's fields fill the form, its URL stands in for the file
      name, the file content is emptied and the file input hidden. */
  function StartEdit(s: Screen, rec: Registro): (r: Screen)
    ensures r.draft == Draft(rec.numberRegistry, rec.expirationDate, rec.cluster, rec.status, rec.typeRisk, rec.url, "")
    ensures r.editando == Some(rec.uuid) && !r.showFileInput
    ensures r.registros == s.registros
  {
    s.(draft := Draft(rec.numberRegistry, rec.expirationDate, rec.cluster, rec.status, rec.typeRisk, rec.url, ""),
       editando := Some(rec.uuid), showFileInput := false)
  }

  /** Opening a record whose text fields are already lower-case and saving at once
      resends its stored values, with the URL as file name and no file content. */
  lemma EditThenSaveResends(s: Screen, rec: Registro)
    requires rec.uuid != ""
    requires IsLowerCase(rec.numberRegistry) && IsLowerCase(rec.cluster)
    requires IsLowerCase(rec.status) && IsLowerCase(rec.typeRisk)
    ensures SubmitRequest(StartEdit(s, rec)) ==
      Update(rec.uuid, Draft(rec.numberRegistry, rec.expirationDate, rec.cluster, rec.status, rec.typeRisk, rec.url, ""))
  {
  }

  /** `eliminarRegistro`: the record goes only when the answer is 2xx with `success`. */
  function Delete(s: Screen, uuid: string, ok: bool, success: bool): (r: Screen)
    ensures !(ok && success) ==> r == s.(toast := Some(Failed))
    ensures ok && success ==>
      && r == s.(registros := r.registros)
      && (forall x :: x in r.registros <==> x in s.registros && x.uuid != uuid)
      && SubseqOf(r.registros, s.registros)
      && (forall x :: multiset(r.registros)[x] == if x.uuid != uuid then multiset(s.registros)[x] else 0)
  {
    if !(ok && success) then s.(toast := Some(Failed))
    else
      RemoveWhereSpec(s.registros, Uuid, uuid);
      s.(registros := RemoveWhere(s.registros, Uuid, uuid))
  }

  /** A record created with a fresh uuid and then deleted leaves the list as it was. */
  lemma CreateThenDelete(s: Screen, resp: Envelope<Registro>)
    requires Accepted(resp) && !Editing(s)
    requires !HasKey(s.registros, Uuid, resp.data.value.uuid)
    ensures Delete(Submit(s, resp), resp.data.value.uuid, true, true).registros == s.registros
  {
    AppendThenRemove(s.registros, Uuid, resp.data.value);
  }

  // ---------------------------------------------------------------------------
  // Search and pages

  function Search(s: Screen, term: string): (r: Screen)
    ensures r.busqueda == term && r.page == 1 && r.registros == s.registros
  {
    s.(busqueda := term, page := 1)
  }

  /** A record matches when the term occurs, ignoring case, in its registry number, its
      cluster or its status (not in the risk type or the date). */
  predicate RecordMatches(x: Registro, term: string) {
    Matches(x.numberRegistry, term) || Matches(x.cluster, term) || Matches(x.status, term)
  }

  /** The list's filter callback for the screen's search term. */
  function Shown(s: Screen): Registro -> bool {
    (x: Registro) => RecordMatches(x, s.busqueda)
  }

  /** The records that show the search term, in order, each as often as it is stored. */
  function Filtered(s: Screen): (r: seq<Registro>)
    ensures forall x :: x in r <==> x in s.registros && RecordMatches(x, s.busqueda)
    ensures SubseqOf(r, s.registros)
    ensures forall x :: multiset(r)[x] == if RecordMatches(x, s.busqueda) then multiset(s.registros)[x] else 0
  {
    FilterSpec(s.registros, Shown(s));
    Filter(s.registros, Shown(s))
  }

  function View(s: Screen): (v: Lists.View<Registro>)
    ensures SubseqOf(v.filtered, s.registros)
    ensures forall x :: x in v.filtered <==> x in s.registros && RecordMatches(x, s.busqueda)
    ensures forall x :: multiset(v.filtered)[x] == if RecordMatches(x, s.busqueda) then multiset(s.registros)[x] else 0
    ensures |v.visible| <= PageSize
    ensures v.totalPages * PageSize >= |v.filtered| && (v.totalPages == 0 <==> v.filtered == [])
    ensures v.totalPages == 0 || (v.totalPages - 1) * PageSize < |v.filtered|
    ensures s.page >= 1 ==> v.visible == v.filtered[Min((s.page - 1) * PageSize, |v.filtered|)..Min(s.page * PageSize, |v.filtered|)]
  {
    PageView(Filtered(s), s.page, PageSize)
  }
}
