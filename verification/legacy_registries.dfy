/** The older, local-only sanitary-registry screen
    (`components/Formularios/RegistrosSanitarios/RegistrosSanitarios.tsx`): records kept
    in memory with numeric ids, a form whose attachment is either a file just picked or
    whatever the record being edited stored, a search over three fields, four records a
    page.
 */
module LegacyRegistries {
  import opened Results
  import opened Lists
  import opened Paging

  const PageSize: nat := 4

  /** A record's `archivo` as stored: `null`, a file name, or `undefined`. */
  datatype FileRef = NoFile | Named(name: string) | Undefined

  /** The form's `archivo`: `null` after a reset, `undefined` when the file input was
      cleared, a `File` just picked, or, after `iniciarEdicion`, the stored value of the
      record being edited. */
  datatype DraftFile = Empty | Cleared | Picked(fileName: string) | Stored(ref: FileRef)

  /** JavaScript truthiness of a stored `archivo`. */
  predicate Attached(f: FileRef) {
    f.Named? && f.name != ""
  }

  /** JavaScript truthiness of the form's `archivo`: a `File` object is always truthy. */
  predicate DraftTruthy(d: DraftFile) {
    d.Picked? || (d.Stored? && Attached(d.ref))
  }

  /** `formData.archivo.name` on a truthy form value: a `File` has a name, a string has
      none. */
  function DraftName(d: DraftFile): (r: FileRef)
    requires DraftTruthy(d)
    ensures d.Picked? <==> r.Named?
    ensures d.Picked? ==> r == Named(d.fileName)
  {
    if d.Picked? then Named(d.fileName) else Undefined
  }

  datatype Record = Record(id: int, numero: string, fechaVencimiento: string, grupo: string,
                           tipoRiesgo: string, estado: string, archivo: FileRef)

  datatype Draft = Draft(id: Option<int>, numero: string, fechaVencimiento: string, grupo: string,
                         tipoRiesgo: string, estado: string, archivo: DraftFile)

  datatype Screen = Screen(records: seq<Record>, form: Draft, editando: bool, searchTerm: string, page: int)

  /** The form `resetForm` leaves. */
  const BlankDraft := Draft(None, "", "", "", "", "", Empty)

  function Id(r: Record): int { r.id }

  function MaxId(rs: seq<Record>): (m: int)
    requires |rs| > 0
    ensures forall i :: 0 <= i < |rs| ==> rs[i].id <= m
    ensures exists i :: 0 <= i < |rs| && rs[i].id == m
  {
    if |rs| == 1 then rs[0].id
    else
      var m := MaxId(rs[1..]);
      assert forall i :: 1 <= i < |rs| ==> rs[i] == rs[1..][i - 1];
      if rs[0].id >= m then rs[0].id else m
  }

  /** `nuevoId`: one more than the largest id, or 1 for an empty list. */
  function NewId(rs: seq<Record>): (id: int)
    ensures !HasKey(rs, Id, id)
    ensures rs == [] ==> id == 1
  {
    if |rs| > 0 then MaxId(rs) + 1 else 1
  }

  /** The record a create stores: the form's fields, the new id, and the picked file's
      name or `null`. */
  function Created(d: Draft, id: int): (r: Record)
    ensures r.id == id
    ensures r.archivo == if DraftTruthy(d.archivo) then DraftName(d.archivo) else NoFile
    ensures (r.numero, r.fechaVencimiento, r.grupo, r.tipoRiesgo, r.estado) == (d.numero, d.fechaVencimiento, d.grupo, d.tipoRiesgo, d.estado)
  {
    Record(id, d.numero, d.fechaVencimiento, d.grupo, d.tipoRiesgo, d.estado,
           if DraftTruthy(d.archivo) then DraftName(d.archivo) else NoFile)
  }

  /** The edited record as the code writes it: the form's fields, and `formData.archivo.name`
      when the form's `archivo` is truthy, else the prior record's. A form filled by
      `iniciarEdicion` holds the stored name string, so this gives `undefined`. */
  function EditedAsWritten(d: Draft, prior: Record): (r: Record)
    requires d.id.Some?
    ensures r.archivo == if DraftTruthy(d.archivo) then DraftName(d.archivo) else prior.archivo
  {
    Record(d.id.value, d.numero, d.fechaVencimiento, d.grupo, d.tipoRiesgo, d.estado,
           if DraftTruthy(d.archivo) then DraftName(d.archivo) else prior.archivo)
  }

  /** The edited record as intended: a newly picked file's name, otherwise the prior
      record's attachment. */
  function Edited(d: Draft, prior: Record): (r: Record)
    requires d.id.Some?
    ensures d.archivo.Picked? ==> r.archivo == Named(d.archivo.fileName)
    ensures !d.archivo.Picked? ==> r.archivo == prior.archivo
    ensures r.id == d.id.value && (r.numero, r.fechaVencimiento, r.grupo, r.tipoRiesgo, r.estado) == (d.numero, d.fechaVencimiento, d.grupo, d.tipoRiesgo, d.estado)
  {
    Record(d.id.value, d.numero, d.fechaVencimiento, d.grupo, d.tipoRiesgo, d.estado,
           if d.archivo.Picked? then Named(d.archivo.fileName) else prior.archivo)
  }

  /** The update branch of `handleSubmit`, as written. */
  function UpdateAsWritten(rs: seq<Record>, d: Draft): (r: seq<Record>)
    requires d.id.Some?
    ensures |r| == |rs|
    ensures forall i :: 0 <= i < |rs| ==> r[i] == if rs[i].id == d.id.value then EditedAsWritten(d, rs[i]) else rs[i]
  {
    seq(|rs|, i requires 0 <= i < |rs| => if rs[i].id == d.id.value then EditedAsWritten(d, rs[i]) else rs[i])
  }

  /** The update branch of `handleSubmit`, keeping the stored attachment unless a new
      file was picked. */
  function Update(rs: seq<Record>, d: Draft): (r: seq<Record>)
    requires d.id.Some?
    ensures |r| == |rs|
    ensures forall i :: 0 <= i < |rs| ==> r[i] == if rs[i].id == d.id.value then Edited(d, rs[i]) else rs[i]
  {
    seq(|rs|, i requires 0 <= i < |rs| => if rs[i].id == d.id.value then Edited(d, rs[i]) else rs[i])
  }

  /** `handleSubmit`: update the edited record or append a new one, then reset the form
      and leave edit mode. The form always carries an id while editing, since only
      `iniciarEdicion` turns editing on. */
  function Submit(s: Screen): (r: Screen)
    requires s.editando ==> s.form.id.Some?
    ensures r.form == BlankDraft && !r.editando
    ensures r.searchTerm == s.searchTerm && r.page == s.page
    ensures s.editando ==> r.records == Update(s.records, s.form)
    ensures !s.editando ==> r.records == s.records + [Created(s.form, NewId(s.records))]
  {
    var rs := if s.editando then Update(s.records, s.form) else s.records + [Created(s.form, NewId(s.records))];
    s.(records := rs, form := BlankDraft, editando := false)
  }

  /** `iniciarEdicion`: the form takes every field of the record, its stored `archivo`
      included. */
  function StartEdit(s: Screen, rec: Record): (r: Screen)
    ensures r.editando && r.form.id == Some(rec.id) && r.form.archivo == Stored(rec.archivo)
    ensures r.records == s.records && r.searchTerm == s.searchTerm && r.page == s.page
  {
    s.(form := Draft(Some(rec.id), rec.numero, rec.fechaVencimiento, rec.grupo, rec.tipoRiesgo, rec.estado, Stored(rec.archivo)),
       editando := true)
  }

  /** `handleFileChange`: the first selected file, or `undefined` when none. */
  function PickFile(s: Screen, file: Option<string>): (r: Screen)
    ensures r == s.(form := r.form) && r.form == s.form.(archivo := r.form.archivo)
    ensures file.Some? ==> r.form.archivo == Picked(file.value)
    ensures file.None? ==> r.form.archivo == Cleared
  {
    s.(form := s.form.(archivo := if file.Some? then Picked(file.value) else Cleared))
  }

  /** `eliminarRegistro`. */
  function Delete(s: Screen, id: int): (r: Screen)
    ensures r == s.(records := r.records)
    ensures forall x :: x in r.records <==> x in s.records && x.id != id
    ensures SubseqOf(r.records, s.records)
    ensures forall x :: multiset(r.records)[x] == if x.id != id then multiset(s.records)[x] else 0
  {
    RemoveWhereSpec(s.records, Id, id);
    s.(records := RemoveWhere(s.records, Id, id))
  }

  /** `filteredMarcas`: the term in the number, the group or the state, ignoring case. */
  predicate Found(r: Record, term: string) {
    Matches(r.numero, term) || Matches(r.grupo, term) || Matches(r.estado, term)
  }

  /** The list area: the attachment link (to `/archivos/<name>`) a card shows, if any. */
  function Link(r: Record): (l: Option<string>)
    ensures l.Some? <==> Attached(r.archivo)
    ensures l.Some? ==> l.value == "/archivos/" + r.archivo.name
  {
    if Attached(r.archivo) then Some("/archivos/" + r.archivo.name) else None
  }

  /** The pager: the numbers 1 .. min(4, total), and an ellipsis with a last-page button
      when there are more than four pages and the current one is more than two before
      the end. */
  datatype Strip = Strip(prev: Button, numbers: seq<int>, last: Option<int>, next: Button)

  datatype Rendered = Rendered(view: Lists.View<Record>, links: seq<Option<string>>, strip: Strip)

  /** The list's filter callback for the screen's search term. */
  function Shown(s: Screen): Record -> bool {
    (x: Record) => Found(x, s.searchTerm)
  }

  /** `filteredMarcas`: the records that show the search term, in order, each as often
      as it is stored. */
  function Filtered(s: Screen): (r: seq<Record>)
    ensures forall x :: x in r <==> x in s.records && Found(x, s.searchTerm)
    ensures SubseqOf(r, s.records)
    ensures forall x :: multiset(r)[x] == if Found(x, s.searchTerm) then multiset(s.records)[x] else 0
  {
    FilterSpec(s.records, Shown(s));
    Filter(s.records, Shown(s))
  }

  function Render(s: Screen): (v: Rendered)
    ensures forall x :: x in v.view.filtered <==> x in s.records && Found(x, s.searchTerm)
    ensures SubseqOf(v.view.filtered, s.records)
    ensures forall x :: multiset(v.view.filtered)[x] == if Found(x, s.searchTerm) then multiset(s.records)[x] else 0
    ensures |v.view.visible| <= PageSize
    ensures s.page >= 1 ==> v.view.visible == v.view.filtered[Min((s.page - 1) * PageSize, |v.view.filtered|)..Min(s.page * PageSize, |v.view.filtered|)]
    ensures v.links == Links(v.view.visible)
    ensures v.view.totalPages * PageSize >= |v.view.filtered| && (v.view.totalPages == 0 <==> v.view.filtered == [])
    ensures v.view.totalPages == 0 || (v.view.totalPages - 1) * PageSize < |v.view.filtered|
    ensures v.strip == Pager(s.page, v.view.totalPages)
  {
    var filtered := Filtered(s);
    var view := PageView(filtered, s.page, PageSize);
    assert view.totalPages == 0 || (view.totalPages - 1) * PageSize < |view.filtered|;
    Rendered(view, Links(view.visible), Pager(s.page, view.totalPages))
  }

  /** One attachment link, or none, per visible record. */
  function Links(visible: seq<Record>): (r: seq<Option<string>>)
    ensures |r| == |visible| && forall i :: 0 <= i < |r| ==> r[i] == Link(visible[i])
  {
    seq(|visible|, i requires 0 <= i < |visible| => Link(visible[i]))
  }

  /** The page strip for `total` pages. */
  function Pager(page: int, total: int): (r: Strip)
    ensures r.numbers == LeadingPages(total)
    ensures r.last.Some? <==> total > 4 && page < total - 2
    ensures r.last.Some? ==> r.last.value == total && r.last.value !in r.numbers
    ensures (r.prev, r.next) == PlainArrows(page, total)
  {
    var arrows := PlainArrows(page, total);
    Strip(arrows.0, LeadingPages(total), if total > 4 && page < total - 2 then Some(total) else None, arrows.1)
  }

  /** The defect: a record with an attachment, opened for editing and saved without
      picking a new file, is stored with `archivo` undefined and loses its link. */
  lemma EditDropsAttachmentAsWritten(rs: seq<Record>, i: nat)
    requires i < |rs| && Attached(rs[i].archivo)
    ensures var d := StartEdit(Screen(rs, BlankDraft, false, "", 1), rs[i]).form;
      UpdateAsWritten(rs, d)[i].archivo == Undefined && Link(UpdateAsWritten(rs, d)[i]).None?
  {
  }

  /** A concrete instance: record 1 with "a.pdf". */
  lemma EditDropsAttachmentExample()
    ensures var rec := Record(1, "RS-1", "2025-01-01", "A", "Bajo", "Vigente", Named("a.pdf"));
      var d := StartEdit(Screen([rec], BlankDraft, false, "", 1), rec).form;
      UpdateAsWritten([rec], d) == [rec.(archivo := Undefined)]
  {
  }

  /** As intended: opening a record and saving without changes gives back the same
      list, attachment included; with ids unique, only that record is touched. */
  lemma EditThenSaveKeepsRecords(s: Screen, i: nat)
    requires i < |s.records| && UniqueKeys(s.records, Id)
    ensures Submit(StartEdit(s, s.records[i])).records == s.records
  {
    var e := StartEdit(s, s.records[i]);
    var r := Submit(e).records;
    forall j | 0 <= j < |s.records| ensures r[j] == s.records[j] {
      if j != i {
        if j < i { assert Id(s.records[j]) != Id(s.records[i]); } else { assert Id(s.records[i]) != Id(s.records[j]); }
      }
    }
  }

  /** A newly picked file replaces the attachment of the edited record. */
  lemma EditWithNewFile(s: Screen, i: nat, name: string)
    requires i < |s.records|
    ensures Submit(PickFile(StartEdit(s, s.records[i]), Some(name))).records[i].archivo == Named(name)
  {
  }

  /** A create, then a delete of the id it was given, leaves the list as it was; and
      creates and deletes keep ids unique. */
  lemma CreateThenDelete(s: Screen)
    requires !s.editando
    ensures Delete(Submit(s), NewId(s.records)).records == s.records
  {
    AppendThenRemove(s.records, Id, Created(s.form, NewId(s.records)));
  }

  lemma IdsStayUnique(s: Screen, id: int)
    requires UniqueKeys(s.records, Id) && (s.editando ==> s.form.id.Some?)
    ensures UniqueKeys(Submit(s).records, Id)
    ensures UniqueKeys(Delete(s, id).records, Id)
  {
    var x := Created(s.form, NewId(s.records));
    UniqueKeysKept(s.records, Id, id, (y: Record) => y, x);
    if s.editando {
      var u := Update(s.records, s.form);
      assert forall i :: 0 <= i < |s.records| ==> Id(u[i]) == Id(s.records[i]);
    }
  }
}
