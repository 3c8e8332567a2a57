/** The product edit form (`components/Formularios/Productos/FormularioEditarProducto.tsx`):
    the in-memory product, the pending image files and the technical-sheet state, the
    handlers that change them, and the JSON body the form sends: every key renamed to the
    backend's name, every string in it lower-cased, the images and the technical sheet
    rebuilt from the attachments.
 */
module ProductEdit {
  import opened Results
  import opened Text
  import opened Words
  import opened Lists

  // ---------------------------------------------------------------------------
  // JSON values

  /** A JSON value; objects keep their keys in insertion order, as JavaScript does. */
  datatype Json =
    | JNull
    | JBool(b: bool)
    | JNum(n: int)
    | JStr(s: string)
    | JArr(items: seq<Json>)
    | JObj(fields: seq<Field>)

  datatype Field = Field(key: string, val: Json)

  /** `lowercaseValue`: strings lower-cased, arrays and objects rebuilt element by
      element (object keys untouched), everything else as it was. */
  function LowercaseValue(v: Json): (r: Json)
    ensures v.JStr? ==> r.JStr? && |r.s| == |v.s| && IsLowerCase(r.s)
    ensures v.JArr? ==> r.JArr? && |r.items| == |v.items|
    ensures v.JObj? ==> r.JObj? && Keys(r.fields) == Keys(v.fields)
    ensures !(v.JStr? || v.JArr? || v.JObj?) ==> r == v
    decreases v, 1
  {
    match v
    case JStr(s) => LowerStrIdempotent(s); JStr(LowerStr(s))
    case JArr(items) => JArr(LowerItems(items))
    case JObj(fields) =>
      var r := LowerFields(fields);
      assert Keys(r) == Keys(fields);
      JObj(r)
    case _ => v
  }

  function LowerItems(items: seq<Json>): (r: seq<Json>)
    decreases items, 0
    ensures |r| == |items|
  {
    if |items| == 0 then [] else [LowercaseValue(items[0])] + LowerItems(items[1..])
  }

  function LowerFields(fields: seq<Field>): (r: seq<Field>)
    decreases fields, 0
    ensures |r| == |fields|
    ensures forall i :: 0 <= i < |fields| ==> r[i].key == fields[i].key
  {
    if |fields| == 0 then []
    else [Field(fields[0].key, LowercaseValue(fields[0].val))] + LowerFields(fields[1..])
  }

  /** Two values with the same structure: same kind, same array lengths, same object
      keys in the same order, and booleans and numbers equal. */
  predicate SameShape(a: Json, b: Json)
    decreases a, 1
  {
    match a
    case JNull => b.JNull?
    case JBool(x) => b == JBool(x)
    case JNum(x) => b == JNum(x)
    case JStr(_) => b.JStr?
    case JArr(xs) => b.JArr? && SameShapeItems(xs, b.items)
    case JObj(fs) => b.JObj? && SameShapeFields(fs, b.fields)
  }

  predicate SameShapeItems(xs: seq<Json>, ys: seq<Json>)
    decreases xs, 0
  {
    |xs| == |ys| && (|xs| == 0 || (SameShape(xs[0], ys[0]) && SameShapeItems(xs[1..], ys[1..])))
  }

  predicate SameShapeFields(fs: seq<Field>, gs: seq<Field>)
    decreases fs, 0
  {
    |fs| == |gs| &&
    (|fs| == 0 || (fs[0].key == gs[0].key && SameShape(fs[0].val, gs[0].val) && SameShapeFields(fs[1..], gs[1..])))
  }

  /** Every string anywhere in the value is lower-case. */
  predicate AllLower(v: Json)
    decreases v, 1
  {
    match v
    case JStr(s) => IsLowerCase(s)
    case JArr(items) => AllLowerItems(items)
    case JObj(fields) => AllLowerFields(fields)
    case _ => true
  }

  predicate AllLowerItems(xs: seq<Json>)
    decreases xs, 0
  {
    |xs| == 0 || (AllLower(xs[0]) && AllLowerItems(xs[1..]))
  }

  predicate AllLowerFields(fs: seq<Field>)
    decreases fs, 0
  {
    |fs| == 0 || (AllLower(fs[0].val) && AllLowerFields(fs[1..]))
  }

  /** `lowercaseValue` keeps the structure of its argument, leaves only lower-case
      strings behind, and changes a value that already has only lower-case strings not
      at all (so applying it twice is applying it once). */
  lemma {:induction false} LowercaseValueSpec(v: Json)
    ensures SameShape(v, LowercaseValue(v))
    ensures AllLower(LowercaseValue(v))
    ensures AllLower(v) ==> LowercaseValue(v) == v
    decreases v, 1
  {
    match v
    case JStr(s) => LowerStrIdempotent(s);
    case JArr(items) => LowerItemsSpec(items);
    case JObj(fields) => LowerFieldsSpec(fields);
    case _ =>
  }

  lemma {:induction false} LowerItemsSpec(xs: seq<Json>)
    ensures SameShapeItems(xs, LowerItems(xs))
    ensures AllLowerItems(LowerItems(xs))
    ensures AllLowerItems(xs) ==> LowerItems(xs) == xs
    decreases xs, 0
  {
    if |xs| > 0 {
      LowercaseValueSpec(xs[0]);
      LowerItemsSpec(xs[1..]);
      assert LowerItems(xs)[1..] == LowerItems(xs[1..]);
    }
  }

  lemma {:induction false} LowerFieldsSpec(fs: seq<Field>)
    ensures SameShapeFields(fs, LowerFields(fs))
    ensures AllLowerFields(LowerFields(fs))
    ensures AllLowerFields(fs) ==> LowerFields(fs) == fs
    decreases fs, 0
  {
    if |fs| > 0 {
      LowercaseValueSpec(fs[0].val);
      LowerFieldsSpec(fs[1..]);
      assert LowerFields(fs)[1..] == LowerFields(fs[1..]);
    }
  }

  /** Lower-casing twice is lower-casing once. */
  lemma LowercaseValueIdempotent(v: Json)
    ensures LowercaseValue(LowercaseValue(v)) == LowercaseValue(v)
  {
    LowercaseValueSpec(v);
    LowercaseValueSpec(LowercaseValue(v));
  }

  // ---------------------------------------------------------------------------
  // Object keys

  /** `obj[key] = val`: an existing key keeps its place and takes the new value, a new
      key goes at the end. */
  function ObjSet(fs: seq<Field>, key: string, val: Json): (r: seq<Field>)
    ensures KeyIn(fs, key) ==> |r| == |fs|
    ensures !KeyIn(fs, key) ==> r == fs + [Field(key, val)]
    ensures forall i :: 0 <= i < |fs| ==> r[i] == if fs[i].key == key then Field(key, val) else fs[i]
    ensures exists i :: 0 <= i < |r| && r[i] == Field(key, val)
  {
    if KeyIn(fs, key) then
      var r := seq(|fs|, i requires 0 <= i < |fs| => if fs[i].key == key then Field(key, val) else fs[i]);
      assert exists i :: 0 <= i < |r| && r[i] == Field(key, val) by {
        var j :| 0 <= j < |fs| && fs[j].key == key;
        assert r[j] == Field(key, val);
      }
      r
    else
      assert (fs + [Field(key, val)])[|fs|] == Field(key, val);
      fs + [Field(key, val)]
  }

  predicate KeyIn(fs: seq<Field>, key: string) {
    exists i :: 0 <= i < |fs| && fs[i].key == key
  }

  function Keys(fs: seq<Field>): (r: seq<string>)
    ensures |r| == |fs| && forall i :: 0 <= i < |fs| ==> r[i] == fs[i].key
  {
    seq(|fs|, i requires 0 <= i < |fs| => fs[i].key)
  }

  predicate DistinctKeys(fs: seq<Field>) {
    forall i, j :: 0 <= i < j < |fs| ==> fs[i].key != fs[j].key
  }

  /** The form's `keyMapping`: its own field names to the backend's. */
  const KeyMapping: map<string, string> := map[
    "nombreGenerico" := "generic_name",
    "nombreComercial" := "commercial_name",
    "descripcion" := "description",
    "unidadMedida" := "measurement",
    "presentacion" := "formulation",
    "composicion" := "composition",
    "referencia" := "reference",
    "uso" := "use",
    "metodoEsterilizar" := "sanitize_method",
    "marca" := "brand",
    "categoria" := "category",
    "registroSanitario" := "sanitary_register",
    "estado" := "status"]

  /** `keyMapping[key] || key`. */
  function RenameKey(key: string): (r: string)
    ensures key in KeyMapping ==> r == KeyMapping[key]
    ensures key !in KeyMapping ==> r == key
  {
    if key in KeyMapping then KeyMapping[key] else key
  }

  /** The `reduce` over the product's entries: each key renamed, each value lower-cased,
      written into the accumulator object one after the other. */
  function RenameEntries(acc: seq<Field>, entries: seq<Field>): (r: seq<Field>)
    ensures |acc| <= |r| <= |acc| + |entries|
    ensures forall i :: 0 <= i < |acc| ==> r[i].key == acc[i].key
    decreases |entries|
  {
    if |entries| == 0 then acc
    else RenameEntries(ObjSet(acc, RenameKey(entries[0].key), LowercaseValue(entries[0].val)), entries[1..])
  }

  /** The entries, renamed and lower-cased one by one. */
  function MapEntries(entries: seq<Field>): (r: seq<Field>)
    ensures |r| == |entries|
    ensures forall i :: 0 <= i < |entries| ==>
      r[i] == Field(RenameKey(entries[i].key), LowercaseValue(entries[i].val))
  {
    seq(|entries|, i requires 0 <= i < |entries| => Field(RenameKey(entries[i].key), LowercaseValue(entries[i].val)))
  }

  /** When no two entries are renamed to the same key, the `reduce` gives every entry,
      in the original order, under its new key and with its value lower-cased. */
  lemma {:induction false} RenameEntriesSpec(acc: seq<Field>, entries: seq<Field>)
    requires DistinctKeys(acc + MapEntries(entries))
    ensures RenameEntries(acc, entries) == acc + MapEntries(entries)
    decreases |entries|
  {
    if |entries| > 0 {
      var m := MapEntries(entries);
      var f := m[0];
      assert !KeyIn(acc, f.key) by {
        forall i | 0 <= i < |acc| ensures acc[i].key != f.key {
          assert (acc + m)[i] == acc[i] && (acc + m)[|acc|] == f;
        }
      }
      assert MapEntries(entries[1..]) == m[1..];
      assert acc + [f] + m[1..] == acc + m;
      RenameEntriesSpec(acc + [f], entries[1..]);
    }
  }

  // ---------------------------------------------------------------------------
  // The product in memory

  datatype Characteristic = Characteristic(uuid: string, characteristic: string, description: string)
  datatype TechnicalSheet = TechnicalSheet(uuid: string, documents: string)
  datatype Provider = Provider(uuid: string, nit: string, typesPerson: string, name: string,
                               represent: string, phone: string, email: string)

  /** The product as the form holds it; `uuid` is absent before the product loads. */
  datatype Producto = Producto(
    uuid: Option<string>,
    nombreGenerico: string, nombreComercial: string, descripcion: string,
    unidadMedida: string, presentacion: string, composicion: string, referencia: string,
    uso: string, metodoEsterilizar: string, marca: string, categoria: string,
    registroSanitario: string, estado: bool, iva: bool,
    characteristics: seq<Characteristic>, images: seq<string>,
    technicalSheets: seq<TechnicalSheet>, providers: seq<Provider>)

  /** A file chosen in the browser: its name and its content as the base64 reader
      returns it. */
  datatype NewFile = NewFile(name: string, content: string)

  /** `TechnicalSheetData`: a newly chosen file, the stored document's URL, and whether
      the user deleted the sheet. */
  datatype SheetState = SheetState(file: Option<NewFile>, url: Option<string>, isDeleted: bool)

  datatype Form = Form(producto: Producto, newImages: seq<NewFile>, sheet: SheetState)

  function Str(s: string): Json { JStr(s) }

  function CharacteristicJson(c: Characteristic): Json {
    JObj([Field("uuid", Str(c.uuid)), Field("characteristic", Str(c.characteristic)), Field("description", Str(c.description))])
  }

  function SheetJson(t: TechnicalSheet): Json {
    JObj([Field("uuid", Str(t.uuid)), Field("documents", Str(t.documents))])
  }

  function ProviderJson(p: Provider): Json {
    JObj([Field("uuid", Str(p.uuid)), Field("nit", Str(p.nit)), Field("types_person", Str(p.typesPerson)),
          Field("name", Str(p.name)), Field("represent", Str(p.represent)), Field("phone", Str(p.phone)),
          Field("email", Str(p.email))])
  }

  /** `Object.entries(producto)`, in the order the loaded product sets its keys. */
  function Entries(p: Producto): (e: seq<Field>)
    ensures |e| == |UuidKeys(p)| + 18
  {
    (if p.uuid.Some? then [Field("uuid", Str(p.uuid.value))] else []) +
    seq(18, i requires 0 <= i < 18 => Field(FormKeys[i], FieldValue(p, i)))
  }

  /** The value under the i-th of `FormKeys`. */
  function FieldValue(p: Producto, i: nat): Json
    requires i < 18
  {
    if i == 0 then Str(p.nombreGenerico)
    else if i == 1 then Str(p.nombreComercial)
    else if i == 2 then Str(p.descripcion)
    else if i == 3 then Str(p.unidadMedida)
    else if i == 4 then Str(p.presentacion)
    else if i == 5 then Str(p.composicion)
    else if i == 6 then Str(p.referencia)
    else if i == 7 then Str(p.uso)
    else if i == 8 then Str(p.metodoEsterilizar)
    else if i == 9 then Str(p.marca)
    else if i == 10 then Str(p.categoria)
    else if i == 11 then Str(p.registroSanitario)
    else if i == 12 then JBool(p.estado)
    else if i == 13 then JBool(p.iva)
    else if i == 14 then JArr(seq(|p.characteristics|, j requires 0 <= j < |p.characteristics| => CharacteristicJson(p.characteristics[j])))
    else if i == 15 then JArr(seq(|p.images|, j requires 0 <= j < |p.images| => Str(p.images[j])))
    else if i == 16 then JArr(seq(|p.technicalSheets|, j requires 0 <= j < |p.technicalSheets| => SheetJson(p.technicalSheets[j])))
    else JArr(seq(|p.providers|, j requires 0 <= j < |p.providers| => ProviderJson(p.providers[j])))
  }

  // ---------------------------------------------------------------------------
  // The body sent

  function FileJson(name: string, content: string): Json {
    JObj([Field("file_name", Str(name)), Field("file_content", Str(content))])
  }

  /** The `images` member: the stored URLs first, each named by its last path segment
      and carrying the URL itself, then the new files with their base64 content. */
  function ImagesPayload(existing: seq<string>, added: seq<NewFile>): (r: seq<Json>)
    ensures |r| == |existing| + |added|
    ensures forall i :: 0 <= i < |existing| ==> r[i] == FileJson(LastSegment(existing[i]), existing[i])
    ensures forall j :: 0 <= j < |added| ==> r[|existing| + j] == FileJson(added[j].name, added[j].content)
  {
    seq(|existing|, i requires 0 <= i < |existing| => FileJson(LastSegment(existing[i]), existing[i])) +
    seq(|added|, j requires 0 <= j < |added| => FileJson(added[j].name, added[j].content))
  }

  /** The `technical_sheet` member, decided in order: deleted, a new file, a stored URL
      (a non-empty one), nothing. */
  function SheetPayload(t: SheetState): (r: Json)
    ensures t.isDeleted ==> r == JNull
    ensures !t.isDeleted && t.file.Some? ==> r == FileJson(t.file.value.name, t.file.value.content)
    ensures !t.isDeleted && t.file.None? && Present(t.url) ==> r == FileJson(LastSegment(t.url.value), t.url.value)
    ensures !t.isDeleted && t.file.None? && !Present(t.url) ==> r == JNull
  {
    if t.isDeleted then JNull
    else if t.file.Some? then FileJson(t.file.value.name, t.file.value.content)
    else if Present(t.url) then FileJson(LastSegment(t.url.value), t.url.value)
    else JNull
  }

  /** `productData`: the renamed, lower-cased entries, then `iva`, `images` and
      `technical_sheet` written over them. */
  function ProductData(f: Form): (r: Json)
    ensures r.JObj?
    ensures exists i :: 0 <= i < |r.fields| && r.fields[i] == Field("iva", JBool(f.producto.iva))
    ensures exists i :: 0 <= i < |r.fields| && r.fields[i] == Field("images", JArr(ImagesPayload(f.producto.images, f.newImages)))
    ensures exists i :: 0 <= i < |r.fields| && r.fields[i] == Field("technical_sheet", SheetPayload(f.sheet))
  {
    var mapped := RenameEntries([], Entries(f.producto));
    var withIva := ObjSet(mapped, "iva", JBool(f.producto.iva));
    var withImages := ObjSet(withIva, "images", JArr(ImagesPayload(f.producto.images, f.newImages)));
    JObj(ObjSet(withImages, "technical_sheet", SheetPayload(f.sheet)))
  }

  /** The product's own keys after `uuid`, in the order the loaded product sets them. */
  const FormKeys: seq<string> := [
    "nombreGenerico", "nombreComercial", "descripcion", "unidadMedida", "presentacion",
    "composicion", "referencia", "uso", "metodoEsterilizar", "marca", "categoria",
    "registroSanitario", "estado", "iva", "characteristics", "images", "technicalSheets", "providers"]

  /** The same keys as the backend names them. */
  const ApiKeys: seq<string> := [
    "generic_name", "commercial_name", "description", "measurement", "formulation",
    "composition", "reference", "use", "sanitize_method", "brand", "category",
    "sanitary_register", "status", "iva", "characteristics", "images", "technicalSheets", "providers"]

  function UuidKeys(p: Producto): seq<string> {
    if p.uuid.Some? then ["uuid"] else []
  }

  /** The keys the body carries, in order: the backend's names for the form's fields,
      with `technical_sheet` last. */
  function PayloadKeys(p: Producto): seq<string> {
    UuidKeys(p) + ApiKeys + ["technical_sheet"]
  }

  /** `keyMapping` renames the first thirteen keys and leaves `iva` and the four list
      keys as they are. */
  lemma RenameTable()
    ensures |FormKeys| == |ApiKeys| == 18
    ensures forall i :: 0 <= i < 18 ==> RenameKey(FormKeys[i]) == ApiKeys[i]
    ensures RenameKey("uuid") == "uuid"
  {
  }

  lemma EntryKeys(p: Producto)
    ensures Keys(Entries(p)) == UuidKeys(p) + FormKeys
  {
  }

  /** Length, first and last character tell the body's keys apart. */
  function Signature(k: string): (int, char, char) {
    if |k| == 0 then (0, ' ', ' ') else (|k|, k[0], k[|k| - 1])
  }

  /** The signatures of the body's keys, in order; no two are equal. */
  const KeySignatures: seq<(int, char, char)> := [
    (12, 'g', 'e'), (15, 'c', 'e'), (11, 'd', 'n'), (11, 'm', 't'), (11, 'f', 'n'),
    (11, 'c', 'n'), (9, 'r', 'e'), (3, 'u', 'e'), (15, 's', 'd'), (5, 'b', 'd'),
    (8, 'c', 'y'), (17, 's', 'r'), (6, 's', 's'), (3, 'i', 'a'), (15, 'c', 's'),
    (6, 'i', 's'), (15, 't', 's'), (9, 'p', 's'), (15, 't', 't'), (4, 'u', 'd')]

  /** The position of a signature among `KeySignatures`. */
  function SignatureRank(sig: (int, char, char)): int {
    if sig == (12, 'g', 'e') then 0
    else if sig == (15, 'c', 'e') then 1
    else if sig == (11, 'd', 'n') then 2
    else if sig == (11, 'm', 't') then 3
    else if sig == (11, 'f', 'n') then 4
    else if sig == (11, 'c', 'n') then 5
    else if sig == (9, 'r', 'e') then 6
    else if sig == (3, 'u', 'e') then 7
    else if sig == (15, 's', 'd') then 8
    else if sig == (5, 'b', 'd') then 9
    else if sig == (8, 'c', 'y') then 10
    else if sig == (17, 's', 'r') then 11
    else if sig == (6, 's', 's') then 12
    else if sig == (3, 'i', 'a') then 13
    else if sig == (15, 'c', 's') then 14
    else if sig == (6, 'i', 's') then 15
    else if sig == (15, 't', 's') then 16
    else if sig == (9, 'p', 's') then 17
    else if sig == (15, 't', 't') then 18
    else if sig == (4, 'u', 'd') then 19
    else -1
  }

  lemma KeyRank(k: nat)
    requires k < |ApiKeys + ["technical_sheet", "uuid"]|
    ensures SignatureRank(Signature((ApiKeys + ["technical_sheet", "uuid"])[k])) == k
  {
    var all := ApiKeys + ["technical_sheet", "uuid"];
    assert Signature(all[k]) == KeySignatures[k];
  }

  lemma AllKeysDistinct(i: nat, j: nat)
    requires i < j < |ApiKeys + ["technical_sheet", "uuid"]|
    ensures (ApiKeys + ["technical_sheet", "uuid"])[i] != (ApiKeys + ["technical_sheet", "uuid"])[j]
  {
    KeyRank(i);
    KeyRank(j);
  }

  /** No key occurs twice in the body. */
  lemma PayloadKeysDistinct(p: Producto, i: nat, j: nat)
    requires i < j < |PayloadKeys(p)|
    ensures PayloadKeys(p)[i] != PayloadKeys(p)[j]
  {
    var keys := PayloadKeys(p);
    if p.uuid.Some? {
      if i == 0 {
        assert keys[j] == (ApiKeys + ["technical_sheet", "uuid"])[j - 1];
        AllKeysDistinct(j - 1, 19);
      } else {
        assert keys[i] == (ApiKeys + ["technical_sheet", "uuid"])[i - 1];
        assert keys[j] == (ApiKeys + ["technical_sheet", "uuid"])[j - 1];
        AllKeysDistinct(i - 1, j - 1);
      }
    } else {
      assert keys[i] == (ApiKeys + ["technical_sheet", "uuid"])[i];
      assert keys[j] == (ApiKeys + ["technical_sheet", "uuid"])[j];
      AllKeysDistinct(i, j);
    }
  }

  lemma MappedKeys(p: Producto)
    ensures Keys(MapEntries(Entries(p))) + ["technical_sheet"] == PayloadKeys(p)
  {
    var e := Entries(p);
    var k := Keys(MapEntries(e));
    EntryKeys(p);
    RenameTable();
    var u := |UuidKeys(p)|;
    forall i | 0 <= i < |e| ensures k[i] == PayloadKeys(p)[i] {
      assert k[i] == RenameKey(e[i].key) && e[i].key == Keys(e)[i];
      if i >= u {
        assert Keys(e)[i] == FormKeys[i - u] && PayloadKeys(p)[i] == ApiKeys[i - u];
      }
    }
  }

  /** The `reduce` over a product's entries gives them all, in order, renamed and
      lower-cased, under pairwise different keys none of which is `technical_sheet`. */
  lemma MappedSpec(p: Producto)
    ensures RenameEntries([], Entries(p)) == MapEntries(Entries(p))
    ensures DistinctKeys(MapEntries(Entries(p)))
    ensures Keys(MapEntries(Entries(p))) + ["technical_sheet"] == PayloadKeys(p)
    ensures !KeyIn(MapEntries(Entries(p)), "technical_sheet")
  {
    var m := MapEntries(Entries(p));
    MappedKeys(p);
    var keys := PayloadKeys(p);
    assert DistinctKeys(m) by {
      forall i, j | 0 <= i < j < |m| ensures m[i].key != m[j].key {
        assert m[i].key == keys[i] && m[j].key == keys[j];
        PayloadKeysDistinct(p, i, j);
      }
    }
    assert !KeyIn(m, "technical_sheet") by {
      forall i | 0 <= i < |m| ensures m[i].key != "technical_sheet" {
        assert m[i].key == keys[i];
        PayloadKeysDistinct(p, i, |keys| - 1);
      }
    }
    assert [] + m == m;
    RenameEntriesSpec([], Entries(p));
  }

  /** Writing `iva` and `images` over an object that has them, then a new
      `technical_sheet`, changes those two places and appends the third. */
  lemma OverrideSpec(m: seq<Field>, a: nat, b: nat, iva: Json, images: Json, sheet: Json)
    requires DistinctKeys(m) && a < |m| && b < |m|
    requires m[a].key == "iva" && m[b].key == "images" && !KeyIn(m, "technical_sheet")
    ensures var r := ObjSet(ObjSet(ObjSet(m, "iva", iva), "images", images), "technical_sheet", sheet);
      && |r| == |m| + 1
      && r[|m|] == Field("technical_sheet", sheet)
      && Keys(r) == Keys(m) + ["technical_sheet"]
      && forall i :: 0 <= i < |m| ==>
           r[i] == if i == a then Field("iva", iva) else if i == b then Field("images", images) else m[i]
  {
    var m1 := ObjSet(m, "iva", iva);
    assert KeyIn(m, "iva");
    assert m1[b].key == "images";
    var m2 := ObjSet(m1, "images", images);
    assert !KeyIn(m2, "technical_sheet") by {
      forall i | 0 <= i < |m2| ensures m2[i].key != "technical_sheet" {
        assert m[i].key != "technical_sheet";
      }
    }
    var r := ObjSet(m2, "technical_sheet", sheet);
    forall i | 0 <= i < |r| ensures Keys(r)[i] == (Keys(m) + ["technical_sheet"])[i] {
      if i < |m| { assert r[i].key == m[i].key; }
    }
  }

  /** The body is the mapped entries with the three members written over them. */
  lemma ProductDataShape(f: Form)
    ensures var m := MapEntries(Entries(f.producto)); var u := |UuidKeys(f.producto)|;
      && u + 15 < |m| && m[u + 13].key == "iva" && m[u + 15].key == "images"
      && ProductData(f) == JObj(ObjSet(ObjSet(ObjSet(m, "iva", JBool(f.producto.iva)),
           "images", JArr(ImagesPayload(f.producto.images, f.newImages))), "technical_sheet", SheetPayload(f.sheet)))
  {
    var p := f.producto;
    var m := MapEntries(Entries(p));
    var u := |UuidKeys(p)|;
    assert u + 15 < |m| && m[u + 13].key == "iva" && m[u + 15].key == "images" by {
      MappedKeys(p);
      var keys := PayloadKeys(p);
      assert keys[u + 13] == "iva" && keys[u + 15] == "images";
      assert Keys(m)[u + 13] == keys[u + 13] && Keys(m)[u + 15] == keys[u + 15];
    }
    assert RenameEntries([], Entries(p)) == m by {
      MappedSpec(p);
    }
  }

  /** The body's keys, in order, and its last member. */
  lemma ProductDataKeys(f: Form)
    ensures ProductData(f).JObj?
    ensures Keys(ProductData(f).fields) == PayloadKeys(f.producto)
    ensures var fs := ProductData(f).fields; fs[|fs| - 1] == Field("technical_sheet", SheetPayload(f.sheet))
  {
    var p := f.producto;
    var m := MapEntries(Entries(p));
    MappedSpec(p);
    ProductDataShape(f);
    var u := |UuidKeys(p)|;
    OverrideSpec(m, u + 13, u + 15, JBool(p.iva), JArr(ImagesPayload(p.images, f.newImages)), SheetPayload(f.sheet));
  }

  /** The body's values at the product's own places. */
  lemma ProductDataValues(f: Form)
    ensures ProductData(f).JObj? && |ProductData(f).fields| > |Entries(f.producto)|
    ensures var fs := ProductData(f).fields; var e := Entries(f.producto);
      && (forall i :: 0 <= i < |e| && e[i].key != "images" ==>
            fs[i] == Field(RenameKey(e[i].key), LowercaseValue(e[i].val)))
      && (forall i :: 0 <= i < |e| && e[i].key == "images" ==>
            fs[i].val == JArr(ImagesPayload(f.producto.images, f.newImages)))
  {
    var p := f.producto;
    var e := Entries(p);
    var m := MapEntries(e);
    MappedSpec(p);
    ProductDataShape(f);
    var u := |UuidKeys(p)|;
    var images := JArr(ImagesPayload(p.images, f.newImages));
    OverrideSpec(m, u + 13, u + 15, JBool(p.iva), images, SheetPayload(f.sheet));
    var fs := ProductData(f).fields;
    forall i | 0 <= i < |e| && e[i].key != "images"
      ensures fs[i] == Field(RenameKey(e[i].key), LowercaseValue(e[i].val))
    {
      IvaAndImagesPlaces(p, i);
    }
    forall i | 0 <= i < |e| && e[i].key == "images"
      ensures fs[i].val == images
    {
      IvaAndImagesPlaces(p, i);
    }
  }

  /** What the body holds: exactly the expected keys in the expected order; each form
      field other than `images` under its backend name with its value lower-cased (so
      `iva` is the form's boolean); `images` the rebuilt image list; and
      `technical_sheet` the sheet decision, last. */
  lemma ProductDataSpec(f: Form)
    ensures ProductData(f).JObj?
    ensures Keys(ProductData(f).fields) == PayloadKeys(f.producto)
    ensures var fs := ProductData(f).fields; var e := Entries(f.producto);
      && (forall i :: 0 <= i < |e| && e[i].key != "images" ==>
            fs[i] == Field(RenameKey(e[i].key), LowercaseValue(e[i].val)))
      && (forall i :: 0 <= i < |e| && e[i].key == "images" ==>
            fs[i].val == JArr(ImagesPayload(f.producto.images, f.newImages)))
      && fs[|fs| - 1] == Field("technical_sheet", SheetPayload(f.sheet))
  {
    ProductDataKeys(f);
    ProductDataValues(f);
  }

  /** Where `iva` and `images` sit among a product's entries, and that `iva` holds the
      form's boolean. */
  lemma IvaAndImagesPlaces(p: Producto, i: nat)
    requires i < |Entries(p)|
    ensures var e := Entries(p); var u := |UuidKeys(p)|;
      && (e[i].key == "images" <==> i == u + 15)
      && (e[i].key == "iva" <==> i == u + 13)
      && (i == u + 13 ==> e[i].val == JBool(p.iva))
  {
    var e := Entries(p);
    var u := |UuidKeys(p)|;
    var keys := PayloadKeys(p);
    assert e[u + 13] == Field("iva", JBool(p.iva));
    assert e[u + 15].key == "images";
    assert keys[u + 13] == "iva" && keys[u + 15] == "images";
    if e[i].key == "images" || e[i].key == "iva" {
      MappedKeys(p);
      assert "iva" !in KeyMapping && "images" !in KeyMapping;
      assert MapEntries(e)[i].key == e[i].key == keys[i];
    }
  }

  // ---------------------------------------------------------------------------
  // Handlers

  /** Loading a product: the pending image files are dropped and, when the product has
      technical sheets, the first one's document URL becomes the sheet. */
  function Loaded(f: Form, p: Producto): (r: Form)
    ensures r.producto == p && r.newImages == []
    ensures |p.technicalSheets| > 0 ==> r.sheet == SheetState(None, Some(p.technicalSheets[0].documents), false)
    ensures |p.technicalSheets| == 0 ==> r.sheet == f.sheet
  {
    Form(p, [], if |p.technicalSheets| > 0 then SheetState(None, Some(p.technicalSheets[0].documents), false) else f.sheet)
  }

  /** `onDropImages`: the dropped files go after the ones already pending. */
  function DropImages(f: Form, files: seq<NewFile>): (r: Form)
    ensures |r.newImages| == |f.newImages| + |files|
    ensures r.newImages[..|f.newImages|] == f.newImages && r.newImages[|f.newImages|..] == files
    ensures r.producto == f.producto && r.sheet == f.sheet
  {
    f.(newImages := f.newImages + files)
  }

  /** `handleDeleteExistingImage`: removes one stored image, pending files untouched. */
  function DeleteExistingImage(f: Form, index: int): (r: Form)
    ensures r.producto.images == RemoveAt(f.producto.images, index)
    ensures r.newImages == f.newImages && r.sheet == f.sheet
    ensures r.producto == f.producto.(images := r.producto.images)
  {
    f.(producto := f.producto.(images := RemoveAt(f.producto.images, index)))
  }

  /** `handleDeleteNewImage`: removes one pending file, stored images untouched. */
  function DeleteNewImage(f: Form, index: int): (r: Form)
    ensures r.newImages == RemoveAt(f.newImages, index)
    ensures r.producto == f.producto && r.sheet == f.sheet
  {
    f.(newImages := RemoveAt(f.newImages, index))
  }

  /** `handleTechnicalSheetChange`: a chosen file replaces whatever the sheet was. */
  function ChangeSheet(f: Form, file: Option<NewFile>): (r: Form)
    ensures file.None? ==> r == f
    ensures file.Some? ==> r == f.(sheet := SheetState(file, None, false))
  {
    if file.Some? then f.(sheet := SheetState(file, None, false)) else f
  }

  /** `handleDeleteTechnicalSheet`. */
  function DeleteSheet(f: Form): (r: Form)
    ensures SheetPayload(r.sheet) == JNull
    ensures r.producto == f.producto && r.newImages == f.newImages
  {
    f.(sheet := SheetState(None, None, true))
  }

  /** Dropping a newly chosen sheet file, which also forgets a stored URL. */
  function CancelSheetFile(f: Form): (r: Form)
    ensures SheetPayload(r.sheet) == JNull && !r.sheet.isDeleted
    ensures r.producto == f.producto && r.newImages == f.newImages
  {
    f.(sheet := SheetState(None, None, false))
  }

  /** After a load, the sheet sent is the first stored sheet's document until the user
      picks a file or deletes it. */
  lemma LoadedSheetSent(f: Form, p: Producto)
    requires |p.technicalSheets| > 0 && p.technicalSheets[0].documents != ""
    ensures var d := p.technicalSheets[0].documents;
      SheetPayload(Loaded(f, p).sheet) == FileJson(LastSegment(d), d)
  {
  }

  /** Which field of a characteristic the editor changes: "name" is the
      `characteristic` text. */
  datatype CharField = Name | Description

  /** `handleCharacteristicChange`: one field of one characteristic takes the new text. */
  function ChangeCharacteristic(f: Form, index: nat, field: CharField, value: string): (r: Form)
    requires index < |f.producto.characteristics|
    ensures var cs := f.producto.characteristics; var rs := r.producto.characteristics;
      && |rs| == |cs|
      && (forall i :: 0 <= i < |cs| && i != index ==> rs[i] == cs[i])
      && rs[index].uuid == cs[index].uuid
      && (field == Name ==> rs[index] == cs[index].(characteristic := value))
      && (field == Description ==> rs[index] == cs[index].(description := value))
    ensures r == f.(producto := f.producto.(characteristics := r.producto.characteristics))
  {
    var cs := f.producto.characteristics;
    var c := if field == Name then cs[index].(characteristic := value) else cs[index].(description := value);
    f.(producto := f.producto.(characteristics := cs[index := c]))
  }

  /** `addCharacteristic`, `freshId` standing for the clock-based id. */
  function AddCharacteristic(f: Form, freshId: string): (r: Form)
    ensures r.producto.characteristics == f.producto.characteristics + [Characteristic(freshId, "", "")]
    ensures r == f.(producto := f.producto.(characteristics := r.producto.characteristics))
  {
    f.(producto := f.producto.(characteristics := f.producto.characteristics + [Characteristic(freshId, "", "")]))
  }

  /** `removeCharacteristic`. */
  function RemoveCharacteristic(f: Form, index: int): (r: Form)
    ensures r.producto.characteristics == RemoveAt(f.producto.characteristics, index)
    ensures r == f.(producto := f.producto.(characteristics := r.producto.characteristics))
  {
    f.(producto := f.producto.(characteristics := RemoveAt(f.producto.characteristics, index)))
  }

  /** Adding a characteristic and removing the last one restores the form. */
  lemma AddThenRemoveCharacteristic(f: Form, freshId: string)
    ensures RemoveCharacteristic(AddCharacteristic(f, freshId), |f.producto.characteristics|) == f
  {
    var cs := f.producto.characteristics;
    assert RemoveAt(cs + [Characteristic(freshId, "", "")], |cs|) == cs;
  }

  /** Deleting the i-th stored image drops exactly the i-th entry of the body's image
      list and shifts the rest; new files keep their entries. */
  lemma DeleteImageInPayload(f: Form, index: nat)
    requires index < |f.producto.images|
    ensures var before := ImagesPayload(f.producto.images, f.newImages);
      ImagesPayload(DeleteExistingImage(f, index).producto.images, f.newImages) == before[..index] + before[index + 1..]
  {
    var imgs := f.producto.images;
    var kept := RemoveAt(imgs, index);
    var before := ImagesPayload(imgs, f.newImages);
    var after := ImagesPayload(kept, f.newImages);
    var want := before[..index] + before[index + 1..];
    assert |after| == |want|;
    forall k | 0 <= k < |after|
      ensures after[k] == want[k]
    {
      if k < index {
        assert after[k] == FileJson(LastSegment(kept[k]), kept[k]);
      } else if k < |kept| {
        assert after[k] == FileJson(LastSegment(kept[k]), kept[k]);
        assert kept[k] == imgs[k + 1];
      } else {
        var j := k - |kept|;
        assert after[k] == FileJson(f.newImages[j].name, f.newImages[j].content);
        assert before[|imgs| + j] == after[k];
      }
    }
  }
}
