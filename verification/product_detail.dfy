/** The product detail pages: `DetalleProducto/Detalle.tsx`, which shows a fetched
    product with title-cased labels, three long texts cut to thirty words in sentence
    case, an IVA line and numbered documents; and the earlier static
    `components/DetalleProducto/Detalle.tsx`, whose description is cut to a hundred
    words. Both put a "Ver más" / "Ver menos" link under a text only when it was cut.
 */
module ProductDetail {
  import opened Results
  import opened Text
  import opened Words

  const DetailWordLimit: nat := 30
  const StaticWordLimit: nat := 100

  /** A long text as drawn: the text shown and the toggle link's label, if any. */
  datatype LongText = LongText(shown: string, toggle: Option<string>)

  /** A long text with a word limit: the first `limit` words unless the full text is
      asked for; the link, labelled by the state it would switch to, only when the text
      has more words than the limit. */
  function Long(text: string, limit: nat, showFull: bool): (r: LongText)
    requires limit >= 1
    ensures r.toggle.Some? <==> WordCount(text) > limit
    ensures r.toggle.Some? ==> r.toggle.value == if showFull then "Ver menos" else "Ver más"
    ensures showFull ==> r.shown == text
    ensures !showFull ==> r.shown <= text && WordCount(r.shown) == (if limit < WordCount(text) then limit else WordCount(text))
  {
    FirstWordsSpec(text, limit);
    LongText(if showFull then text else FirstWords(text, limit),
             if WordCount(text) > limit then Some(if showFull then "Ver menos" else "Ver más") else None)
  }

  /** The link is offered exactly when the cut text differs from the full text, so the
      link always reveals or hides something. */
  lemma ToggleIffCut(text: string, limit: nat)
    requires limit >= 1
    ensures Long(text, limit, false).toggle.Some? <==> Long(text, limit, false).shown != text
    ensures Long(text, limit, false).toggle.Some? <==> Long(text, limit, true).toggle.Some?
  {
    FirstWordsSpec(text, limit);
  }

  /** Clicking the link twice gives back what was drawn. */
  lemma ToggleTwice(text: string, limit: nat, showFull: bool)
    requires limit >= 1
    ensures Long(text, limit, !!showFull) == Long(text, limit, showFull)
    ensures Long(text, limit, !showFull).shown != Long(text, limit, showFull).shown ==> WordCount(text) > limit
  {
    FirstWordsSpec(text, limit);
  }

  /** The fetched product, with the fields the details panel reads. */
  datatype ProductData = ProductData(
    genericName: string, commercialName: string, brandName: string,
    description: string, composition: string, measurement: string, formulation: string,
    reference: string, use: string, sanitizeMethod: string, iva: bool,
    technicalSheets: seq<string>)

  /** Which of the three long texts are expanded. */
  datatype Expanded = Expanded(description: bool, composition: bool, use: bool)

  /** `ProductDetails`, as text. */
  datatype Panel = Panel(
    title: string, commercialName: string, brand: string,
    description: LongText, composition: LongText,
    measurement: string, formulation: string, reference: string, use: LongText,
    sanitizeMethod: string, iva: string)

  /** A long text of the detail panel: thirty words at most, then sentence case. */
  function DetailText(text: string, showFull: bool): (r: LongText)
    ensures r.toggle == Long(text, DetailWordLimit, showFull).toggle
    ensures r.shown == SentenceCase(Long(text, DetailWordLimit, showFull).shown)
    ensures |r.shown| <= |text| && (showFull ==> |r.shown| == |text|)
  {
    var l := Long(text, DetailWordLimit, showFull);
    SentenceCaseSpec(l.shown);
    LongText(SentenceCase(l.shown), l.toggle)
  }

  /** The IVA line. */
  function IvaLabel(iva: bool): (r: string)
    ensures r == "Sí" <==> iva
    ensures r in {"Sí", "No"}
  {
    if iva then "Sí" else "No"
  }

  function Details(p: ProductData, e: Expanded): (d: Panel)
    ensures d.title == TitleCase(p.genericName) && d.commercialName == TitleCase(p.commercialName) && d.brand == TitleCase(p.brandName)
    ensures d.measurement == TitleCase(p.measurement) && d.formulation == TitleCase(p.formulation)
    ensures d.reference == TitleCase(p.reference) && d.sanitizeMethod == TitleCase(p.sanitizeMethod)
    ensures d.description == DetailText(p.description, e.description)
    ensures d.composition == DetailText(p.composition, e.composition)
    ensures d.use == DetailText(p.use, e.use)
    ensures d.iva == IvaLabel(p.iva)
  {
    Panel(TitleCase(p.genericName), TitleCase(p.commercialName), TitleCase(p.brandName),
          DetailText(p.description, e.description), DetailText(p.composition, e.composition),
          TitleCase(p.measurement), TitleCase(p.formulation), TitleCase(p.reference),
          DetailText(p.use, e.use), TitleCase(p.sanitizeMethod), IvaLabel(p.iva))
  }

  /** Every title-cased label keeps its text up to case (a word-initial micro sign comes
      back as the Greek mu) and keeps its word count; a cut text shown collapsed is the
      sentence-cased first thirty words. */
  lemma DetailsFaithful(p: ProductData, e: Expanded)
    ensures var d := Details(p, e);
      && LowerStr(d.title) == LowerRecapped(p.genericName) && WordCount(d.title) == WordCount(p.genericName)
      && LowerStr(d.brand) == LowerRecapped(p.brandName) && WordCount(d.brand) == WordCount(p.brandName)
    ensures !e.description ==> Details(p, e).description.shown == SentenceCase(FirstWords(p.description, DetailWordLimit))
  {
    TitleCaseLower(p.genericName);
    TitleCaseWords(p.genericName);
    TitleCaseLower(p.brandName);
    TitleCaseWords(p.brandName);
  }

  /** A document's link text: "Documento " and its position counted from one. */
  function DocumentLabel(index: nat): (r: string)
    ensures |r| > 10 && r[..10] == "Documento "
    ensures forall k :: 10 <= k < |r| ==> IsDigit(r[k])
    ensures var digits := r[10..]; forall k :: 0 <= k < |digits| ==> IsDigit(digits[k])
    ensures var digits := r[10..]; ParseDigits(digits) == index + 1
  {
    NatToStringRoundTrip(index + 1);
    var r := "Documento " + NatToString(index + 1);
    assert r[10..] == NatToString(index + 1);
    r
  }

  /** The document list: one link per sheet, to the API base address followed by the
      stored path; `None` when there are no documents and the panel says so. */
  datatype DocLink = DocLink(caption: string, href: string)

  function Documents(base: string, sheets: seq<string>): (r: Option<seq<DocLink>>)
    ensures r.None? <==> sheets == []
    ensures r.Some? ==> |r.value| == |sheets|
    ensures r.Some? ==> forall i :: 0 <= i < |sheets| ==> r.value[i] == DocLink(DocumentLabel(i), base + sheets[i])
  {
    if sheets == [] then None
    else Some(seq(|sheets|, i requires 0 <= i < |sheets| => DocLink(DocumentLabel(i), base + sheets[i])))
  }

  /** Different positions get different labels. */
  lemma DocumentLabelsDistinct(i: nat, j: nat)
    requires i != j
    ensures DocumentLabel(i) != DocumentLabel(j)
  {
  }

  /** The static page's description: a hundred words at most, shown as it is. */
  function StaticDescription(fullDescription: string, showFull: bool): (r: LongText)
    ensures r == Long(fullDescription, StaticWordLimit, showFull)
    ensures r.toggle.None? ==> r.shown == fullDescription
  {
    FirstWordsSpec(fullDescription, StaticWordLimit);
    Long(fullDescription, StaticWordLimit, showFull)
  }

  /** A text cut to a hundred words keeps its first thirty: the two pages agree on the
      leading part of a description. */
  lemma ThirtyWithinHundred(text: string)
    ensures FirstWords(StaticDescription(text, false).shown, DetailWordLimit) == FirstWords(text, DetailWordLimit)
  {
    FirstWordsNested(text, DetailWordLimit, StaticWordLimit);
  }
}
