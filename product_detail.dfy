/** The product page of the React client: it fetches `GET /products/:slug`,
    redirects to the list when that fails or yields nothing, and otherwise
    shows one image and the fields of the current language. React's state
    cycle is collapsed into one function from the route parameter, the fetch
    result and the i18n language to what the page shows. */
module ProductDetailPage {
  import opened Base
  import opened Schema
  import opened PublicProducts

  const Placeholder := "/placeholder.svg"
  const DevServer := "http://localhost:5000"

  /** `images.find(img => img.image_url)?.image_url || '/placeholder.svg'` */
  function ChosenImage(images: seq<ImageView>): (r: string)
    ensures (forall i :: 0 <= i < |images| ==> images[i].url == "") ==> r == Placeholder
    ensures (exists i :: 0 <= i < |images| && images[i].url != "") ==>
      exists i :: 0 <= i < |images| && images[i].url == r && r != "" &&
        forall j :: 0 <= j < i ==> images[j].url == ""
  {
    if images == [] then Placeholder
    else if images[0].url != "" then images[0].url
    else
      var r := ChosenImage(images[1..]);
      assert forall i :: 1 <= i < |images| ==> images[i] == images[1..][i - 1];
      r
  }

  /** `primaryImage.startsWith('http') ? primaryImage : 'http://localhost:5000' + primaryImage` */
  function ImageUrl(chosen: string): (r: string)
    ensures StartsWith(chosen, "http") ==> r == chosen
    ensures !StartsWith(chosen, "http") ==> r == DevServer + chosen
    ensures StartsWith(r, "http")
  {
    if StartsWith(chosen, "http") then chosen
    else
      assert (DevServer + chosen)[..4] == "http";
      DevServer + chosen
  }

  /** `i18n.language || 'en'` read as the suffix of a column name. */
  function FieldLocale(lang: string): (r: Option<Locale>)
    ensures lang == "" ==> r == Some(En)
    ensures lang != "" ==> r == LocaleOf(lang)
  {
    LocaleOf(if lang == "" then "en" else lang)
  }

  /** `String(record[field + '_' + lang])`: the column of the language, or the
      text `undefined` when no column has that suffix. */
  function Shown(lang: string, v: Localized<string>): (r: string)
    ensures FieldLocale(lang).Some? ==> r == v.Pick(FieldLocale(lang).value)
    ensures FieldLocale(lang).None? ==> r == "undefined"
  {
    match FieldLocale(lang)
    case None => "undefined"
    case Some(l) => v.Pick(l)
  }

  /** The same for a nullable column: SQL NULL shows as `null`. */
  function ShownOrNull(lang: string, v: Localized<Option<string>>): (r: string)
    ensures FieldLocale(lang).Some? && v.Pick(FieldLocale(lang).value).Some? ==>
      r == v.Pick(FieldLocale(lang).value).value
    ensures FieldLocale(lang).Some? && v.Pick(FieldLocale(lang).value).None? ==> r == "null"
    ensures FieldLocale(lang).None? ==> r == "undefined"
  {
    match FieldLocale(lang)
    case None => "undefined"
    case Some(l) => if v.Pick(l).Some? then v.Pick(l).value else "null"
  }

  /** One table row of specifications or packaging: label (`caption`, as
      `label` is a reserved word in Dafny) and value. */
  datatype Line = Line(caption: string, value: string)

  function ShownLines(lang: string, lines: seq<ChildInput>): (r: seq<Line>)
    ensures |r| == |lines|
    ensures forall k :: 0 <= k < |lines| ==>
      r[k] == Line(Shown(lang, lines[k].labels), Shown(lang, lines[k].values))
  {
    seq(|lines|, k requires 0 <= k < |lines| =>
      Line(Shown(lang, lines[k].labels), Shown(lang, lines[k].values)))
  }

  /** What the page shows of a product. */
  datatype View = View(
    image: string,
    title: string,
    category: string,
    description: string,
    specifications: seq<Line>,
    packaging: seq<Line>,
    certifications: seq<string>)

  function ViewOf(p: ProductDetail, lang: string): View {
    View(ImageUrl(ChosenImage(p.images)),
         Shown(lang, p.row.title), ShownOrNull(lang, p.row.category), Shown(lang, p.row.description),
         ShownLines(lang, p.specifications), ShownLines(lang, p.packaging),
         seq(|p.certifications|, k requires 0 <= k < |p.certifications| => p.certifications[k].name))
  }

  /** The outcome of `productsAPI.getBySlug`: a body (possibly empty), or an
      error with the HTTP status when the server answered. */
  datatype Fetch = Fetched(body: Option<ProductDetail>) | FetchFailed(status: Option<nat>)

  /** What an API reply becomes on the client. */
  function FetchOf(r: Reply<ProductDetail>): Fetch {
    match r
    case Ok(_, body) => Fetched(Some(body))
    case Fail(status, _) => FetchFailed(Some(status))
  }

  datatype Screen = Spinner | Redirect(to: string) | Page(view: View)

  /** The page after its effect has settled. Without an `:id` the fetch never
      starts and `loading` stays true; a failed fetch (404 or any other) or an
      empty body sends the visitor back to `/products`. */
  function Render(id: Option<string>, fetch: Fetch, lang: string): (s: Screen)
    ensures id.None? || id.value == "" ==> s == Spinner
    ensures s.Redirect? <==> id.Some? && id.value != "" && (fetch.FetchFailed? || fetch.body.None?)
    ensures s.Redirect? ==> s.to == "/products"
    ensures s.Page? ==> fetch.Fetched? && fetch.body.Some? && s.view == ViewOf(fetch.body.value, lang)
  {
    if id.None? || id.value == "" then Spinner
    else match fetch
      case FetchFailed(_) => Redirect("/products")
      case Fetched(None) => Redirect("/products")
      case Fetched(Some(p)) => Page(ViewOf(p, lang))
  }

  /** A slug that names no active product leads back to the list. */
  lemma UnknownSlugRedirects(c: Catalog, certs: seq<Certification>, slug: string, base: string, lang: string)
    requires Valid(c) && slug != ""
    requires forall p :: p in c.products ==> !(p.slug == slug && p.active)
    ensures Render(Some(slug), FetchOf(Detail(c, certs, slug, base)), lang) == Redirect("/products")
  {
  }

  /** With the server's base URL (an `http` address), a product with images
      shows the first returned image at the server's address, unchanged. */
  lemma ServerImageShown(p: ProductDetail, base: string, imgs: seq<ImageRow>)
    requires StartsWith(base, "http") && imgs != []
    requires p.images == Prefixed(base, imgs)
    ensures ImageUrl(ChosenImage(p.images)) == base + imgs[0].url
  {
    assert p.images[0].url == base + imgs[0].url;
    assert (base + imgs[0].url)[..|"http"|] == base[..|"http"|];
  }

  /** The fields shown are the columns of the current language, for each of
      the three languages and for an empty language, which means English. */
  lemma LocalizedFields(p: ProductDetail, l: Locale)
    ensures ViewOf(p, CodeOf(l)).title == p.row.title.Pick(l)
    ensures ViewOf(p, CodeOf(l)).description == p.row.description.Pick(l)
    ensures ViewOf(p, "").title == p.row.title.en
    ensures forall k :: 0 <= k < |p.specifications| ==>
      ViewOf(p, CodeOf(l)).specifications[k] ==
        Line(p.specifications[k].labels.Pick(l), p.specifications[k].values.Pick(l))
  {
    LocaleCodeRoundTrip(l);
  }
}
