/** The public catalogue routes of the Express server: the filtered, ordered
    and localised product list, the detail of one active product by slug, and
    the distinct categories of one language. The language code is spliced into
    column names, which MySQL matches without regard to case; a code that
    names no column makes the query fail. */
module PublicProducts {
  import opened Base
  import opened Sorting
  import opened Schema

  /** The query string of `GET /products`; `None` is an absent parameter. */
  datatype ListQuery = ListQuery(category: Option<string>, featured: Option<string>, active: Option<string>, lang: Option<string>)

  /** `lang = 'en'` destructuring default: it applies only to an absent
      parameter. A given code names a column in any letter case; one that
      names no column (the empty one included) is a failing query. */
  function QueryLocale(lang: Option<string>): (r: Option<Locale>)
    ensures lang.None? ==> r == Some(En)
    ensures lang.Some? ==> forall l :: r == Some(l) <==> AsciiLower(lang.value) == CodeOf(l)
  {
    if lang.None? then Some(En) else ColumnLocale(lang.value)
  }

  /** The select list of `GET /products` as the source builds it: the code is
      pasted into the query text unescaped. */
  function SelectListAsWritten(lang: string): string {
    TitleHead + lang + AfterTitle(lang)
  }

  const TitleHead := "p.id, p.slug, p.featured, p.active, p.title_"

  /** The rest of the select list after the title column's code. */
  function AfterTitle(lang: string): string {
    " as title, p.category_" + lang + " as category, p.description_" + lang +
    " as description, p.created_at, p.updated_at"
  }

  /** A subquery that reads a password hash. */
  const PasswordProbe := "(SELECT password_hash FROM users LIMIT 1)"

  /** A `lang` value that closes the title column and opens a column of its own. */
  const InjectedLang := "en as title, " + PasswordProbe + " as h, p.title_en"

  /** The code reaches the query text verbatim. */
  lemma PastedVerbatim(lang: string)
    ensures OccursAt(SelectListAsWritten(lang), lang, |TitleHead|)
  {
    OccursInMiddle(TitleHead, lang, AfterTitle(lang));
  }

  /** As written, a code that names no language still reaches the query and
      puts its own SQL into the select list: with `InjectedLang` the list
      reads a password hash and remains valid SQL. */
  lemma LangInjectsSql()
    ensures ColumnLocale(InjectedLang).None?
    ensures Contains(SelectListAsWritten(InjectedLang), PasswordProbe)
  {
    var head := "en as title, ";
    OccursInMiddle(head, PasswordProbe, " as h, p.title_en");
    PastedVerbatim(InjectedLang);
    OccursWithin(SelectListAsWritten(InjectedLang), InjectedLang, PasswordProbe, |TitleHead|, |head|);
    forall l ensures AsciiLower(InjectedLang) != CodeOf(l) {
      assert |CodeOf(l)| == 2;
    }
  }

  /** The corrected select list: built only for a code that names a locale,
      from that locale's own code, so whatever the request sends the query
      text is one of three fixed texts, the same ones the source builds for
      the lower-case codes. */
  function SelectList(lang: Option<string>): (r: Option<string>)
    ensures r.Some? <==> QueryLocale(lang).Some?
    ensures r.Some? ==> r.value in {SelectListAsWritten("en"), SelectListAsWritten("fr"), SelectListAsWritten("ar")}
    ensures lang.Some? && lang.value in ["en", "fr", "ar"] ==> r == Some(SelectListAsWritten(lang.value))
  {
    match QueryLocale(lang)
    case None => None
    case Some(l) =>
      if lang.Some? && lang.value in ["en", "fr", "ar"] then
        LowerCodeNamesItself(lang.value);
        Some(SelectListAsWritten(CodeOf(l)))
      else
        Some(SelectListAsWritten(CodeOf(l)))
  }

  lemma LowerCodeNamesItself(code: string)
    requires code in ["en", "fr", "ar"]
    ensures ColumnLocale(code).Some? && CodeOf(ColumnLocale(code).value) == code
  {
    if code == "en" { ColumnLocaleCases(En); }
    else if code == "fr" { ColumnLocaleCases(Fr); }
    else { ColumnLocaleCases(Ar); }
  }

  /** The corrected list refuses the injected code. */
  lemma InjectionRefused()
    ensures SelectList(Some(InjectedLang)).None?
  {
    LangInjectsSql();
  }

  /** A `WHERE` condition appended to the list query, with its parameter. */
  datatype Clause = CategoryEnIs(category: string) | FeaturedIs(featured: bool) | ActiveIs(active: bool)

  predicate Holds(p: ProductRow, clause: Clause) {
    match clause
    case CategoryEnIs(cat) => p.category.en == Some(cat)
    case FeaturedIs(f) => p.featured == f
    case ActiveIs(a) => p.active == a
  }

  predicate HoldsAll(p: ProductRow, clauses: seq<Clause>) {
    forall k :: 0 <= k < |clauses| ==> Holds(p, clauses[k])
  }

  /** Which products the list returns, stated as the route's documented
      filters: the category is compared with the English column whatever the
      language, `featured` and `active` compare with `=== 'true'`, and without
      an `active` parameter only active products are listed. */
  predicate Listed(p: ProductRow, q: ListQuery) {
    && (q.category.Some? && q.category.value != "" ==> p.category.en == Some(q.category.value))
    && (q.featured.Some? ==> p.featured == (q.featured.value == "true"))
    && (q.active.Some? ==> p.active == (q.active.value == "true"))
    && (q.active.None? ==> p.active)
  }

  /** The `sql += ...; params.push(...)` builder, one clause at a time. */
  method BuildFilter(q: ListQuery) returns (clauses: seq<Clause>)
    ensures forall p :: HoldsAll(p, clauses) <==> Listed(p, q)
  {
    clauses := [];
    if q.category.Some? && q.category.value != "" {
      clauses := clauses + [CategoryEnIs(q.category.value)];
    }
    if q.featured.Some? {
      clauses := clauses + [FeaturedIs(q.featured.value == "true")];
    }
    if q.active.Some? {
      clauses := clauses + [ActiveIs(q.active.value == "true")];
    } else {
      clauses := clauses + [ActiveIs(true)];
    }
    forall p ensures HoldsAll(p, clauses) <==> Listed(p, q) {
      if Listed(p, q) {
        assert HoldsAll(p, clauses);
      } else {
        assert !HoldsAll(p, clauses) by {
          if q.category.Some? && q.category.value != "" && p.category.en != Some(q.category.value) {
            assert !Holds(p, clauses[0]);
          } else if q.featured.Some? && p.featured != (q.featured.value == "true") {
            var k := if q.category.Some? && q.category.value != "" then 1 else 0;
            assert !Holds(p, clauses[k]);
          } else {
            assert !Holds(p, clauses[|clauses| - 1]);
          }
        }
      }
    }
  }

  /** `ORDER BY p.featured DESC, p.created_at DESC` */
  predicate FeaturedThenNewest(a: ProductRow, b: ProductRow) {
    (a.featured && !b.featured) || (a.featured == b.featured && a.createdAt >= b.createdAt)
  }

  lemma FeaturedThenNewestTotalPreorder()
    ensures TotalPreorder(FeaturedThenNewest)
  {
  }

  /** A listed product: the columns of one language and the primary image. */
  datatype ListedProduct = ListedProduct(
    id: nat,
    slug: string,
    featured: bool,
    active: bool,
    title: string,
    category: Option<string>,
    description: string,
    createdAt: int,
    updatedAt: int,
    image: Option<string>)

  /** The `title_${lang} as title, ...` projection with the image URL. */
  function Project(p: ProductRow, l: Locale, image: Option<string>): (r: ListedProduct)
    ensures r.id == p.id && r.title == p.title.Pick(l) && r.category == p.category.Pick(l)
    ensures r.description == p.description.Pick(l) && r.image == image
  {
    ListedProduct(p.id, p.slug, p.featured, p.active, p.title.Pick(l), p.category.Pick(l),
                  p.description.Pick(l), p.createdAt, p.updatedAt, image)
  }

  function ListedRows(products: seq<ProductRow>, q: ListQuery): seq<ProductRow> {
    SortBy(Filter(products, (p: ProductRow) => Listed(p, q)), FeaturedThenNewest)
  }

  /** Each row projected to one locale, with its primary image resolved
      against `base`. */
  function Resolved(rows: seq<ProductRow>, l: Locale, images: map<nat, seq<ImageRow>>, base: string): seq<ListedProduct> {
    seq(|rows|, k requires 0 <= k < |rows| => Project(rows[k], l, PrimaryImageUrl(images, rows[k].id, base)))
  }

  /** The loop over the rows that looks up each product's primary image. */
  method ResolveImages(rows: seq<ProductRow>, l: Locale, images: map<nat, seq<ImageRow>>, base: string)
    returns (out: seq<ListedProduct>)
    ensures out == Resolved(rows, l, images, base)
  {
    out := [];
    var i := 0;
    while i < |rows|
      invariant 0 <= i <= |rows| && |out| == i
      invariant forall k :: 0 <= k < i ==> out[k] == Project(rows[k], l, PrimaryImageUrl(images, rows[k].id, base))
    {
      out := out + [Project(rows[i], l, PrimaryImageUrl(images, rows[i].id, base))];
      i := i + 1;
    }
  }

  /** The list response of one locale, the images resolved against `base`. */
  function Listing(c: Catalog, q: ListQuery, l: Locale, base: string): seq<ListedProduct> {
    Resolved(ListedRows(c.products, q), l, c.images, base)
  }

  /** `GET /products`: the filter is built, the rows are read in order, then
      the loop resolves each row's primary image. */
  method List(c: Catalog, q: ListQuery, base: string) returns (r: Reply<seq<ListedProduct>>)
    ensures r.Fail? <==> QueryLocale(q.lang).None?
    ensures r.Fail? ==> r == Fail(500, ServerError)
    ensures r.Ok? ==> r == Ok(200, Listing(c, q, QueryLocale(q.lang).value, base))
  {
    var l := QueryLocale(q.lang);
    if l.None? {
      return Fail(500, ServerError);
    }
    var clauses := BuildFilter(q);
    var rows := SortBy(Filter(c.products, (p: ProductRow) => HoldsAll(p, clauses)), FeaturedThenNewest);
    FilterExt(c.products, (p: ProductRow) => HoldsAll(p, clauses), (p: ProductRow) => Listed(p, q));
    assert rows == ListedRows(c.products, q);
    var out := ResolveImages(rows, l.value, c.images, base);
    r := Ok(200, out);
  }

  /** The list holds exactly the products the filters admit, each once, in
      `featured DESC, created_at DESC` order. */
  lemma ListedRowsSound(products: seq<ProductRow>, q: ListQuery)
    ensures multiset(ListedRows(products, q)) == multiset(Filter(products, (p: ProductRow) => Listed(p, q)))
    ensures Sorted(ListedRows(products, q), FeaturedThenNewest)
    ensures forall p :: p in ListedRows(products, q) <==> p in products && Listed(p, q)
  {
    var f := Filter(products, (p: ProductRow) => Listed(p, q));
    FeaturedThenNewestTotalPreorder();
    SortBySorted(f, FeaturedThenNewest);
    SortByMembers(f, FeaturedThenNewest);
  }

  /** Without an `active` parameter no inactive product is ever listed. */
  lemma DefaultListIsActive(c: Catalog, q: ListQuery, l: Locale, base: string)
    requires q.active.None?
    ensures forall v :: v in Listing(c, q, l, base) ==> v.active
  {
    ListedRowsSound(c.products, q);
    forall v | v in Listing(c, q, l, base) ensures v.active {
      var k :| 0 <= k < |Listing(c, q, l, base)| && Listing(c, q, l, base)[k] == v;
      assert ListedRows(c.products, q)[k] in ListedRows(c.products, q);
    }
  }

  /** Every item's image is the base URL plus a primary image of that
      product, and null exactly when it has none. */
  lemma ListingImages(c: Catalog, q: ListQuery, l: Locale, base: string)
    ensures forall k :: 0 <= k < |Listing(c, q, l, base)| ==>
      var v := Listing(c, q, l, base)[k];
      && (v.image.None? <==> forall img :: img in ImagesOf(c.images, v.id) ==> !img.isPrimary)
      && (v.image.Some? ==> exists img :: img in ImagesOf(c.images, v.id) && img.isPrimary && v.image.value == base + img.url)
  {
  }

  /** The `p.slug = ? AND p.active = 1` lookup: the first matching row. */
  function FindActiveBySlug(products: seq<ProductRow>, slug: string): (r: Option<ProductRow>)
    ensures r.Some? ==> r.value in products && r.value.slug == slug && r.value.active
    ensures r.None? <==> forall p :: p in products ==> !(p.slug == slug && p.active)
  {
    if products == [] then None
    else if products[0].slug == slug && products[0].active then Some(products[0])
    else FindActiveBySlug(products[1..], slug)
  }

  /** `GET /products/:slug`: every language's columns, the images (primary
      first, then by display order), the specification and packaging lines in
      order-index order, and the linked certifications. */
  datatype ProductDetail = ProductDetail(
    row: ProductRow,
    images: seq<ImageView>,
    specifications: seq<ChildInput>,
    packaging: seq<ChildInput>,
    certifications: seq<Certification>)

  function Detail(c: Catalog, certs: seq<Certification>, slug: string, base: string): (r: Reply<ProductDetail>)
    requires Valid(c)
    ensures r.Fail? <==> forall p :: p in c.products ==> !(p.slug == slug && p.active)
    ensures r.Fail? ==> r == Fail(404, "Product not found")
    ensures r.Ok? ==> r.status == 200 && r.body.row in c.products && r.body.row.slug == slug && r.body.row.active
    ensures r.Ok? ==> Sorted(r.body.images, ViewLe)
    ensures r.Ok? ==> forall v :: v in r.body.images <==> v in Prefixed(base, c.images[r.body.row.id])
    ensures r.Ok? ==> forall x :: x in r.body.certifications <==> x in certs && x.id in c.links[r.body.row.id]
    ensures r.Ok? ==> r.body.specifications == Lines(c.specs[r.body.row.id])
    ensures r.Ok? ==> r.body.packaging == Lines(c.packs[r.body.row.id])
  {
    match FindActiveBySlug(c.products, slug)
    case None => Fail(404, "Product not found")
    case Some(p) =>
      StampedInOrder(c.specs[p.id]);
      StampedInOrder(c.packs[p.id]);
      ImagesInOrderSorted(base, c.images[p.id]);
      PrefixedMembers(base, c.images[p.id], ImagesInOrder(c.images[p.id]));
      Ok(200, ProductDetail(p, Prefixed(base, ImagesInOrder(c.images[p.id])),
                            Lines(InOrder(c.specs[p.id])), Lines(InOrder(c.packs[p.id])),
                            Joined(c.links[p.id], certs)))
  }

  /** `is_primary DESC, display_order ASC` on the returned images. */
  predicate ViewLe(a: ImageView, b: ImageView) {
    || (a.isPrimary && !b.isPrimary)
    || (a.isPrimary == b.isPrimary && a.displayOrder.Some? && b.displayOrder.Some? &&
        a.displayOrder.value <= b.displayOrder.value)
  }

  lemma ImagesInOrderSorted(base: string, imgs: seq<ImageRow>)
    ensures Sorted(Prefixed(base, ImagesInOrder(imgs)), ViewLe)
  {
    ImageLeTotalPreorder();
    SortBySorted(imgs, ImageLe);
  }

  /* ---------- categories ---------- */

  /** First occurrences only (`SELECT DISTINCT`). */
  function Distinct<T(==,!new)>(s: seq<T>): (r: seq<T>)
    ensures forall x :: x in r <==> x in s
    ensures forall i, j :: 0 <= i < j < |r| ==> r[i] != r[j]
  {
    if s == [] then []
    else if s[|s| - 1] in s[..|s| - 1] then Distinct(s[..|s| - 1])
    else
      assert forall x :: x in s <==> x in s[..|s| - 1] || x == s[|s| - 1] by {
        assert s == s[..|s| - 1] + [s[|s| - 1]];
      }
      Distinct(s[..|s| - 1]) + [s[|s| - 1]]
  }

  /** The non-null category values of active products, in table order. */
  function CategoryValues(products: seq<ProductRow>, l: Locale): (r: seq<string>)
    ensures forall s :: s in r <==> exists p :: p in products && p.active && p.category.Pick(l) == Some(s)
  {
    if products == [] then []
    else
      var rest := CategoryValues(products[1..], l);
      assert forall p :: p in products <==> p == products[0] || p in products[1..];
      var p := products[0];
      if p.active && p.category.Pick(l).Some? then [p.category.Pick(l).value] + rest else rest
  }

  function Categories(products: seq<ProductRow>, l: Locale): seq<string> {
    SortBy(Distinct(CategoryValues(products, l)), StrLe)
  }


  /** The category list: each non-null localised category of an active
      product exactly once, in ascending order. */
  lemma CategoriesSound(products: seq<ProductRow>, l: Locale)
    ensures forall s :: s in Categories(products, l) <==> exists p :: p in products && p.active && p.category.Pick(l) == Some(s)
    ensures Sorted(Categories(products, l), StrLe)
    ensures forall i, j :: 0 <= i < j < |Categories(products, l)| ==> Categories(products, l)[i] != Categories(products, l)[j]
  {
    var d := Distinct(CategoryValues(products, l));
    Schema.StrLeTotalPreorder();
    SortBySorted(d, StrLe);
    SortByMembers(d, StrLe);
    SortedDistinct(Categories(products, l), d);
  }

  /** A permutation of a sequence without repeats has no repeats. */
  lemma SortedDistinct<T>(r: seq<T>, d: seq<T>)
    requires multiset(r) == multiset(d)
    requires forall i, j :: 0 <= i < j < |d| ==> d[i] != d[j]
    ensures forall i, j :: 0 <= i < j < |r| ==> r[i] != r[j]
  {
    forall x | x in multiset(d) ensures multiset(d)[x] == 1 {
      CountOne(d, x);
    }
    forall i, j | 0 <= i < j < |r| ensures r[i] != r[j] {
      Occurrences(r, i, j);
      assert r[i] in multiset(d);
    }
  }

  lemma Occurrences<T>(r: seq<T>, i: nat, j: nat)
    requires i < j < |r|
    ensures multiset(r)[r[i]] >= if r[i] == r[j] then 2 else 1
  {
    assert r == r[..i] + [r[i]] + r[i + 1..j] + [r[j]] + r[j + 1..];
  }

  lemma {:induction false} CountOne<T>(d: seq<T>, x: T)
    requires forall i, j :: 0 <= i < j < |d| ==> d[i] != d[j]
    requires x in multiset(d)
    ensures multiset(d)[x] == 1
  {
    var k :| 0 <= k < |d| && d[k] == x;
    assert d == d[..k] + [x] + d[k + 1..];
    assert x !in d[..k] && x !in d[k + 1..];
    assert multiset(d) == multiset(d[..k]) + multiset{x} + multiset(d[k + 1..]);
  }

  /** `GET /products/meta/categories` */
  function CategoriesRoute(c: Catalog, lang: Option<string>): (r: Reply<seq<string>>)
    ensures r.Fail? <==> QueryLocale(lang).None?
    ensures r.Fail? ==> r == Fail(500, ServerError)
    ensures r.Ok? ==> r == Ok(200, Categories(c.products, QueryLocale(lang).value))
  {
    match QueryLocale(lang)
    case None => Fail(500, ServerError)
    case Some(l) => Ok(200, Categories(c.products, l))
  }
}
