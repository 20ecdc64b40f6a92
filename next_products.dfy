/** The public product list of the Next.js API: always active products only,
    the category compared in the requested language, and a featured filter that
    exists only for the exact value `'true'`. */
module NextProducts {
  import opened Base
  import opened Sorting
  import opened Schema
  import PublicProducts

  /** `searchParams.get(...)`: `None` when the parameter is absent. */
  datatype NextQuery = NextQuery(category: Option<string>, featured: Option<string>, lang: Option<string>)

  /** `searchParams.get('lang') || 'en'`: absent and empty both mean English;
      another code names a column in any letter case, and one that names no
      column makes the query fail. */
  function NextLocale(lang: Option<string>): (r: Option<Locale>)
    ensures lang.None? || lang == Some("") ==> r == Some(En)
    ensures lang.Some? && lang.value != "" ==> forall l :: r == Some(l) <==> AsciiLower(lang.value) == CodeOf(l)
  {
    if lang.None? || lang.value == "" then Some(En) else ColumnLocale(lang.value)
  }

  /** The conditions of the query text. */
  datatype Condition = ActiveOnly | CategoryIs(locale: Locale, category: string) | FeaturedOnly

  predicate Satisfies(p: ProductRow, cond: Condition) {
    match cond
    case ActiveOnly => p.active
    case CategoryIs(l, cat) => p.category.Pick(l) == Some(cat)
    case FeaturedOnly => p.featured
  }

  predicate SatisfiesAll(p: ProductRow, conds: seq<Condition>) {
    forall k :: 0 <= k < |conds| ==> Satisfies(p, conds[k])
  }

  /** The route's filter in its own words. */
  predicate Shown(p: ProductRow, q: NextQuery, l: Locale) {
    && p.active
    && (q.category.Some? && q.category.value != "" ==> p.category.Pick(l) == Some(q.category.value))
    && (q.featured == Some("true") ==> p.featured)
  }

  /** The `sql += ...` builder. */
  method BuildConditions(q: NextQuery, l: Locale) returns (conds: seq<Condition>)
    ensures |conds| >= 1 && conds[0] == ActiveOnly
    ensures forall p :: SatisfiesAll(p, conds) <==> Shown(p, q, l)
  {
    conds := [ActiveOnly];
    if q.category.Some? && q.category.value != "" {
      conds := conds + [CategoryIs(l, q.category.value)];
    }
    if q.featured == Some("true") {
      conds := conds + [FeaturedOnly];
    }
    forall p ensures SatisfiesAll(p, conds) <==> Shown(p, q, l) {
      if !Shown(p, q, l) {
        if !p.active {
          assert !Satisfies(p, conds[0]);
        } else if q.category.Some? && q.category.value != "" && p.category.Pick(l) != Some(q.category.value) {
          assert !Satisfies(p, conds[1]);
        } else {
          assert !Satisfies(p, conds[|conds| - 1]);
        }
      }
    }
  }

  function ShownRows(products: seq<ProductRow>, q: NextQuery, l: Locale): seq<ProductRow> {
    SortBy(Filter(products, (p: ProductRow) => Shown(p, q, l)), PublicProducts.FeaturedThenNewest)
  }

  function NextListing(c: Catalog, q: NextQuery, l: Locale, base: string): seq<PublicProducts.ListedProduct> {
    PublicProducts.Resolved(ShownRows(c.products, q, l), l, c.images, base)
  }

  /** `GET /api/products` */
  method List(c: Catalog, q: NextQuery, base: string) returns (r: Reply<seq<PublicProducts.ListedProduct>>)
    ensures r.Fail? <==> NextLocale(q.lang).None?
    ensures r.Fail? ==> r == Fail(500, ServerError)
    ensures r.Ok? ==> r == Ok(200, NextListing(c, q, NextLocale(q.lang).value, base))
  {
    var l := NextLocale(q.lang);
    if l.None? {
      return Fail(500, ServerError);
    }
    var conds := BuildConditions(q, l.value);
    var rows := SortBy(Filter(c.products, (p: ProductRow) => SatisfiesAll(p, conds)), PublicProducts.FeaturedThenNewest);
    FilterExt(c.products, (p: ProductRow) => SatisfiesAll(p, conds), (p: ProductRow) => Shown(p, q, l.value));
    assert rows == ShownRows(c.products, q, l.value);
    var out := PublicProducts.ResolveImages(rows, l.value, c.images, base);
    r := Ok(200, out);
  }

  /** Only active products are ever returned, each admitted product exactly
      once, featured first and newest first; a featured value other than
      `'true'` filters nothing. */
  lemma NextListingSound(c: Catalog, q: NextQuery, l: Locale, base: string)
    ensures multiset(ShownRows(c.products, q, l)) == multiset(Filter(c.products, (p: ProductRow) => Shown(p, q, l)))
    ensures Sorted(ShownRows(c.products, q, l), PublicProducts.FeaturedThenNewest)
    ensures forall p :: p in ShownRows(c.products, q, l) <==> p in c.products && Shown(p, q, l)
    ensures forall v :: v in NextListing(c, q, l, base) ==> v.active
  {
    var f := Filter(c.products, (p: ProductRow) => Shown(p, q, l));
    PublicProducts.FeaturedThenNewestTotalPreorder();
    SortBySorted(f, PublicProducts.FeaturedThenNewest);
    SortByMembers(f, PublicProducts.FeaturedThenNewest);
    forall v | v in NextListing(c, q, l, base) ensures v.active {
      var k :| 0 <= k < |NextListing(c, q, l, base)| && NextListing(c, q, l, base)[k] == v;
      assert ShownRows(c.products, q, l)[k] in ShownRows(c.products, q, l);
    }
  }

  /** Any featured value but `'true'` lists the same as no featured value. */
  lemma FeaturedOnlyWhenTrue(q: NextQuery, l: Locale, p: ProductRow)
    requires q.featured != Some("true")
    ensures Shown(p, q, l) <==> Shown(p, q.(featured := None), l)
  {
  }
}
