/** The admin product list of the Next.js API and its bearer-token gate. */
module NextAdminProducts {
  import opened Base
  import opened Sorting
  import opened Schema
  import AdminProducts
  import PublicProducts

  const Bearer := "Bearer "

  /** `verifyToken`: the header must start with `Bearer `; the token is what
      follows those seven characters. `verify` is the signature check, `None`
      when it throws. */
  function VerifyToken<P>(header: Option<string>, verify: string -> Option<P>): (r: Option<P>)
    ensures r.Some? ==> header.Some? && StartsWith(header.value, Bearer) && r == verify(header.value[7..])
    ensures header.None? || !StartsWith(header.value, Bearer) ==> r.None?
    ensures header.Some? && StartsWith(header.value, Bearer) && verify(header.value[7..]).None? ==> r.None?
  {
    if header.None? || !StartsWith(header.value, Bearer) then None
    else verify(header.value[|Bearer|..])
  }

  /** The header built from a token is accepted exactly when the token is. */
  lemma BearerRoundTrip<P>(token: string, verify: string -> Option<P>)
    ensures VerifyToken(Some(Bearer + token), verify) == verify(token)
  {
    assert (Bearer + token)[7..] == token;
  }

  function AdminRows(c: Catalog): seq<ProductRow> {
    SortBy(c.products, AdminProducts.NewestFirst)
  }

  function AdminListing(c: Catalog, base: string): seq<PublicProducts.ListedProduct> {
    PublicProducts.Resolved(AdminRows(c), En, c.images, base)
  }

  /** `GET /api/admin/products`: 401 before any query when the token is
      refused; otherwise every product, inactive ones too, newest first, in
      English. */
  method List<P>(c: Catalog, header: Option<string>, verify: string -> Option<P>, base: string)
    returns (r: Reply<seq<PublicProducts.ListedProduct>>)
    ensures r.Fail? <==> VerifyToken(header, verify).None?
    ensures r.Fail? ==> r == Fail(401, "Unauthorized")
    ensures r.Ok? ==> r == Ok(200, AdminListing(c, base))
  {
    var user := VerifyToken(header, verify);
    if user.None? {
      return Fail(401, "Unauthorized");
    }
    var rows := SortBy(c.products, AdminProducts.NewestFirst);
    var out := PublicProducts.ResolveImages(rows, En, c.images, base);
    r := Ok(200, out);
  }

  /** The admin list holds every product once, inactive ones included, newest
      first, with the English columns. */
  lemma AdminListingSound(c: Catalog, base: string)
    ensures multiset(AdminRows(c)) == multiset(c.products)
    ensures Sorted(AdminRows(c), AdminProducts.NewestFirst)
    ensures forall k :: 0 <= k < |AdminListing(c, base)| ==>
      AdminListing(c, base)[k].id == AdminRows(c)[k].id
      && AdminListing(c, base)[k].active == AdminRows(c)[k].active
      && AdminListing(c, base)[k].title == AdminRows(c)[k].title.en
  {
    AdminProducts.NewestFirstTotalPreorder();
    SortBySorted(c.products, AdminProducts.NewestFirst);
  }
}
