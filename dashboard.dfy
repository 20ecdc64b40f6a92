/** The dashboard of the React admin: the thumbnail chosen for each listed
    product, the count of new inquiries, the image upload (always sent as
    the primary image) and the logout. */
module Dashboard {
  import opened Base
  import opened Sorting
  import opened Schema
  import opened AdminProducts
  import opened Inquiries
  import AdminInquiries
  import ProductDetailPage

  /* ---------- the thumbnail ---------- */

  /** `images.find(img => img.is_primary)` */
  function FindPrimary(images: seq<ImageView>): (r: Option<ImageView>)
    ensures r.None? <==> forall k :: 0 <= k < |images| ==> !images[k].isPrimary
    ensures r.Some? ==> exists k :: (0 <= k < |images| && images[k] == r.value && r.value.isPrimary &&
                                     forall j :: 0 <= j < k ==> !images[j].isPrimary)
  {
    if images == [] then None
    else if images[0].isPrimary then Some(images[0])
    else
      var r := FindPrimary(images[1..]);
      assert r.Some? ==> exists k :: (1 <= k < |images| && images[k] == r.value &&
                                      forall j :: 1 <= j < k ==> !images[j].isPrimary) by {
        if r.Some? {
          var k :| 0 <= k < |images[1..]| && images[1..][k] == r.value &&
            (forall j :: 0 <= j < k ==> !images[1..][j].isPrimary);
          assert forall j :: 1 <= j < k + 1 ==> images[j] == images[1..][j - 1];
        }
      }
      r
  }

  /** The path of the thumbnail: the first primary image's URL, else (also
      when that URL is empty) the first image's; `None` is the placeholder
      icon shown for a product without images. */
  function ShownPath(images: seq<ImageView>): (r: Option<string>)
    ensures r.None? <==> images == []
    ensures r.Some? ==> (r.value == images[0].url ||
                         (FindPrimary(images).Some? && r.value == FindPrimary(images).value.url != ""))
  {
    if images == [] then None
    else
      match FindPrimary(images)
      case Some(img) => if img.url != "" then Some(img.url) else Some(images[0].url)
      case None => Some(images[0].url)
  }

  /** When the first image is primary or no image is, the thumbnail is the
      first image. */
  lemma ShownFirst(images: seq<ImageView>)
    requires images != []
    requires images[0].isPrimary || forall k :: 0 <= k < |images| ==> !images[k].isPrimary
    ensures ShownPath(images) == Some(images[0].url)
  {
  }

  /** A product of `GET /admin/products` shows the first image in the
      server's order: its primary image when it has one, and otherwise the
      image with the lowest display order. Without images it shows the
      placeholder. */
  lemma ListingThumbnail(images: map<nat, seq<ImageRow>>, p: ProductRow, base: string)
    ensures var rows := ImagesOf(images, p.id);
      ShownPath(AdminView(images, p, base).images) ==
        if rows == [] then None else Some(base + ImagesInOrder(rows)[0].url)
    ensures var rows := ImagesOf(images, p.id);
      rows != [] ==>
        && (ImagesInOrder(rows)[0].isPrimary <==> exists img :: img in rows && img.isPrimary)
        && ImagesInOrder(rows)[0] in rows
        && ((forall img :: img in rows ==> !img.isPrimary) ==>
              forall img :: img in rows ==> ImagesInOrder(rows)[0].displayOrder <= img.displayOrder)
  {
    var rows := ImagesOf(images, p.id);
    var sorted := ImagesInOrder(rows);
    var views := AdminView(images, p, base).images;
    if rows != [] {
      ImageLeTotalPreorder();
      SortBySorted(rows, ImageLe);
      SortByMembers(rows, ImageLe);
      assert views[0].isPrimary == sorted[0].isPrimary;
      assert sorted[0] in rows;
      forall img | img in rows ensures ImageLe(sorted[0], img) {
        assert img in sorted;
        var j :| 0 <= j < |sorted| && sorted[j] == img;
        if j > 0 {
          assert ImageLe(sorted[0], sorted[j]);
        }
      }
      if !sorted[0].isPrimary {
        forall k | 0 <= k < |views| ensures !views[k].isPrimary {
          assert sorted[k] in rows;
        }
      }
      ShownFirst(views);
    }
  }

  /** `` src={`http://localhost:5000${...}`} ``, as written: the origin of
      the development server goes in front of the path. */
  function ThumbnailSrcAsWritten(images: seq<ImageView>): (r: Option<string>)
    ensures r.None? <==> images == []
    ensures r.Some? ==> r.value == ProductDetailPage.DevServer + ShownPath(images).value
  {
    match ShownPath(images)
    case None => None
    case Some(path) => Some(ProductDetailPage.DevServer + path)
  }

  /** The server already sends absolute URLs, so the listed thumbnail's
      address is the server's URL with a second origin in front of it. */
  lemma ThumbnailDoubleOrigin(images: map<nat, seq<ImageRow>>, p: ProductRow, base: string)
    requires StartsWith(base, "http") && ImagesOf(images, p.id) != []
    ensures var src := ThumbnailSrcAsWritten(AdminView(images, p, base).images);
      && src == Some(ProductDetailPage.DevServer + base + ImagesInOrder(ImagesOf(images, p.id))[0].url)
      && src != Some(base + ImagesInOrder(ImagesOf(images, p.id))[0].url)
  {
    ListingThumbnail(images, p, base);
    var url := ImagesInOrder(ImagesOf(images, p.id))[0].url;
    assert ProductDetailPage.DevServer + base + url == ProductDetailPage.DevServer + (base + url);
    assert |ProductDetailPage.DevServer + base + url| > |base + url|;
  }

  /** The intended address: a path gets the origin, an absolute URL is used
      as it is, the rule the product page applies. */
  function ThumbnailSrc(images: seq<ImageView>): (r: Option<string>)
    ensures r.None? <==> images == []
    ensures r.Some? ==> r.value == ProductDetailPage.ImageUrl(ShownPath(images).value)
  {
    match ShownPath(images)
    case None => None
    case Some(path) => Some(ProductDetailPage.ImageUrl(path))
  }

  /** With that rule the listed thumbnail is the URL the server sent. */
  lemma ThumbnailServedUrl(images: map<nat, seq<ImageRow>>, p: ProductRow, base: string)
    requires StartsWith(base, "http") && ImagesOf(images, p.id) != []
    ensures ThumbnailSrc(AdminView(images, p, base).images) ==
      Some(base + ImagesInOrder(ImagesOf(images, p.id))[0].url)
  {
    ListingThumbnail(images, p, base);
    var url := ImagesInOrder(ImagesOf(images, p.id))[0].url;
    assert (base + url)[..|"http"|] == base[..|"http"|];
  }

  /* ---------- the inquiry count ---------- */

  predicate IsNew(x: Inquiry) {
    x.status == "new"
  }

  /** `inquiries.filter(i => i.status === 'new').length` */
  function NewCount(inquiries: seq<Inquiry>): (n: nat)
    ensures n <= |inquiries|
  {
    Count(inquiries, IsNew)
  }

  /** The card counts exactly what the admin list filtered by status `new`
      holds. */
  lemma NewCountIsNewList(rows: seq<Inquiry>)
    ensures NewCount(rows) == |AdminInquiries.List(rows, Text("new"))|
  {
    var status := Text("new");
    var kept := Filter(rows, (x: Inquiry) => x.status == status.text);
    FilterExt(rows, IsNew, (x: Inquiry) => x.status == status.text);
    assert |AdminInquiries.List(rows, status)| == |kept|;
  }

  /** Every inquiry the public form stores adds one to the count. */
  lemma SubmittedCounts(rows: seq<Inquiry>, id: nat, b: InquiryBody, now: int)
    requires Complete(b)
    ensures NewCount(rows + [NewInquiry(id, b, now)]) == NewCount(rows) + 1
  {
    FilterAppend(rows, [NewInquiry(id, b, now)], IsNew);
  }

  /** An inquiry whose status is changed away from `new` leaves the count. */
  lemma {:induction false} StatusChangeCounts(rows: seq<Inquiry>, k: nat, status: string)
    requires k < |rows| && IsNew(rows[k]) && status != "new"
    ensures NewCount(rows[k := rows[k].(status := status)]) + 1 == NewCount(rows)
  {
    var a, b := rows[..k], rows[k + 1..];
    assert rows == a + [rows[k]] + b;
    assert rows[k := rows[k].(status := status)] == a + [rows[k].(status := status)] + b;
    FilterAppend(a + [rows[k]], b, IsNew);
    FilterAppend(a, [rows[k]], IsNew);
    FilterAppend(a + [rows[k].(status := status)], b, IsNew);
    FilterAppend(a, [rows[k].(status := status)], IsNew);
  }

  /* ---------- upload ---------- */

  /** `formData.append('is_primary', 'true')`; no display order is sent, so
      the server stores 0. */
  const UploadFlag := Text("true")

  /** After a dashboard upload the product has one image, primary, and its
      thumbnail in the refreshed listing is the uploaded file. */
  lemma UploadShown(c: Catalog, p: ProductRow, url: string, base: string, other: nat)
    requires other != p.id
    ensures var n := Uploaded(c, p.id, url, PrimaryFlag(UploadFlag), 0);
      && ImagesOf(n.images, p.id) == [ImageRow(c.nextImageId, url, true, 0)]
      && RawPrimary(ImagesOf(n.images, p.id)) == Some(url)
      && ShownPath(AdminView(n.images, p, base).images) == Some(base + url)
      && ImagesOf(n.images, other) == ImagesOf(c.images, other)
  {
    var n := Uploaded(c, p.id, url, PrimaryFlag(UploadFlag), 0);
    UploadLeavesOneImage(c, p.id, url, UploadFlag, 0, other);
    ListingThumbnail(n.images, p, base);
    assert ImagesInOrder([ImageRow(c.nextImageId, url, true, 0)]) == [ImageRow(c.nextImageId, url, true, 0)];
  }

  /* ---------- logout ---------- */

  const TokenKey := "auth_token"
  const LoginPath := "/admin/login"

  datatype LoggedOut = LoggedOut(storage: map<string, string>, navigate: string)

  /** `handleLogout`: the token goes, the login page is next. */
  function Logout(storage: map<string, string>): (r: LoggedOut)
    ensures TokenKey !in r.storage
    ensures forall k :: k != TokenKey ==> ((k in r.storage <==> k in storage) &&
                                          (k in storage ==> r.storage[k] == storage[k]))
    ensures r.navigate == LoginPath
  {
    LoggedOut(storage - {TokenKey}, LoginPath)
  }

  /** The request interceptor of the API client: a bearer header only for a
      stored, non-empty token. */
  function AuthHeader(storage: map<string, string>): (h: Option<string>)
    ensures h.Some? <==> TokenKey in storage && storage[TokenKey] != ""
  {
    if TokenKey in storage && storage[TokenKey] != "" then Some("Bearer " + storage[TokenKey]) else None
  }

  /** After logout no request carries a token, so every admin route that
      checks a bearer header refuses it; logging out twice is logging out
      once. */
  lemma LogoutDropsCredentials(storage: map<string, string>)
    ensures AuthHeader(Logout(storage).storage).None?
    ensures AuthHeader(Logout(storage).storage) == AuthHeader(map[])
    ensures Logout(Logout(storage).storage) == Logout(storage)
  {
  }
}
