/** The rows of the catalogue database and the product aggregate as one value.
    A product owns its specification, packaging, certification-link and image
    rows; all four child tables are keyed by product id. */
module Schema {
  import opened Base
  import opened Sorting

  /** A row of `products`. Titles and descriptions exist in every locale; a
      category column may be NULL. */
  datatype ProductRow = ProductRow(
    id: nat,
    slug: string,
    title: Localized<string>,
    category: Localized<Option<string>>,
    description: Localized<string>,
    featured: bool,
    active: bool,
    createdAt: int,
    updatedAt: int)

  /** One specification or packaging line as a client sends it: a label and a
      value, each in three languages. */
  datatype ChildInput = ChildInput(labels: Localized<string>, values: Localized<string>)

  /** A stored row of `product_specifications` / `product_packaging`: the line
      and its `spec_order` / `pack_order` index. */
  datatype ChildRow = ChildRow(line: ChildInput, order: nat)

  /** A row of `product_images`. */
  datatype ImageRow = ImageRow(id: nat, url: string, isPrimary: bool, displayOrder: int)

  /** A row of `certifications`. */
  datatype Certification = Certification(
    id: nat,
    name: string,
    logoUrl: Option<string>,
    description: Localized<Option<string>>)

  /** `ORDER BY name` */
  predicate ByName(a: Certification, b: Certification) {
    StrLe(a.name, b.name)
  }

  lemma StrLeTotalPreorder()
    ensures TotalPreorder(StrLe)
  {
    forall a, b ensures StrLe(a, b) || StrLe(b, a) {
      StrLeTotal(a, b);
    }
    forall a, b, c | StrLe(a, b) && StrLe(b, c) ensures StrLe(a, c) {
      StrLeTrans(a, b, c);
    }
  }

  lemma ByNameTotalPreorder()
    ensures TotalPreorder(ByName)
  {
    StrLeTotalPreorder();
  }

  /** The outcome of an HTTP handler: a status with a body, or an error status
      with its message. */
  datatype Reply<T> = Ok(status: nat, body: T) | Fail(status: nat, message: string)

  const ServerError := "Server error"

  /** The product tables as one value. `files` is the set of `/uploads/...`
      paths that exist on disk. */
  datatype Catalog = Catalog(
    products: seq<ProductRow>,
    specs: map<nat, seq<ChildRow>>,
    packs: map<nat, seq<ChildRow>>,
    links: map<nat, seq<int>>,
    images: map<nat, seq<ImageRow>>,
    files: set<string>,
    nextProductId: nat,
    nextImageId: nat)

  function Ids(products: seq<ProductRow>): set<nat> {
    set p | p in products :: p.id
  }

  /** Rows stamped with their zero-based position, in that position. */
  predicate Stamped(rows: seq<ChildRow>) {
    forall k :: 0 <= k < |rows| ==> rows[k].order == k
  }

  ghost predicate AtMostOnePrimary(imgs: seq<ImageRow>) {
    forall i, j :: 0 <= i < |imgs| && 0 <= j < |imgs| && imgs[i].isPrimary && imgs[j].isPrimary ==> i == j
  }

  ghost predicate DistinctIds(products: seq<ProductRow>) {
    forall i, j :: 0 <= i < j < |products| ==> products[i].id != products[j].id
  }

  ghost predicate DistinctSlugs(products: seq<ProductRow>) {
    forall i, j :: 0 <= i < j < |products| ==> products[i].slug != products[j].slug
  }

  ghost predicate IdsBelow(products: seq<ProductRow>, next: nat) {
    forall p :: p in products ==> p.id < next
  }

  /** Every child table holds an entry for exactly the existing products. */
  ghost predicate KeyedByProducts(c: Catalog) {
    && c.specs.Keys == Ids(c.products)
    && c.packs.Keys == Ids(c.products)
    && c.links.Keys == Ids(c.products)
    && c.images.Keys == Ids(c.products)
  }

  ghost predicate ChildrenStamped(c: Catalog) {
    && (forall id :: id in c.specs ==> Stamped(c.specs[id]))
    && (forall id :: id in c.packs ==> Stamped(c.packs[id]))
  }

  ghost predicate ImagesSound(images: map<nat, seq<ImageRow>>, nextImageId: nat) {
    && (forall id :: id in images ==> AtMostOnePrimary(images[id]))
    && (forall id, img :: id in images && img in images[id] ==> img.id < nextImageId)
  }

  /** The invariant every committed catalogue keeps: ids and slugs unique, ids
      below the auto-increment counter, every child table keyed by exactly the
      existing products (foreign keys with cascading delete), order columns
      dense from zero, and at most one primary image per product. */
  ghost predicate Valid(c: Catalog) {
    && DistinctIds(c.products)
    && DistinctSlugs(c.products)
    && IdsBelow(c.products, c.nextProductId)
    && KeyedByProducts(c)
    && ChildrenStamped(c)
    && ImagesSound(c.images, c.nextImageId)
  }

  /** The rows inserted for a submitted list: entry `i` gets order index `i`. */
  function Stamp(lines: seq<ChildInput>): (rows: seq<ChildRow>)
    ensures |rows| == |lines| && Stamped(rows)
  {
    seq(|lines|, k requires 0 <= k < |lines| => ChildRow(lines[k], k))
  }

  /** The label/value columns of stored rows, in the given row order. */
  function Lines(rows: seq<ChildRow>): (lines: seq<ChildInput>)
    ensures |lines| == |rows|
  {
    seq(|rows|, k requires 0 <= k < |rows| => rows[k].line)
  }

  predicate OrderLe(a: ChildRow, b: ChildRow) {
    a.order <= b.order
  }

  /** `ORDER BY spec_order` / `ORDER BY pack_order` */
  function InOrder(rows: seq<ChildRow>): seq<ChildRow> {
    SortBy(rows, OrderLe)
  }

  lemma {:induction false} StampLines(lines: seq<ChildInput>)
    ensures Lines(Stamp(lines)) == lines
  {
  }

  lemma {:induction false} SortedIsFixed<T>(s: seq<T>, le: (T, T) -> bool)
    requires Sorted(s, le)
    ensures SortBy(s, le) == s
  {
    if s != [] {
      SortedIsFixed(s[1..], le);
      assert s == [s[0]] + s[1..];
    }
  }

  /** Reading stamped rows back in order-index order gives them as stored. */
  lemma StampedInOrder(rows: seq<ChildRow>)
    requires Stamped(rows)
    ensures InOrder(rows) == rows
  {
    SortedIsFixed(rows, OrderLe);
  }

  /** The round trip of the write path: stamping a list and reading it back
      by order index returns the list itself. */
  lemma ReadBackStamped(lines: seq<ChildInput>)
    ensures Lines(InOrder(Stamp(lines))) == lines
  {
    StampedInOrder(Stamp(lines));
  }

  /** The product with id `id`, if one exists. */
  function FindById(products: seq<ProductRow>, id: nat): (r: Option<ProductRow>)
    ensures r.Some? ==> r.value in products && r.value.id == id
    ensures r.None? <==> id !in Ids(products)
  {
    if products == [] then None
    else if products[0].id == id then Some(products[0])
    else FindById(products[1..], id)
  }

  lemma {:induction false} IdsCons(products: seq<ProductRow>)
    requires products != []
    ensures Ids(products) == {products[0].id} + Ids(products[1..])
  {
    assert products == [products[0]] + products[1..];
    forall id | id in Ids(products) ensures id in {products[0].id} + Ids(products[1..]) {
      var p :| p in products && p.id == id;
      if p != products[0] {
        assert p in products[1..];
      }
    }
  }

  /* Image queries shared by the admin and public routes. */

  /** `SELECT ... WHERE is_primary = 1 LIMIT 1`: the first primary image in
      storage order, if any. */
  function FirstPrimary(imgs: seq<ImageRow>): (r: Option<ImageRow>)
    ensures r.Some? ==> r.value in imgs && r.value.isPrimary
    ensures r.None? <==> forall img :: img in imgs ==> !img.isPrimary
  {
    if imgs == [] then None
    else if imgs[0].isPrimary then Some(imgs[0])
    else FirstPrimary(imgs[1..])
  }

  /** `ORDER BY is_primary DESC, display_order ASC` */
  predicate ImageLe(a: ImageRow, b: ImageRow) {
    (a.isPrimary && !b.isPrimary) || (a.isPrimary == b.isPrimary && a.displayOrder <= b.displayOrder)
  }

  lemma ImageLeTotalPreorder()
    ensures TotalPreorder(ImageLe)
  {
  }

  function ImagesInOrder(imgs: seq<ImageRow>): seq<ImageRow> {
    SortBy(imgs, ImageLe)
  }

  /** An image as the API returns it: the stored path prefixed with the base
      URL. `displayOrder` is `None` where the query does not select the
      column (the admin routes select only `id, image_url, is_primary`). */
  datatype ImageView = ImageView(id: nat, url: string, isPrimary: bool, displayOrder: Option<int>)

  /** The images of the public detail route, display order included. */
  function Prefixed(base: string, imgs: seq<ImageRow>): (r: seq<ImageView>)
    ensures |r| == |imgs|
    ensures forall k :: 0 <= k < |r| ==> r[k].id == imgs[k].id && r[k].url == base + imgs[k].url
    ensures forall k :: 0 <= k < |r| ==> r[k].isPrimary == imgs[k].isPrimary && r[k].displayOrder == Some(imgs[k].displayOrder)
  {
    seq(|imgs|, k requires 0 <= k < |imgs| =>
      ImageView(imgs[k].id, base + imgs[k].url, imgs[k].isPrimary, Some(imgs[k].displayOrder)))
  }

  /** The images of the admin routes: the same views without the display
      order. */
  function AdminPrefixed(base: string, imgs: seq<ImageRow>): (r: seq<ImageView>)
    ensures |r| == |imgs|
    ensures forall k :: 0 <= k < |r| ==> r[k] == Prefixed(base, imgs)[k].(displayOrder := None)
  {
    seq(|imgs|, k requires 0 <= k < |imgs| =>
      ImageView(imgs[k].id, base + imgs[k].url, imgs[k].isPrimary, None))
  }

  /** Prefixing keeps membership: a view is in the prefixed list of a
      permutation of the rows iff it is in that of the rows. */
  lemma PrefixedMembers(base: string, imgs: seq<ImageRow>, perm: seq<ImageRow>)
    requires multiset(perm) == multiset(imgs)
    ensures forall v :: v in Prefixed(base, perm) <==> v in Prefixed(base, imgs)
  {
    forall v | v in Prefixed(base, perm) ensures v in Prefixed(base, imgs) {
      var k :| 0 <= k < |perm| && Prefixed(base, perm)[k] == v;
      assert perm[k] in multiset(imgs);
      var j :| 0 <= j < |imgs| && imgs[j] == perm[k];
      assert Prefixed(base, imgs)[j] == v;
    }
    forall v | v in Prefixed(base, imgs) ensures v in Prefixed(base, perm) {
      var k :| 0 <= k < |imgs| && Prefixed(base, imgs)[k] == v;
      assert imgs[k] in multiset(perm);
      var j :| 0 <= j < |perm| && perm[j] == imgs[k];
      assert Prefixed(base, perm)[j] == v;
    }
  }

  /** The same for the admin views. */
  lemma AdminPrefixedMembers(base: string, imgs: seq<ImageRow>, perm: seq<ImageRow>)
    requires multiset(perm) == multiset(imgs)
    ensures forall v :: v in AdminPrefixed(base, perm) <==> v in AdminPrefixed(base, imgs)
  {
    forall v | v in AdminPrefixed(base, perm) ensures v in AdminPrefixed(base, imgs) {
      var k :| 0 <= k < |perm| && AdminPrefixed(base, perm)[k] == v;
      assert perm[k] in multiset(imgs);
      var j :| 0 <= j < |imgs| && imgs[j] == perm[k];
      assert AdminPrefixed(base, imgs)[j] == v;
    }
    forall v | v in AdminPrefixed(base, imgs) ensures v in AdminPrefixed(base, perm) {
      var k :| 0 <= k < |imgs| && AdminPrefixed(base, imgs)[k] == v;
      assert imgs[k] in multiset(perm);
      var j :| 0 <= j < |perm| && perm[j] == imgs[k];
      assert AdminPrefixed(base, perm)[j] == v;
    }
  }

  /** The images of product `id` (none when it has no row in the table). */
  function ImagesOf(images: map<nat, seq<ImageRow>>, id: nat): seq<ImageRow> {
    if id in images then images[id] else []
  }

  /** The `image` field of a listed product: base URL + path of a primary
      image, or null. */
  function PrimaryImageUrl(images: map<nat, seq<ImageRow>>, id: nat, base: string): (r: Option<string>)
    ensures r.None? <==> forall img :: img in ImagesOf(images, id) ==> !img.isPrimary
    ensures r.Some? ==> exists img :: img in ImagesOf(images, id) && img.isPrimary && r.value == base + img.url
  {
    match FirstPrimary(ImagesOf(images, id))
    case None => None
    case Some(img) => Some(base + img.url)
  }

  /** The certifications linked to a product, one per link row, as an inner
      join of the link table with `certifications`. */
  function Joined(linked: seq<int>, certs: seq<Certification>): (r: seq<Certification>)
    ensures forall c :: c in r <==> c in certs && c.id in linked
  {
    if linked == [] then []
    else Filter(certs, (c: Certification) => c.id == linked[0]) + Joined(linked[1..], certs)
  }
}
