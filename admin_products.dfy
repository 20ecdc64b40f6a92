/** The admin write path of the product aggregate: create and update inside one
    transaction (delete-then-reinsert of the child rows, each stamped with its
    position), delete with cascading removal, image upload that replaces the
    whole image set, and the single-image delete; plus the two admin reads.

    A database failure is an input: `failAt == Some(k)` makes the k-th SQL
    statement of the request (counted from 0) raise. Constraint violations
    raise as well: a duplicate slug, and a child row whose product does not
    exist. A raised statement rolls the transaction back. */
module AdminProducts {
  import opened Base
  import opened Sorting
  import opened Schema

  /** The JSON body of `POST /admin/products` and `PUT /admin/products/:id`.
      A child list is `None` when it is missing or not an array. */
  datatype ProductInput = ProductInput(
    slug: string,
    title: Localized<string>,
    category: Localized<Option<string>>,
    description: Localized<string>,
    featured: Option<bool>,
    active: Option<bool>,
    specifications: Option<seq<ChildInput>>,
    packaging: Option<seq<ChildInput>>,
    certifications: Option<seq<int>>)

  /** `list && Array.isArray(list)`: the list to insert, empty otherwise. */
  function OrEmpty<T>(list: Option<seq<T>>): seq<T> {
    if list.Some? then list.value else []
  }

  /** `featured || false` */
  function DefaultFeatured(f: Option<bool>): (b: bool)
    ensures b <==> f == Some(true)
  {
    f.Some? && f.value
  }

  /** `active !== false` */
  function DefaultActive(a: Option<bool>): (b: bool)
    ensures !b <==> a == Some(false)
  {
    !(a.Some? && !a.value)
  }

  /** Does one of the statements numbered `lo` to `hi - 1` raise? */
  predicate InjectedIn(failAt: Option<nat>, lo: nat, hi: nat) {
    failAt.Some? && lo <= failAt.value < hi
  }

  predicate SlugUsed(products: seq<ProductRow>, slug: string) {
    exists p :: p in products && p.slug == slug
  }

  predicate SlugUsedByOther(products: seq<ProductRow>, slug: string, id: nat) {
    exists p :: p in products && p.slug == slug && p.id != id
  }

  /* ---------- the committed states, as functions of the old one ---------- */

  /** The catalogue after inserting one product with its child rows. */
  function WithProduct(c: Catalog, row: ProductRow, specs: seq<ChildInput>, packs: seq<ChildInput>, certs: seq<int>): Catalog {
    c.(products := c.products + [row],
       specs := c.specs[row.id := Stamp(specs)],
       packs := c.packs[row.id := Stamp(packs)],
       links := c.links[row.id := certs],
       images := c.images[row.id := []],
       nextProductId := row.id + 1)
  }

  function NewRow(c: Catalog, input: ProductInput, now: int): ProductRow {
    ProductRow(c.nextProductId, input.slug, input.title, input.category, input.description,
               DefaultFeatured(input.featured), DefaultActive(input.active), now, now)
  }

  function CreateStatements(input: ProductInput): nat {
    1 + |OrEmpty(input.specifications)| + |OrEmpty(input.packaging)| + |OrEmpty(input.certifications)|
  }

  predicate CreateFails(c: Catalog, input: ProductInput, failAt: Option<nat>) {
    SlugUsed(c.products, input.slug) || InjectedIn(failAt, 0, CreateStatements(input))
  }

  function Created(c: Catalog, input: ProductInput, now: int): Catalog {
    WithProduct(c, NewRow(c, input, now), OrEmpty(input.specifications),
                OrEmpty(input.packaging), OrEmpty(input.certifications))
  }

  /** The product row after `UPDATE products SET ...`: every column from the
      body, flags exactly as given. */
  function Revised(p: ProductRow, input: ProductInput, now: int): ProductRow
    requires input.featured.Some? && input.active.Some?
  {
    p.(slug := input.slug, title := input.title, category := input.category,
       description := input.description, featured := input.featured.value,
       active := input.active.value, updatedAt := now)
  }

  function Replaced(products: seq<ProductRow>, id: nat, input: ProductInput, now: int): (r: seq<ProductRow>)
    requires input.featured.Some? && input.active.Some?
    ensures |r| == |products|
  {
    seq(|products|, k requires 0 <= k < |products| =>
      if products[k].id == id then Revised(products[k], input, now) else products[k])
  }

  function UpdateStatements(input: ProductInput): nat {
    4 + |OrEmpty(input.specifications)| + |OrEmpty(input.packaging)| + |OrEmpty(input.certifications)|
  }

  /** Both flags are in the body. A missing one is bound as NULL, which the
      NOT NULL flag columns refuse when the UPDATE matches a row. */
  predicate FlagsGiven(input: ProductInput) {
    input.featured.Some? && input.active.Some?
  }

  predicate UpdateFails(c: Catalog, id: nat, input: ProductInput, failAt: Option<nat>) {
    || (id in Ids(c.products) && (SlugUsedByOther(c.products, input.slug, id) || !FlagsGiven(input)))
    || InjectedIn(failAt, 0, UpdateStatements(input))
    || (id !in Ids(c.products) && UpdateStatements(input) > 4)
  }

  function Updated(c: Catalog, id: nat, input: ProductInput, now: int): Catalog
    requires id in Ids(c.products) ==> FlagsGiven(input)
  {
    if id !in Ids(c.products) then c
    else c.(products := Replaced(c.products, id, input, now),
            specs := c.specs[id := Stamp(OrEmpty(input.specifications))],
            packs := c.packs[id := Stamp(OrEmpty(input.packaging))],
            links := c.links[id := OrEmpty(input.certifications)])
  }

  /** `DELETE FROM products WHERE id = ?`, child rows cascading. Image files
      stay on disk. */
  function Removed(c: Catalog, id: nat): Catalog {
    c.(products := Filter(c.products, (p: ProductRow) => p.id != id),
       specs := c.specs - {id},
       packs := c.packs - {id},
       links := c.links - {id},
       images := c.images - {id})
  }

  /** `is_primary === 'true'` */
  function PrimaryFlag(field: Field): (b: bool)
    ensures b <==> field == Text("true")
  {
    field == Text("true")
  }

  function UploadStatements(c: Catalog, id: nat, isPrimary: bool): nat {
    2 + (if ImagesOf(c.images, id) != [] then 1 else 0) + (if isPrimary then 1 else 0)
  }

  predicate UploadFails(c: Catalog, id: nat, isPrimary: bool, failAt: Option<nat>) {
    InjectedIn(failAt, 0, UploadStatements(c, id, isPrimary)) || id !in Ids(c.products)
  }

  /** The old files whose unlink succeeds. */
  function Unlinked(old_: seq<ImageRow>, unlinkFails: set<string>): set<string> {
    set img | img in old_ && img.url !in unlinkFails :: img.url
  }

  /** Are the old files unlinked? Only once the SELECT and the DELETE have run
      without raising, and only when there were old images. */
  predicate UnlinkReached(c: Catalog, id: nat, failAt: Option<nat>) {
    ImagesOf(c.images, id) != [] && !InjectedIn(failAt, 0, 2)
  }

  /** Files on disk after the request: the uploaded file is already stored,
      and the old files are unlinked unless their unlink raised. The file
      system is not part of the transaction. */
  function FilesAfterUpload(c: Catalog, id: nat, url: string, failAt: Option<nat>, unlinkFails: set<string>): set<string> {
    if UnlinkReached(c, id, failAt)
    then (c.files + {url}) - Unlinked(ImagesOf(c.images, id), unlinkFails)
    else c.files + {url}
  }

  function Uploaded(c: Catalog, id: nat, url: string, isPrimary: bool, displayOrder: int): Catalog {
    c.(images := c.images[id := [ImageRow(c.nextImageId, url, isPrimary, displayOrder)]],
       nextImageId := c.nextImageId + 1)
  }

  /** `DELETE FROM product_images WHERE id = ? AND product_id = ?` */
  function ImageRemoved(c: Catalog, id: nat, imageId: nat): Catalog {
    if id in c.images
    then c.(images := c.images[id := Filter(c.images[id], (img: ImageRow) => img.id != imageId)])
    else c
  }

  /* ---------- the statements of one transaction, on values ---------- */

  /** The insert loop of a specification or packaging list: statement
      `first + i` inserts entry `i` with order index `i`. */
  method InsertLines(lines: seq<ChildInput>, first: nat, failAt: Option<nat>) returns (rows: seq<ChildRow>, ok: bool)
    ensures ok <==> !InjectedIn(failAt, first, first + |lines|)
    ensures ok ==> rows == Stamp(lines)
  {
    rows := [];
    var i := 0;
    while i < |lines|
      invariant 0 <= i <= |lines|
      invariant !InjectedIn(failAt, first, first + i)
      invariant |rows| == i
      invariant forall k :: 0 <= k < i ==> rows[k] == ChildRow(lines[k], k)
    {
      if failAt == Some(first + i) {
        return rows, false;
      }
      rows := rows + [ChildRow(lines[i], i)];
      i := i + 1;
    }
    ok := true;
  }

  /** The certification-link insert loop: one link row per id, in order. */
  method InsertLinks(ids: seq<int>, first: nat, failAt: Option<nat>) returns (links: seq<int>, ok: bool)
    ensures ok <==> !InjectedIn(failAt, first, first + |ids|)
    ensures ok ==> links == ids
  {
    links := [];
    var i := 0;
    while i < |ids|
      invariant 0 <= i <= |ids|
      invariant !InjectedIn(failAt, first, first + i)
      invariant links == ids[..i]
    {
      if failAt == Some(first + i) {
        return links, false;
      }
      links := links + [ids[i]];
      i := i + 1;
    }
    ok := true;
  }

  /** The update of one child table: statement `first` deletes the product's
      rows, then the list is inserted. An insert for a product that does not
      exist violates the foreign key. */
  method ReplaceLines(present: bool, lines: seq<ChildInput>, first: nat, failAt: Option<nat>) returns (rows: seq<ChildRow>, ok: bool)
    ensures ok <==> !(InjectedIn(failAt, first, first + 1 + |lines|) || (!present && lines != []))
    ensures ok ==> rows == Stamp(lines)
  {
    if failAt == Some(first) {
      return [], false;
    }
    if !present && lines != [] {
      return [], false;
    }
    rows, ok := InsertLines(lines, first + 1, failAt);
  }

  method ReplaceLinks(present: bool, ids: seq<int>, first: nat, failAt: Option<nat>) returns (links: seq<int>, ok: bool)
    ensures ok <==> !(InjectedIn(failAt, first, first + 1 + |ids|) || (!present && ids != []))
    ensures ok ==> links == ids
  {
    if failAt == Some(first) {
      return [], false;
    }
    if !present && ids != [] {
      return [], false;
    }
    links, ok := InsertLinks(ids, first + 1, failAt);
  }

  /** The create transaction: the product insert (statement 0), then the
      specification, packaging and certification inserts. `None` is a
      rollback. */
  method RunCreate(c: Catalog, input: ProductInput, now: int, failAt: Option<nat>) returns (next: Option<Catalog>)
    ensures next.None? <==> CreateFails(c, input, failAt)
    ensures next.Some? ==> next.value == Created(c, input, now)
  {
    if failAt == Some(0) || SlugUsed(c.products, input.slug) {
      return None;
    }
    var row := NewRow(c, input, now);
    var specList, packList, certList := OrEmpty(input.specifications), OrEmpty(input.packaging), OrEmpty(input.certifications);
    var specRows, ok1 := InsertLines(specList, 1, failAt);
    if !ok1 {
      return None;
    }
    var packRows, ok2 := InsertLines(packList, 1 + |specList|, failAt);
    if !ok2 {
      return None;
    }
    var linkRows, ok3 := InsertLinks(certList, 1 + |specList| + |packList|, failAt);
    if !ok3 {
      return None;
    }
    next := Some(c.(products := c.products + [row],
                    specs := c.specs[row.id := specRows],
                    packs := c.packs[row.id := packRows],
                    links := c.links[row.id := linkRows],
                    images := c.images[row.id := []],
                    nextProductId := row.id + 1));
  }

  /** The update transaction: the product UPDATE (statement 0; it matches no
      row when the id is unknown), then delete-and-reinsert of each child
      table. */
  method RunUpdate(c: Catalog, id: nat, input: ProductInput, now: int, failAt: Option<nat>) returns (next: Option<Catalog>)
    ensures next.None? <==> UpdateFails(c, id, input, failAt)
    ensures next.Some? ==> next.value == Updated(c, id, input, now)
  {
    var present := id in Ids(c.products);
    if failAt == Some(0) || (present && (SlugUsedByOther(c.products, input.slug, id) || !FlagsGiven(input))) {
      return None;
    }
    var specList, packList, certList := OrEmpty(input.specifications), OrEmpty(input.packaging), OrEmpty(input.certifications);
    var specRows, ok1 := ReplaceLines(present, specList, 1, failAt);
    if !ok1 {
      return None;
    }
    var packRows, ok2 := ReplaceLines(present, packList, 2 + |specList|, failAt);
    if !ok2 {
      return None;
    }
    var linkRows, ok3 := ReplaceLinks(present, certList, 3 + |specList| + |packList|, failAt);
    if !ok3 {
      return None;
    }
    if present {
      next := Some(c.(products := Replaced(c.products, id, input, now),
                      specs := c.specs[id := specRows],
                      packs := c.packs[id := packRows],
                      links := c.links[id := linkRows]));
    } else {
      next := Some(c);
    }
  }

  /** The unlink loop: every old file is removed unless its unlink raises,
      which is logged and does not stop the loop. */
  method UnlinkAll(oldImages: seq<ImageRow>, disk: set<string>, unlinkFails: set<string>) returns (after: set<string>)
    ensures after == disk - Unlinked(oldImages, unlinkFails)
  {
    after := disk;
    var i := 0;
    while i < |oldImages|
      invariant 0 <= i <= |oldImages|
      invariant after == disk - Unlinked(oldImages[..i], unlinkFails)
    {
      var path := oldImages[i].url;
      if path !in unlinkFails {
        after := after - {path};
      }
      assert oldImages[..i + 1] == oldImages[..i] + [oldImages[i]];
      i := i + 1;
    }
    assert oldImages[..i] == oldImages;
  }

  /** The upload transaction. Statement 0 selects the old images; when there
      are some, statement 1 deletes their rows and their files are unlinked;
      when the new image is primary, the next statement clears the primary
      flags; the last one inserts the image row. Returns whether it commits,
      and the files on disk afterwards (the stored upload included). */
  method RunUpload(c: Catalog, id: nat, url: string, isPrimary: bool, failAt: Option<nat>, unlinkFails: set<string>)
    returns (ok: bool, disk: set<string>)
    ensures ok <==> !UploadFails(c, id, isPrimary, failAt)
    ensures disk == FilesAfterUpload(c, id, url, failAt, unlinkFails)
  {
    disk := c.files + {url};
    if failAt == Some(0) {
      return false, disk;
    }
    var oldImages := ImagesOf(c.images, id);
    var stmt := 1;
    if oldImages != [] {
      if failAt == Some(1) {
        return false, disk;
      }
      stmt := 2;
      disk := UnlinkAll(oldImages, disk, unlinkFails);
    }
    if isPrimary {
      if failAt == Some(stmt) {
        return false, disk;
      }
      stmt := stmt + 1;
    }
    assert stmt + 1 == UploadStatements(c, id, isPrimary);
    ok := !(failAt == Some(stmt) || id !in Ids(c.products));
  }

  /** An item of `GET /admin/products`: every column, the raw path of a
      primary image, and all images with full URLs. */
  datatype AdminProductView = AdminProductView(row: ProductRow, primaryImage: Option<string>, images: seq<ImageView>)

  function RowsOf(views: seq<AdminProductView>): (rows: seq<ProductRow>)
    ensures |rows| == |views|
  {
    seq(|views|, k requires 0 <= k < |views| => views[k].row)
  }

  /** `ORDER BY created_at DESC` */
  predicate NewestFirst(a: ProductRow, b: ProductRow) {
    a.createdAt >= b.createdAt
  }

  lemma NewestFirstTotalPreorder()
    ensures TotalPreorder(NewestFirst)
  {
  }

  function RawPrimary(imgs: seq<ImageRow>): (r: Option<string>)
    ensures r.None? <==> forall img :: img in imgs ==> !img.isPrimary
    ensures r.Some? ==> exists img :: img in imgs && img.isPrimary && r.value == img.url
  {
    match FirstPrimary(imgs)
    case None => None
    case Some(img) => Some(img.url)
  }

  /** One listed product: its primary image path unprefixed, its images in
      display order with the base URL. */
  function AdminView(images: map<nat, seq<ImageRow>>, p: ProductRow, base: string): AdminProductView {
    AdminProductView(p, RawPrimary(ImagesOf(images, p.id)), AdminPrefixed(base, ImagesInOrder(ImagesOf(images, p.id))))
  }

  /** `GET /admin/products`: every product, inactive ones included, newest
      first, each with its images. */
  function AdminListing(c: Catalog, base: string): (r: seq<AdminProductView>)
  {
    seq(|ListedRows(c)|, k requires 0 <= k < |ListedRows(c)| => AdminView(c.images, ListedRows(c)[k], base))
  }

  function ListedRows(c: Catalog): seq<ProductRow> {
    SortBy(c.products, NewestFirst)
  }

  /** The listing holds every product exactly once, newest first, each with
      its own images, primary ones first, and the path of a primary one or
      null when it has none. */
  lemma AdminListingSound(c: Catalog, base: string)
    ensures multiset(RowsOf(AdminListing(c, base))) == multiset(c.products)
    ensures Sorted(RowsOf(AdminListing(c, base)), NewestFirst)
    ensures forall v :: v in AdminListing(c, base) ==>
      && (forall w :: w in v.images <==> w in AdminPrefixed(base, ImagesOf(c.images, v.row.id)))
      && (forall i, j :: 0 <= i < j < |v.images| && v.images[j].isPrimary ==> v.images[i].isPrimary)
      && (v.primaryImage.None? <==> forall img :: img in ImagesOf(c.images, v.row.id) ==> !img.isPrimary)
  {
    var rows := ListedRows(c);
    assert RowsOf(AdminListing(c, base)) == rows;
    NewestFirstTotalPreorder();
    SortBySorted(c.products, NewestFirst);
    forall v | v in AdminListing(c, base)
      ensures forall w :: w in v.images <==> w in AdminPrefixed(base, ImagesOf(c.images, v.row.id))
      ensures forall i, j :: 0 <= i < j < |v.images| && v.images[j].isPrimary ==> v.images[i].isPrimary
    {
      AdminImagesInOrder(base, ImagesOf(c.images, v.row.id));
    }
  }

  /** `GET /admin/products/:id` */
  datatype AdminProductDetail = AdminProductDetail(
    row: ProductRow,
    images: seq<ImageView>,
    specifications: seq<ChildRow>,
    packaging: seq<ChildRow>,
    certifications: seq<Certification>)

  function AdminDetail(c: Catalog, certs: seq<Certification>, id: nat, base: string): (r: Reply<AdminProductDetail>)
    requires Valid(c)
    ensures r.Fail? <==> id !in Ids(c.products)
    ensures r.Fail? ==> r == Fail(404, "Product not found")
    ensures r.Ok? ==> r.status == 200 && r.body.row.id == id && r.body.row in c.products
    ensures r.Ok? ==> r.body.specifications == c.specs[id] && r.body.packaging == c.packs[id]
    ensures r.Ok? ==> forall x :: x in r.body.certifications <==> x in certs && x.id in c.links[id]
    ensures r.Ok? ==> forall v :: v in r.body.images <==> v in AdminPrefixed(base, c.images[id])
    ensures r.Ok? ==> forall i, j :: 0 <= i < j < |r.body.images| && r.body.images[j].isPrimary ==> r.body.images[i].isPrimary
    ensures r.Ok? ==> exists s :: multiset(s) == multiset(c.images[id]) && Sorted(s, ImageLe) && r.body.images == AdminPrefixed(base, s)
  {
    match FindById(c.products, id)
    case None => Fail(404, "Product not found")
    case Some(p) =>
      StampedInOrder(c.specs[id]);
      StampedInOrder(c.packs[id]);
      AdminImagesInOrder(base, c.images[id]);
      ImageLeTotalPreorder();
      SortBySorted(c.images[id], ImageLe);
      Ok(200, AdminProductDetail(p, AdminPrefixed(base, ImagesInOrder(c.images[id])),
                                 InOrder(c.specs[id]), InOrder(c.packs[id]), Joined(c.links[id], certs)))
  }

  /** The admin images are those of the product, primary ones first. */
  lemma AdminImagesInOrder(base: string, imgs: seq<ImageRow>)
    ensures forall v :: v in AdminPrefixed(base, ImagesInOrder(imgs)) <==> v in AdminPrefixed(base, imgs)
    ensures var r := AdminPrefixed(base, ImagesInOrder(imgs));
      forall i, j :: 0 <= i < j < |r| && r[j].isPrimary ==> r[i].isPrimary
  {
    ImageLeTotalPreorder();
    SortBySorted(imgs, ImageLe);
    AdminPrefixedMembers(base, imgs, ImagesInOrder(imgs));
  }

  /* ---------- the store ---------- */

  class ProductStore {
    var products: seq<ProductRow>
    var specs: map<nat, seq<ChildRow>>
    var packs: map<nat, seq<ChildRow>>
    var links: map<nat, seq<int>>
    var images: map<nat, seq<ImageRow>>
    var files: set<string>
    var nextProductId: nat
    var nextImageId: nat

    function Snapshot(): Catalog
      reads this
    {
      Catalog(products, specs, packs, links, images, files, nextProductId, nextImageId)
    }

    ghost predicate Valid()
      reads this
    {
      Schema.Valid(Snapshot())
    }

    constructor ()
      ensures Valid()
      ensures Snapshot() == Catalog([], map[], map[], map[], map[], {}, 1, 1)
    {
      products, specs, packs, links, images := [], map[], map[], map[], map[];
      files, nextProductId, nextImageId := {}, 1, 1;
    }

    /** Publishes a state built inside a transaction. */
    method Commit(c: Catalog)
      modifies this
      ensures Snapshot() == c
    {
      products, specs, packs, links, images := c.products, c.specs, c.packs, c.links, c.images;
      files, nextProductId, nextImageId := c.files, c.nextProductId, c.nextImageId;
    }

    /** `POST /admin/products` */
    method Create(input: ProductInput, now: int, failAt: Option<nat>) returns (r: Reply<nat>)
      requires Valid()
      modifies this
      ensures Valid()
      ensures r.Fail? <==> CreateFails(old(Snapshot()), input, failAt)
      ensures r.Fail? ==> r == Fail(500, ServerError) && Snapshot() == old(Snapshot())
      ensures r.Ok? ==> r == Ok(201, old(nextProductId)) && Snapshot() == Created(old(Snapshot()), input, now)
    {
      var c := Snapshot();
      var next := RunCreate(c, input, now, failAt);
      if next.None? {
        return Fail(500, ServerError);
      }
      CreatedValid(c, input, now);
      Commit(next.value);
      r := Ok(201, c.nextProductId);
    }

    /** `PUT /admin/products/:id`. The body's `featured` and `active` are
        written as given (no defaults). */
    method Update(id: nat, input: ProductInput, now: int, failAt: Option<nat>) returns (r: Reply<()>)
      requires Valid()
      modifies this
      ensures Valid()
      ensures r.Fail? <==> UpdateFails(old(Snapshot()), id, input, failAt)
      ensures r.Fail? ==> r == Fail(500, ServerError) && Snapshot() == old(Snapshot())
      ensures r.Ok? ==> r == Ok(200, ()) && Snapshot() == Updated(old(Snapshot()), id, input, now)
    {
      var c := Snapshot();
      var next := RunUpdate(c, id, input, now, failAt);
      if next.None? {
        return Fail(500, ServerError);
      }
      UpdatedValid(c, id, input, now);
      Commit(next.value);
      r := Ok(200, ());
    }

    /** `DELETE /admin/products/:id`: one statement; the response is the same
        whether or not the product existed. */
    method Delete(id: nat, dbFails: bool) returns (r: Reply<()>)
      requires Valid()
      modifies this
      ensures Valid()
      ensures r.Fail? <==> dbFails
      ensures r.Fail? ==> r == Fail(500, ServerError) && Snapshot() == old(Snapshot())
      ensures r.Ok? ==> r == Ok(200, ()) && Snapshot() == Removed(old(Snapshot()), id)
    {
      if dbFails {
        return Fail(500, ServerError);
      }
      var c := Snapshot();
      RemovedValid(c, id);
      Commit(Removed(c, id));
      r := Ok(200, ());
    }

    /** `POST /admin/products/:id/images`. `file` is the name the upload was
        stored under (`None`: no file in the request); `unlinkFails` are the
        paths whose unlink raises. */
    method UploadImage(id: nat, file: Option<string>, isPrimaryField: Field, displayOrder: Option<int>,
                       base: string, failAt: Option<nat>, unlinkFails: set<string>)
      returns (r: Reply<ImageView>)
      requires Valid()
      modifies this
      ensures Valid()
      ensures file.None? ==> r == Fail(400, "No file uploaded") && Snapshot() == old(Snapshot())
      ensures file.Some? ==>
        var url := "/uploads/" + file.value;
        var isPrimary := PrimaryFlag(isPrimaryField);
        var order := if displayOrder.Some? then displayOrder.value else 0;
        var c := old(Snapshot());
        var disk := FilesAfterUpload(c, id, url, failAt, unlinkFails);
        && (r.Fail? <==> UploadFails(c, id, isPrimary, failAt))
        && (r.Fail? ==> r == Fail(500, ServerError) && Snapshot() == c.(files := disk))
        && (r.Ok? ==> r == Ok(201, ImageView(c.nextImageId, base + url, isPrimary, None))
                      && Snapshot() == Uploaded(c, id, url, isPrimary, order).(files := disk))
    {
      if file.None? {
        return Fail(400, "No file uploaded");
      }
      var c := Snapshot();
      var url := "/uploads/" + file.value;
      var isPrimary := PrimaryFlag(isPrimaryField);
      var order := if displayOrder.Some? then displayOrder.value else 0;
      var ok, disk := RunUpload(c, id, url, isPrimary, failAt, unlinkFails);
      if !ok {
        FilesOutsideInvariant(c, disk);
        Commit(c.(files := disk));
        return Fail(500, ServerError);
      }
      UploadedValid(c, id, url, isPrimary, order);
      FilesOutsideInvariant(Uploaded(c, id, url, isPrimary, order), disk);
      Commit(Uploaded(c, id, url, isPrimary, order).(files := disk));
      r := Ok(201, ImageView(c.nextImageId, base + url, isPrimary, None));
    }

    /** `DELETE /admin/products/:id/images/:imageId`: one statement scoped by
        both ids; the file stays on disk and no other image becomes primary. */
    method DeleteImage(id: nat, imageId: nat, dbFails: bool) returns (r: Reply<()>)
      requires Valid()
      modifies this
      ensures Valid()
      ensures r.Fail? <==> dbFails
      ensures r.Fail? ==> r == Fail(500, ServerError) && Snapshot() == old(Snapshot())
      ensures r.Ok? ==> r == Ok(200, ()) && Snapshot() == ImageRemoved(old(Snapshot()), id, imageId)
    {
      if dbFails {
        return Fail(500, ServerError);
      }
      var c := Snapshot();
      ImageRemovedValid(c, id, imageId);
      Commit(ImageRemoved(c, id, imageId));
      r := Ok(200, ());
    }

    /** `GET /admin/products`: the product query, then one image query per
        product. */
    method AdminList(base: string) returns (r: seq<AdminProductView>)
      ensures r == AdminListing(Snapshot(), base)
    {
      var c := Snapshot();
      var rows := ListedRows(c);
      ghost var listing := AdminListing(c, base);
      r := [];
      var i := 0;
      while i < |rows|
        invariant 0 <= i <= |rows| == |listing|
        invariant r == listing[..i]
      {
        r := r + [AdminView(c.images, rows[i], base)];
        i := i + 1;
      }
      assert r == listing;
    }
  }

  /* ---------- the invariant is preserved ---------- */

  lemma {:induction false} IdsSnoc(products: seq<ProductRow>, row: ProductRow)
    ensures Ids(products + [row]) == Ids(products) + {row.id}
  {
    var s := products + [row];
    forall id | id in Ids(s) ensures id in Ids(products) + {row.id} {
      var p :| p in s && p.id == id;
      if p != row {
        assert p in products;
      }
    }
    forall id | id in Ids(products) ensures id in Ids(s) {
      var p :| p in products && p.id == id;
      assert p in s;
    }
  }

  lemma SnocDistinct(products: seq<ProductRow>, row: ProductRow)
    requires DistinctIds(products) && DistinctSlugs(products)
    requires forall p :: p in products ==> p.id != row.id && p.slug != row.slug
    ensures DistinctIds(products + [row]) && DistinctSlugs(products + [row])
  {
    var s := products + [row];
    forall i, j | 0 <= i < j < |s| ensures s[i].id != s[j].id && s[i].slug != s[j].slug {
      if j == |products| {
        assert s[i] in products;
      }
    }
  }

  lemma WithProductKeyed(c: Catalog, row: ProductRow, specs: seq<ChildInput>, packs: seq<ChildInput>, certs: seq<int>)
    requires KeyedByProducts(c)
    ensures KeyedByProducts(WithProduct(c, row, specs, packs, certs))
  {
    IdsSnoc(c.products, row);
  }

  lemma WithProductBelow(c: Catalog, row: ProductRow, specs: seq<ChildInput>, packs: seq<ChildInput>, certs: seq<int>)
    requires IdsBelow(c.products, c.nextProductId) && row.id == c.nextProductId
    ensures IdsBelow(c.products + [row], row.id + 1)
  {
    forall p | p in c.products + [row] ensures p.id < row.id + 1 {
      if p != row {
        assert p in c.products;
      }
    }
  }

  lemma WithProductValid(c: Catalog, row: ProductRow, specs: seq<ChildInput>, packs: seq<ChildInput>, certs: seq<int>)
    requires Valid(c) && row.id == c.nextProductId
    requires forall p :: p in c.products ==> p.slug != row.slug
    ensures Valid(WithProduct(c, row, specs, packs, certs))
  {
    var n := WithProduct(c, row, specs, packs, certs);
    WithProductKeyed(c, row, specs, packs, certs);
    SnocDistinct(c.products, row);
    WithProductBelow(c, row, specs, packs, certs);
    WithProductRows(c, row, specs, packs, certs);
  }

  lemma WithProductRows(c: Catalog, row: ProductRow, specs: seq<ChildInput>, packs: seq<ChildInput>, certs: seq<int>)
    requires ChildrenStamped(c) && ImagesSound(c.images, c.nextImageId)
    ensures var n := WithProduct(c, row, specs, packs, certs);
      ChildrenStamped(n) && ImagesSound(n.images, n.nextImageId)
  {
  }

  lemma CreatedValid(c: Catalog, input: ProductInput, now: int)
    requires Valid(c) && !SlugUsed(c.products, input.slug)
    ensures Valid(Created(c, input, now))
  {
    WithProductValid(c, NewRow(c, input, now), OrEmpty(input.specifications),
                     OrEmpty(input.packaging), OrEmpty(input.certifications));
  }

  lemma ReplacedIds(products: seq<ProductRow>, id: nat, input: ProductInput, now: int)
    requires input.featured.Some? && input.active.Some?
    ensures Ids(Replaced(products, id, input, now)) == Ids(products)
  {
    var r := Replaced(products, id, input, now);
    forall x | x in Ids(r) ensures x in Ids(products) {
      var k :| 0 <= k < |r| && r[k].id == x;
      assert products[k] in products;
    }
    forall x | x in Ids(products) ensures x in Ids(r) {
      var k :| 0 <= k < |products| && products[k].id == x;
      assert r[k] in r;
    }
  }

  lemma ReplacedDistinct(products: seq<ProductRow>, id: nat, input: ProductInput, now: int)
    requires input.featured.Some? && input.active.Some?
    requires DistinctIds(products) && DistinctSlugs(products)
    requires !SlugUsedByOther(products, input.slug, id)
    ensures DistinctIds(Replaced(products, id, input, now)) && DistinctSlugs(Replaced(products, id, input, now))
  {
    var r := Replaced(products, id, input, now);
    forall i, j | 0 <= i < j < |r| ensures r[i].id != r[j].id && r[i].slug != r[j].slug {
      if products[i].id == id {
        assert products[j] in products;
      } else if products[j].id == id {
        assert products[i] in products;
      }
    }
  }

  lemma UpdatedBelow(c: Catalog, id: nat, input: ProductInput, now: int)
    requires input.featured.Some? && input.active.Some?
    requires IdsBelow(c.products, c.nextProductId)
    ensures IdsBelow(Replaced(c.products, id, input, now), c.nextProductId)
  {
    var r := Replaced(c.products, id, input, now);
    forall p | p in r ensures p.id < c.nextProductId {
      var k :| 0 <= k < |r| && r[k] == p;
      assert c.products[k] in c.products;
    }
  }

  lemma UpdatedKeyed(c: Catalog, id: nat, input: ProductInput, now: int)
    requires input.featured.Some? && input.active.Some?
    requires KeyedByProducts(c) && id in Ids(c.products)
    ensures KeyedByProducts(Updated(c, id, input, now))
  {
    ReplacedIds(c.products, id, input, now);
  }

  lemma UpdatedRows(c: Catalog, id: nat, input: ProductInput, now: int)
    requires id in Ids(c.products) ==> FlagsGiven(input)
    requires ChildrenStamped(c) && ImagesSound(c.images, c.nextImageId)
    ensures var n := Updated(c, id, input, now);
      ChildrenStamped(n) && ImagesSound(n.images, n.nextImageId)
  {
  }

  lemma UpdatedValid(c: Catalog, id: nat, input: ProductInput, now: int)
    requires Valid(c)
    requires !(id in Ids(c.products) && (SlugUsedByOther(c.products, input.slug, id) || !FlagsGiven(input)))
    ensures Valid(Updated(c, id, input, now))
  {
    if id in Ids(c.products) {
      ReplacedDistinct(c.products, id, input, now);
      UpdatedBelow(c, id, input, now);
      UpdatedKeyed(c, id, input, now);
      UpdatedRows(c, id, input, now);
    }
  }

  /** Filtering keeps the id and slug uniqueness of the product table. */
  lemma FilterKeepsDistinct(s: seq<ProductRow>, keep: ProductRow -> bool)
    requires DistinctIds(s) && DistinctSlugs(s)
    ensures DistinctIds(Filter(s, keep)) && DistinctSlugs(Filter(s, keep))
  {
    FilterPairs(s, keep, (a: ProductRow, b: ProductRow) => a.id != b.id);
    FilterPairs(s, keep, (a: ProductRow, b: ProductRow) => a.slug != b.slug);
  }

  lemma RemovedIds(products: seq<ProductRow>, id: nat)
    ensures Ids(Filter(products, (p: ProductRow) => p.id != id)) == Ids(products) - {id}
  {
    var f := Filter(products, (p: ProductRow) => p.id != id);
    forall x | x in Ids(products) - {id} ensures x in Ids(f) {
      var p :| p in products && p.id == x;
      assert p in f;
    }
  }

  lemma RemovedKeyed(c: Catalog, id: nat)
    requires KeyedByProducts(c)
    ensures KeyedByProducts(Removed(c, id))
  {
    RemovedIds(c.products, id);
  }

  lemma RemovedRows(c: Catalog, id: nat)
    requires IdsBelow(c.products, c.nextProductId)
    requires ChildrenStamped(c) && ImagesSound(c.images, c.nextImageId)
    ensures var n := Removed(c, id);
      IdsBelow(n.products, n.nextProductId) && ChildrenStamped(n) && ImagesSound(n.images, n.nextImageId)
  {
  }

  lemma RemovedValid(c: Catalog, id: nat)
    requires Valid(c)
    ensures Valid(Removed(c, id))
  {
    FilterKeepsDistinct(c.products, (p: ProductRow) => p.id != id);
    RemovedKeyed(c, id);
    RemovedRows(c, id);
  }

  lemma UploadedKeyed(c: Catalog, id: nat, url: string, isPrimary: bool, order: int)
    requires KeyedByProducts(c) && id in Ids(c.products)
    ensures KeyedByProducts(Uploaded(c, id, url, isPrimary, order))
  {
  }

  lemma UploadedImages(c: Catalog, id: nat, url: string, isPrimary: bool, order: int)
    requires ImagesSound(c.images, c.nextImageId)
    ensures var n := Uploaded(c, id, url, isPrimary, order);
      ImagesSound(n.images, n.nextImageId)
  {
  }

  lemma UploadedValid(c: Catalog, id: nat, url: string, isPrimary: bool, order: int)
    requires Valid(c) && id in Ids(c.products)
    ensures Valid(Uploaded(c, id, url, isPrimary, order))
  {
    UploadedKeyed(c, id, url, isPrimary, order);
    UploadedImages(c, id, url, isPrimary, order);
  }

  /** The files on disk are not constrained by the database invariant. */
  lemma FilesOutsideInvariant(c: Catalog, disk: set<string>)
    requires Valid(c)
    ensures Valid(c.(files := disk))
  {
  }

  lemma {:induction false} FilterKeepsOnePrimary(imgs: seq<ImageRow>, keep: ImageRow -> bool)
    requires AtMostOnePrimary(imgs)
    ensures AtMostOnePrimary(Filter(imgs, keep))
  {
    if imgs != [] {
      var tail := imgs[1..];
      assert AtMostOnePrimary(tail) by {
        forall i, j | 0 <= i < |tail| && 0 <= j < |tail| && tail[i].isPrimary && tail[j].isPrimary ensures i == j {
          assert tail[i] == imgs[i + 1] && tail[j] == imgs[j + 1];
        }
      }
      FilterKeepsOnePrimary(tail, keep);
      var rest := Filter(tail, keep);
      if keep(imgs[0]) {
        var f := [imgs[0]] + rest;
        assert Filter(imgs, keep) == f;
        if imgs[0].isPrimary {
          forall x | x in tail ensures !x.isPrimary {
            var k :| 0 <= k < |tail| && tail[k] == x;
            assert imgs[k + 1] == x;
          }
        }
        forall i, j | 0 <= i < |f| && 0 <= j < |f| && f[i].isPrimary && f[j].isPrimary ensures i == j {
          if i != 0 {
            assert f[i] == rest[i - 1] && f[i] in rest;
          }
          if j != 0 {
            assert f[j] == rest[j - 1] && f[j] in rest;
          }
        }
      }
    }
  }

  lemma ImageRemovedImages(c: Catalog, id: nat, imageId: nat)
    requires ImagesSound(c.images, c.nextImageId)
    ensures var n := ImageRemoved(c, id, imageId);
      ImagesSound(n.images, n.nextImageId)
  {
    if id in c.images {
      FilterKeepsOnePrimary(c.images[id], (img: ImageRow) => img.id != imageId);
    }
  }

  lemma ImageRemovedValid(c: Catalog, id: nat, imageId: nat)
    requires Valid(c)
    ensures Valid(ImageRemoved(c, id, imageId))
  {
    ImageRemovedImages(c, id, imageId);
    assert KeyedByProducts(ImageRemoved(c, id, imageId));
  }

  /* ---------- what a committed request leaves behind ---------- */

  /** After a create, reading the product back by id gives its specification
      and packaging lists in submitted order, links to exactly the submitted
      certifications, the flag defaults and no images. */
  lemma CreateReadBack(c: Catalog, certs: seq<Certification>, input: ProductInput, now: int, base: string)
    requires Valid(c) && !SlugUsed(c.products, input.slug)
    ensures Valid(Created(c, input, now))
    ensures var n := Created(c, input, now);
      var r := AdminDetail(n, certs, c.nextProductId, base);
      && r.Ok?
      && Lines(r.body.specifications) == OrEmpty(input.specifications)
      && Lines(r.body.packaging) == OrEmpty(input.packaging)
      && (forall k :: 0 <= k < |r.body.specifications| ==> r.body.specifications[k].order == k)
      && n.links[c.nextProductId] == OrEmpty(input.certifications)
      && (forall x :: x in r.body.certifications <==> x in certs && x.id in OrEmpty(input.certifications))
      && r.body.row.featured == DefaultFeatured(input.featured)
      && r.body.row.active == DefaultActive(input.active)
      && r.body.images == []
  {
    CreatedValid(c, input, now);
    var n := Created(c, input, now);
    IdsSnoc(c.products, NewRow(c, input, now));
    StampLines(OrEmpty(input.specifications));
    StampLines(OrEmpty(input.packaging));
    var r := AdminDetail(n, certs, c.nextProductId, base);
    assert r.body.row == NewRow(c, input, now) by {
      assert forall p :: p in c.products ==> p.id < c.nextProductId;
    }
  }

  /** After an update of an existing product, its child lists are exactly the
      submitted ones in order (a missing list leaves the collection empty,
      never merged with the old rows), its links are exactly the submitted
      ids, its flags are as given, and its creation time is kept. */
  lemma UpdateReadBack(c: Catalog, certs: seq<Certification>, id: nat, input: ProductInput, now: int, base: string)
    requires Valid(c) && id in Ids(c.products)
    requires !SlugUsedByOther(c.products, input.slug, id) && FlagsGiven(input)
    ensures Valid(Updated(c, id, input, now))
    ensures var n := Updated(c, id, input, now);
      var r := AdminDetail(n, certs, id, base);
      && r.Ok?
      && Lines(r.body.specifications) == OrEmpty(input.specifications)
      && Lines(r.body.packaging) == OrEmpty(input.packaging)
      && (input.specifications.None? ==> r.body.specifications == [])
      && (input.packaging.None? ==> r.body.packaging == [])
      && n.links[id] == OrEmpty(input.certifications)
      && (forall x :: x in r.body.certifications <==> x in certs && x.id in OrEmpty(input.certifications))
      && r.body.row.featured == input.featured.value
      && r.body.row.active == input.active.value
      && r.body.row.slug == input.slug
      && r.body.row.updatedAt == now
      && (exists p :: p in c.products && p.id == id && p.createdAt == r.body.row.createdAt)
  {
    UpdatedValid(c, id, input, now);
    var n := Updated(c, id, input, now);
    UpdatedChildRows(c, id, input, now);
    forall row | row in n.products && row.id == id
      ensures && row.featured == input.featured.value && row.active == input.active.value
              && row.slug == input.slug && row.updatedAt == now
              && exists p :: p in c.products && p.id == id && p.createdAt == row.createdAt
    {
      UpdatedRowRead(c, id, input, now, row);
    }
    UpdatedIds(c, id, input, now);
    DetailOfUpdated(c, n, certs, id, input, now, base);
  }

  /** The update keeps the set of ids. */
  lemma UpdatedIds(c: Catalog, id: nat, input: ProductInput, now: int)
    requires id in Ids(c.products) && FlagsGiven(input)
    ensures id in Ids(Updated(c, id, input, now).products)
  {
    var p :| p in c.products && p.id == id;
    var k :| 0 <= k < |c.products| && c.products[k] == p;
    assert Updated(c, id, input, now).products[k].id == id;
  }

  /** Reading back a catalogue whose rows for `id` are those an update
      writes. */
  lemma DetailOfUpdated(c: Catalog, n: Catalog, certs: seq<Certification>, id: nat, input: ProductInput, now: int, base: string)
    requires Valid(n) && id in Ids(n.products) && FlagsGiven(input)
    requires n.specs[id] == Stamp(OrEmpty(input.specifications))
    requires n.packs[id] == Stamp(OrEmpty(input.packaging))
    requires n.links[id] == OrEmpty(input.certifications)
    requires forall row :: row in n.products && row.id == id ==>
      && row.featured == input.featured.value && row.active == input.active.value
      && row.slug == input.slug && row.updatedAt == now
      && exists p :: p in c.products && p.id == id && p.createdAt == row.createdAt
    ensures var r := AdminDetail(n, certs, id, base);
      && r.Ok?
      && Lines(r.body.specifications) == OrEmpty(input.specifications)
      && Lines(r.body.packaging) == OrEmpty(input.packaging)
      && (input.specifications.None? ==> r.body.specifications == [])
      && (input.packaging.None? ==> r.body.packaging == [])
      && (forall x :: x in r.body.certifications <==> x in certs && x.id in OrEmpty(input.certifications))
      && r.body.row.featured == input.featured.value
      && r.body.row.active == input.active.value
      && r.body.row.slug == input.slug
      && r.body.row.updatedAt == now
      && (exists p :: p in c.products && p.id == id && p.createdAt == r.body.row.createdAt)
  {
    StampLines(OrEmpty(input.specifications));
    StampLines(OrEmpty(input.packaging));
  }

  /** The update replaces the three child collections of the product. */
  lemma UpdatedChildRows(c: Catalog, id: nat, input: ProductInput, now: int)
    requires id in Ids(c.products) && FlagsGiven(input)
    ensures var n := Updated(c, id, input, now);
      && n.specs[id] == Stamp(OrEmpty(input.specifications))
      && n.packs[id] == Stamp(OrEmpty(input.packaging))
      && n.links[id] == OrEmpty(input.certifications)
  {
  }

  /** The row with the id after an update carries the body's slug and
      flags, the update time and the old creation time. */
  lemma UpdatedRowRead(c: Catalog, id: nat, input: ProductInput, now: int, row: ProductRow)
    requires id in Ids(c.products) && FlagsGiven(input)
    requires row in Updated(c, id, input, now).products && row.id == id
    ensures row.featured == input.featured.value && row.active == input.active.value
    ensures row.slug == input.slug && row.updatedAt == now
    ensures exists p :: p in c.products && p.id == id && p.createdAt == row.createdAt
  {
    var n := Updated(c, id, input, now);
    var k :| 0 <= k < |n.products| && n.products[k] == row;
    assert c.products[k] in c.products;
  }

  /** After a committed upload the product has exactly one image row: the new
      one, primary iff the body's flag is the string `'true'`. The images of
      every other product are untouched. */
  lemma UploadLeavesOneImage(c: Catalog, id: nat, url: string, field: Field, order: int, other: nat)
    requires other != id
    ensures var n := Uploaded(c, id, url, PrimaryFlag(field), order);
      && |ImagesOf(n.images, id)| == 1
      && ImagesOf(n.images, id)[0].url == url
      && ImagesOf(n.images, id)[0].displayOrder == order
      && (ImagesOf(n.images, id)[0].isPrimary <==> field == Text("true"))
      && ImagesOf(n.images, other) == ImagesOf(c.images, other)
      && n.products == c.products && n.specs == c.specs && n.packs == c.packs && n.links == c.links
  {
  }

  /** A failed upload rolls the rows back, but the old files it had already
      unlinked stay deleted: the restored rows name files that are gone. */
  lemma UploadRollbackKeepsUnlink(c: Catalog, id: nat, url: string, failAt: Option<nat>, unlinkFails: set<string>, img: ImageRow)
    requires UnlinkReached(c, id, failAt)
    requires img in ImagesOf(c.images, id) && img.url !in unlinkFails && img.url != url
    ensures img.url !in FilesAfterUpload(c, id, url, failAt, unlinkFails)
  {
  }

  /** The image delete removes the rows of product `id` with id `imageId` and
      nothing else. */
  lemma ImageRemovedOnly(c: Catalog, id: nat, imageId: nat)
    ensures var n := ImageRemoved(c, id, imageId);
      && n.images.Keys == c.images.Keys
      && (forall other :: other in c.images && other != id ==> n.images[other] == c.images[other])
      && (forall img :: img in ImagesOf(n.images, id) <==> img in ImagesOf(c.images, id) && img.id != imageId)
      && n.products == c.products && n.specs == c.specs && n.packs == c.packs && n.links == c.links
  {
  }
}
