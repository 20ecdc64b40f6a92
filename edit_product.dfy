/** The product edit form of the React admin: it loads the product from
    `GET /admin/products/:id` into its state, posts the state back to
    `PUT /admin/products/:id`, and uploads an image with an `is_primary` flag
    derived from the images it shows. Every handler builds a new state. */
module EditProduct {
  import opened Base
  import opened Schema
  import opened ProductForm
  import opened AdminProducts
  import opened AddProduct

  /** A column value as it arrives in the JSON body. MySQL returns a BOOLEAN
      (TINYINT(1)) column as the number 0 or 1. */
  datatype Json = JUndefined | JNull | JBool(b: bool) | JNum(n: int) | JStr(s: string)

  /** How a flag column travels. */
  function WireFlag(b: bool): Json {
    JNum(if b then 1 else 0)
  }

  /** JavaScript truthiness. */
  predicate JsTruthy(j: Json) {
    match j
    case JUndefined => false
    case JNull => false
    case JBool(b) => b
    case JNum(n) => n != 0
    case JStr(s) => s != ""
  }

  /** `product.x || ''` on a text column that may be NULL. */
  function TextOrEmpty(v: Option<string>): (r: string)
    ensures v.Some? ==> r == v.value
    ensures v.None? ==> r == ""
  {
    if v.Some? then v.value else ""
  }

  /** `product.featured || false`, as the checkbox reads it: checked iff the
      column is truthy. */
  function LoadedFeatured(j: Json): (b: bool)
    ensures forall f :: j == WireFlag(f) ==> b == f
  {
    JsTruthy(j)
  }

  /** `product.active !== false`, as written. The column arrives as a
      number, never as `false`, so this is always true for a stored row. */
  function LoadedActiveAsWritten(j: Json): (b: bool)
    ensures !b <==> j == JBool(false)
  {
    j != JBool(false)
  }

  /** An inactive product loads into the form as active. */
  lemma InactiveLoadsAsActive()
    ensures LoadedActiveAsWritten(WireFlag(false))
    ensures WireFlag(false) != WireFlag(true)
  {
  }

  /** The intended reading: inactive for a false or zero column, active
      otherwise (so also when the column is absent). */
  function LoadedActive(j: Json): (b: bool)
    ensures !b <==> j == JBool(false) || j == JNum(0)
  {
    !(j == JBool(false) || j == JNum(0))
  }

  /** The intended reading gives back the stored flag, whether it travels
      as a number or as a boolean. */
  lemma LoadedActiveRoundTrip(b: bool)
    ensures LoadedActive(WireFlag(b)) == b
    ensures LoadedActive(JBool(b)) == b
    ensures LoadedActive(JUndefined)
  {
  }

  /** The form fields after a load (`setFormData`), as written: the active
      box reads `product.active !== false`, so it is ticked for every stored
      row, inactive ones included. */
  function LoadedDetails(row: ProductRow): (d: Details)
    ensures d.slug == row.slug && d.title == row.title && d.description == row.description
    ensures d.featured == row.featured && d.active
    ensures d.category == Localized(TextOrEmpty(row.category.en), TextOrEmpty(row.category.fr),
                                    TextOrEmpty(row.category.ar))
  {
    Details(row.slug, row.title,
            Localized(TextOrEmpty(row.category.en), TextOrEmpty(row.category.fr), TextOrEmpty(row.category.ar)),
            row.description, LoadedFeatured(WireFlag(row.featured)), LoadedActiveAsWritten(WireFlag(row.active)))
  }

  /** The form fields after a load with the intended reading of the active
      flag: both flags are those of the row. */
  function LoadedDetailsIntended(row: ProductRow): (d: Details)
    ensures d.slug == row.slug && d.title == row.title && d.description == row.description
    ensures d.featured == row.featured && d.active == row.active
    ensures d == LoadedDetails(row).(active := row.active)
  {
    Details(row.slug, row.title,
            Localized(TextOrEmpty(row.category.en), TextOrEmpty(row.category.fr), TextOrEmpty(row.category.ar)),
            row.description, LoadedFeatured(WireFlag(row.featured)), LoadedActive(WireFlag(row.active)))
  }

  /** The state of the page. */
  datatype EditState = EditState(
    details: Details,
    currentImages: seq<ImageView>,
    specifications: seq<ChildInput>,
    packaging: seq<ChildInput>)

  const Initial := EditState(Details("", Localized("", "", ""), Localized("", "", ""), Localized("", "", ""), false, true),
                             [], [], [])

  /** `fetchProduct` after a successful load: the form fields are replaced;
      the images, specifications and packaging only when the loaded list is
      non-empty. */
  function AfterFetch(s: EditState, d: AdminProductDetail): (t: EditState)
    ensures t.details == LoadedDetails(d.row)
    ensures d.images != [] ==> t.currentImages == d.images
    ensures d.images == [] ==> t.currentImages == s.currentImages
    ensures d.specifications != [] ==> t.specifications == Lines(d.specifications)
    ensures d.specifications == [] ==> t.specifications == s.specifications
    ensures d.packaging != [] ==> t.packaging == Lines(d.packaging)
    ensures d.packaging == [] ==> t.packaging == s.packaging
  {
    EditState(LoadedDetails(d.row),
              if |d.images| > 0 then d.images else s.currentImages,
              if |d.specifications| > 0 then Lines(d.specifications) else s.specifications,
              if |d.packaging| > 0 then Lines(d.packaging) else s.packaging)
  }

  /** `fetchProduct` with the intended reading of the active flag: the same
      state except for the form fields. */
  function AfterFetchIntended(s: EditState, d: AdminProductDetail): (t: EditState)
    ensures t.details == LoadedDetailsIntended(d.row)
    ensures t == AfterFetch(s, d).(details := t.details)
  {
    AfterFetch(s, d).(details := LoadedDetailsIntended(d.row))
  }

  /** With the images all deleted on the server, a reload keeps showing the
      old ones. */
  lemma StaleImagesAfterEmptyLoad(s: EditState, d: AdminProductDetail)
    requires d.images == []
    ensures AfterFetch(s, d).currentImages == s.currentImages
  {
  }

  /** The page after `fetchProduct`: a failed load leaves the state as it is
      and goes back to the dashboard. */
  datatype Loaded = Loaded(state: EditState, redirect: Option<string>)

  function AfterLoad(s: EditState, reply: Reply<AdminProductDetail>): (l: Loaded)
    ensures reply.Ok? ==> l == Loaded(AfterFetch(s, reply.body), None)
    ensures reply.Fail? ==> l == Loaded(s, Some("/admin/dashboard"))
  {
    match reply
    case Ok(_, d) => Loaded(AfterFetch(s, d), None)
    case Fail(_, _) => Loaded(s, Some("/admin/dashboard"))
  }

  /** `{ ...formData, specifications, packaging }`: there is no
      `certifications` key. */
  function UpdatePayload(s: EditState): (input: ProductInput)
    ensures input.certifications.None?
    ensures FlagsGiven(input)
    ensures input.specifications == Some(s.specifications) && input.packaging == Some(s.packaging)
  {
    var d := s.details;
    ProductInput(d.slug, d.title, Localized(Some(d.category.en), Some(d.category.fr), Some(d.category.ar)),
                 d.description, Some(d.featured), Some(d.active),
                 Some(s.specifications), Some(s.packaging), None)
  }

  /** Saving the form removes every certification link of the product. */
  lemma SaveDropsCertifications(c: Catalog, id: nat, s: EditState, now: int)
    requires id in Ids(c.products)
    ensures Updated(c, id, UpdatePayload(s), now).links[id] == []
  {
  }

  /** Stamped rows are the stamp of their lines. */
  lemma StampOfLines(rows: seq<ChildRow>)
    requires Stamped(rows)
    ensures Stamp(Lines(rows)) == rows
  {
  }

  /** Load a product, change nothing, save, as written: its rows, slug and
      featured flag are what they were and its certification links are gone,
      but it comes back active, so saving an inactive product unedited
      reactivates it. */
  lemma SaveUnedited(c: Catalog, all: seq<Certification>, id: nat, base: string, now: int)
    requires Valid(c) && id in Ids(c.products)
    ensures Valid(Updated(c, id, UpdatePayload(AfterFetch(Initial, AdminDetail(c, all, id, base).body)), now))
    ensures var old_ := AdminDetail(c, all, id, base).body;
      var n := Updated(c, id, UpdatePayload(AfterFetch(Initial, old_)), now);
      var r := AdminDetail(n, all, id, base);
      && n.specs[id] == c.specs[id] && n.packs[id] == c.packs[id] && n.links[id] == []
      && r.Ok?
      && r.body.row.slug == old_.row.slug
      && r.body.row.active
      && (!old_.row.active ==> r.body.row.active != old_.row.active)
      && r.body.row.featured == old_.row.featured
      && r.body.certifications == []
  {
    var d := AdminDetail(c, all, id, base).body;
    SavedRows(c, d, id);
    OwnSlug(c, id, d.row);
    UpdateReadBack(c, all, id, UpdatePayload(AfterFetch(Initial, d)), now, base);
  }

  /** The same round trip with the intended load: rows, slug and both flags
      are what they were, and only the certification links are gone. */
  lemma SaveUneditedIntended(c: Catalog, all: seq<Certification>, id: nat, base: string, now: int)
    requires Valid(c) && id in Ids(c.products)
    ensures Valid(Updated(c, id, UpdatePayload(AfterFetchIntended(Initial, AdminDetail(c, all, id, base).body)), now))
    ensures var old_ := AdminDetail(c, all, id, base).body;
      var n := Updated(c, id, UpdatePayload(AfterFetchIntended(Initial, old_)), now);
      var r := AdminDetail(n, all, id, base);
      && n.specs[id] == c.specs[id] && n.packs[id] == c.packs[id] && n.links[id] == []
      && r.Ok?
      && r.body.row.slug == old_.row.slug
      && r.body.row.active == old_.row.active
      && r.body.row.featured == old_.row.featured
      && r.body.certifications == []
  {
    var d := AdminDetail(c, all, id, base).body;
    SavedRows(c, d, id);
    OwnSlug(c, id, d.row);
    UpdateReadBack(c, all, id, UpdatePayload(AfterFetchIntended(Initial, d)), now, base);
  }

  /** The lines the page loaded, saved again, are the rows that were stored. */
  lemma SavedRows(c: Catalog, d: AdminProductDetail, id: nat)
    requires Valid(c) && id in c.specs && id in c.packs
    requires d.specifications == InOrder(c.specs[id]) && d.packaging == InOrder(c.packs[id])
    ensures Stamp(AfterFetch(Initial, d).specifications) == c.specs[id]
    ensures Stamp(AfterFetch(Initial, d).packaging) == c.packs[id]
  {
    StampedInOrder(c.specs[id]);
    StampedInOrder(c.packs[id]);
    StampOfLines(c.specs[id]);
    StampOfLines(c.packs[id]);
  }

  /** No other product has a product's own slug. */
  lemma OwnSlug(c: Catalog, id: nat, row: ProductRow)
    requires Valid(c) && row in c.products && row.id == id
    ensures !SlugUsedByOther(c.products, row.slug, id)
  {
    var i :| 0 <= i < |c.products| && c.products[i] == row;
    forall p | p in c.products && p.slug == row.slug ensures p.id == id {
      var j :| 0 <= j < |c.products| && c.products[j] == p;
      assert i == j;
    }
  }

  /** `currentImages.length === 0 ? 'true' : 'false'` */
  function UploadFlag(s: EditState): (f: Field)
    ensures f == Text("true") <==> s.currentImages == []
  {
    Text(if |s.currentImages| == 0 then "true" else "false")
  }

  /** The server replaces all images with the uploaded one, so an upload
      onto a product the page shows images for leaves it with no primary
      image, and the first upload leaves exactly one, primary. */
  lemma UploadPrimaryRule(c: Catalog, s: EditState, id: nat, url: string, order: int, base: string)
    ensures var n := Uploaded(c, id, url, PrimaryFlag(UploadFlag(s)), order);
      && |ImagesOf(n.images, id)| == 1
      && (s.currentImages != [] ==> PrimaryImageUrl(n.images, id, base).None?)
      && (s.currentImages == [] ==> PrimaryImageUrl(n.images, id, base) == Some(base + url))
  {
    var n := Uploaded(c, id, url, PrimaryFlag(UploadFlag(s)), order);
    assert ImagesOf(n.images, id) == [ImageRow(c.nextImageId, url, s.currentImages == [], order)];
  }
}
