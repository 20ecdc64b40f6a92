/** The product creation page of the Next.js admin: the multipart body it
    posts to `/api/admin/products`, the certification checkboxes, and the
    login gate on mount. The body is a `FormData` buffer filled by two
    loops; the toggles build new lists. */
module AddPage {
  import opened Base
  import opened Sorting
  import opened Schema
  import opened ProductForm
  import opened AddProduct
  import NextAdminProducts
  import NextAdminCertifications

  /** A `FormData` value: a text, the JSON text of a list (held as the list
      it encodes), or an uploaded file (held as its name). */
  datatype FormValue = Plain(text: string) | RowsJson(rows: seq<ChildInput>) | IdsJson(ids: seq<nat>) | Blob(file: string)

  /** The key of an entry: one of the form's own fields, or one of the keys
      the handler appends after them. */
  datatype Key = FieldKey(field: string) | SpecificationsKey | PackagingKey | CertificationsKey | ImagesKey | PrimaryKey

  /** The key as it travels. */
  function KeyText(k: Key): (s: string)
    ensures k.FieldKey? ==> s == k.field
  {
    match k
    case FieldKey(f) => f
    case SpecificationsKey => "specifications"
    case PackagingKey => "packaging"
    case CertificationsKey => "certifications"
    case ImagesKey => "images"
    case PrimaryKey => "primaryImageIndex"
  }

  datatype FormEntry = FormEntry(name: Key, value: FormValue)

  /** `String(b)` for a boolean. */
  function BoolText(b: bool): (s: string)
    ensures s == "true" <==> b
  {
    if b then "true" else "false"
  }

  /** `Object.keys(formData)` with the value of each key as text, in the
      order the state object lists them; the two flags as `"true"` or
      `"false"`. */
  function FieldEntries(d: Details): (r: seq<FormEntry>)
    ensures |r| == 12
  {
    [FormEntry(FieldKey("title_en"), Plain(d.title.en)), FormEntry(FieldKey("title_fr"), Plain(d.title.fr)),
     FormEntry(FieldKey("title_ar"), Plain(d.title.ar)), FormEntry(FieldKey("category_en"), Plain(d.category.en)),
     FormEntry(FieldKey("category_fr"), Plain(d.category.fr)), FormEntry(FieldKey("category_ar"), Plain(d.category.ar)),
     FormEntry(FieldKey("description_en"), Plain(d.description.en)), FormEntry(FieldKey("description_fr"), Plain(d.description.fr)),
     FormEntry(FieldKey("description_ar"), Plain(d.description.ar)), FormEntry(FieldKey("slug"), Plain(d.slug)),
     FormEntry(FieldKey("featured"), Plain(BoolText(d.featured))), FormEntry(FieldKey("active"), Plain(BoolText(d.active)))]
  }

  /** `s.label_en`: this page keeps a row with an English label, whatever
      its value. */
  predicate Labelled(e: ChildInput) {
    e.labels.en != ""
  }

  /** What the image loop appends for image `k`: the file, then the primary
      index when `k` is it. */
  function ImageStep(images: seq<string>, primary: int, k: nat): seq<FormEntry>
    requires k < |images|
  {
    [FormEntry(ImagesKey, Blob(images[k]))] +
    (if k == primary then [FormEntry(PrimaryKey, Plain(Decimal(k)))] else [])
  }

  /** What the image loop has appended after the first `n` images. */
  function ImageEntries(images: seq<string>, primary: int, n: nat): seq<FormEntry>
    requires n <= |images|
  {
    if n == 0 then [] else ImageEntries(images, primary, n - 1) + ImageStep(images, primary, n - 1)
  }

  /** The whole body, entry by entry. */
  function Body(d: Details, specs: seq<ChildInput>, packs: seq<ChildInput>, selected: seq<nat>,
                images: seq<string>, primary: int): seq<FormEntry>
  {
    FieldEntries(d)
    + [FormEntry(SpecificationsKey, RowsJson(Filter(specs, Labelled))),
       FormEntry(PackagingKey, RowsJson(Filter(packs, Labelled))),
       FormEntry(CertificationsKey, IdsJson(selected))]
    + ImageEntries(images, primary, |images|)
  }

  /** `handleSubmit` filling the buffer. */
  method BuildBody(d: Details, specs: seq<ChildInput>, packs: seq<ChildInput>, selected: seq<nat>,
                   images: seq<string>, primary: int) returns (data: seq<FormEntry>)
    ensures data == Body(d, specs, packs, selected, images, primary)
  {
    data := [];
    var fields := FieldEntries(d);
    var i := 0;
    while i < |fields|
      invariant 0 <= i <= |fields|
      invariant data == fields[..i]
    {
      data := data + [fields[i]];
      i := i + 1;
    }
    assert fields[..i] == fields;
    data := data + [FormEntry(SpecificationsKey, RowsJson(Filter(specs, Labelled)))];
    data := data + [FormEntry(PackagingKey, RowsJson(Filter(packs, Labelled)))];
    data := data + [FormEntry(CertificationsKey, IdsJson(selected))];
    ghost var head := data;
    var k := 0;
    while k < |images|
      invariant 0 <= k <= |images|
      invariant data == head + ImageEntries(images, primary, k)
    {
      data := data + [FormEntry(ImagesKey, Blob(images[k]))];
      if k == primary {
        data := data + [FormEntry(PrimaryKey, Plain(Decimal(k)))];
      }
      k := k + 1;
    }
  }

  /** The files of the `images` entries, in order. */
  function Files(entries: seq<FormEntry>): seq<string> {
    if entries == [] then []
    else (if entries[0].name == ImagesKey && entries[0].value.Blob? then [entries[0].value.file] else [])
         + Files(entries[1..])
  }

  /** The texts of the `primaryImageIndex` entries, in order. */
  function PrimaryMarks(entries: seq<FormEntry>): seq<string> {
    if entries == [] then []
    else (if entries[0].name == PrimaryKey && entries[0].value.Plain? then [entries[0].value.text] else [])
         + PrimaryMarks(entries[1..])
  }

  lemma {:induction false} FilesAppend(a: seq<FormEntry>, b: seq<FormEntry>)
    ensures Files(a + b) == Files(a) + Files(b)
  {
    if a == [] {
      assert a + b == b;
    } else {
      assert (a + b)[1..] == a[1..] + b;
      FilesAppend(a[1..], b);
    }
  }

  lemma {:induction false} MarksAppend(a: seq<FormEntry>, b: seq<FormEntry>)
    ensures PrimaryMarks(a + b) == PrimaryMarks(a) + PrimaryMarks(b)
  {
    if a == [] {
      assert a + b == b;
    } else {
      assert (a + b)[1..] == a[1..] + b;
      MarksAppend(a[1..], b);
    }
  }

  /** One image's entries: its file, and the mark when it is the primary. */
  lemma StepSound(images: seq<string>, primary: int, k: nat)
    requires k < |images|
    ensures Files(ImageStep(images, primary, k)) == [images[k]]
    ensures PrimaryMarks(ImageStep(images, primary, k)) == if k == primary then [Decimal(k)] else []
  {
    var a := FormEntry(ImagesKey, Blob(images[k]));
    var b := FormEntry(PrimaryKey, Plain(Decimal(k)));
    if k == primary {
      assert ImageStep(images, primary, k) == [a, b];
      assert [a, b][1..] == [b] && [b][1..] == [];
      assert Files([b]) == [];
      assert PrimaryMarks([a, b]) == PrimaryMarks([b]);
    } else {
      assert ImageStep(images, primary, k) == [a];
      assert [a][1..] == [];
    }
  }

  /** The loop appends every image, in order. */
  lemma {:induction false} ImageFiles(images: seq<string>, primary: int, n: nat)
    requires n <= |images|
    ensures Files(ImageEntries(images, primary, n)) == images[..n]
  {
    if n > 0 {
      var prev, step := ImageEntries(images, primary, n - 1), ImageStep(images, primary, n - 1);
      assert ImageEntries(images, primary, n) == prev + step;
      ImageFiles(images, primary, n - 1);
      assert Files(prev + step) == Files(prev) + Files(step) by { FilesAppend(prev, step); }
      assert Files(step) == [images[n - 1]] by { StepSound(images, primary, n - 1); }
      assert images[..n] == images[..n - 1] + [images[n - 1]];
    }
  }

  /** The loop marks the primary index exactly once when some image has
      that index, never otherwise. */
  lemma {:induction false} ImageMarks(images: seq<string>, primary: int, n: nat)
    requires n <= |images|
    ensures 0 <= primary < n ==> PrimaryMarks(ImageEntries(images, primary, n)) == [Decimal(primary)]
    ensures !(0 <= primary < n) ==> PrimaryMarks(ImageEntries(images, primary, n)) == []
  {
    if n > 0 {
      var prev, step := ImageEntries(images, primary, n - 1), ImageStep(images, primary, n - 1);
      assert ImageEntries(images, primary, n) == prev + step;
      ImageMarks(images, primary, n - 1);
      assert PrimaryMarks(prev + step) == PrimaryMarks(prev) + PrimaryMarks(step) by { MarksAppend(prev, step); }
      assert PrimaryMarks(step) == if n - 1 == primary then [Decimal(n - 1)] else [] by { StepSound(images, primary, n - 1); }
      if primary == n - 1 {
        assert PrimaryMarks(prev) == [];
        assert PrimaryMarks(step) == [Decimal(primary)];
      } else {
        assert PrimaryMarks(step) == [];
        assert PrimaryMarks(prev) + [] == PrimaryMarks(prev);
      }
    }
  }

  /** `FormData.get(k)`: the value of the first entry with key `k`. */
  function Lookup(entries: seq<FormEntry>, k: Key): Option<FormValue> {
    if entries == [] then None
    else if entries[0].name == k then Some(entries[0].value)
    else Lookup(entries[1..], k)
  }

  /** The first entry with key `k` is the one `get` returns. */
  lemma {:induction false} LookupAt(entries: seq<FormEntry>, i: nat, k: Key)
    requires i < |entries| && entries[i].name == k
    requires forall j :: 0 <= j < i ==> entries[j].name != k
    ensures Lookup(entries, k) == Some(entries[i].value)
  {
    if i > 0 {
      LookupAt(entries[1..], i - 1, k);
    }
  }

  /** The fields, then the three lists, then the images. */
  lemma BodyLayout(d: Details, specs: seq<ChildInput>, packs: seq<ChildInput>, selected: seq<nat>,
                   images: seq<string>, primary: int)
    ensures var body := Body(d, specs, packs, selected, images, primary);
      && |body| >= 15
      && (forall j :: 0 <= j < 12 ==> body[j] == FieldEntries(d)[j])
      && body[12] == FormEntry(SpecificationsKey, RowsJson(Filter(specs, Labelled)))
      && body[13] == FormEntry(PackagingKey, RowsJson(Filter(packs, Labelled)))
      && body[14] == FormEntry(CertificationsKey, IdsJson(selected))
      && Files(body) == images
      && PrimaryMarks(body) == if 0 <= primary < |images| then [Decimal(primary)] else []
  {
    var fields := FieldEntries(d);
    var lists := [FormEntry(SpecificationsKey, RowsJson(Filter(specs, Labelled))),
                  FormEntry(PackagingKey, RowsJson(Filter(packs, Labelled))),
                  FormEntry(CertificationsKey, IdsJson(selected))];
    var imgs := ImageEntries(images, primary, |images|);
    var head := fields + lists;
    assert Body(d, specs, packs, selected, images, primary) == head + imgs;
    FilesAppend(head, imgs);
    MarksAppend(head, imgs);
    assert Files(head) == [] && PrimaryMarks(head) == [] by {
      forall n | 0 <= n <= 15 ensures Files(head[n..]) == [] && PrimaryMarks(head[n..]) == [] {
        HeadFree(head, n);
      }
      assert head[0..] == head;
    }
    ImageFiles(images, primary, |images|);
    ImageMarks(images, primary, |images|);
    assert images[..|images|] == images;
  }

  /** No entry before the images is a file or a mark. */
  lemma {:induction false} HeadFree(head: seq<FormEntry>, n: nat)
    requires n <= |head|
    requires forall j :: 0 <= j < |head| ==> head[j].name != ImagesKey && head[j].name != PrimaryKey
    ensures Files(head[n..]) == [] && PrimaryMarks(head[n..]) == []
    decreases |head| - n
  {
    if n < |head| {
      HeadFree(head, n + 1);
      assert head[n..][1..] == head[n + 1..];
    }
  }

  /** The server reads back what the page put in: each field as its text
      (the flags as `"true"` or `"false"`), the rows with an English label,
      the selected ids, and every image in order with the primary index
      marked once when an image has it. */
  lemma BodyReadBack(d: Details, specs: seq<ChildInput>, packs: seq<ChildInput>, selected: seq<nat>,
                     images: seq<string>, primary: int)
    ensures var body := Body(d, specs, packs, selected, images, primary);
      && Lookup(body, FieldKey("slug")) == Some(Plain(d.slug))
      && Lookup(body, FieldKey("title_en")) == Some(Plain(d.title.en))
      && Lookup(body, FieldKey("featured")) == Some(Plain(BoolText(d.featured)))
      && Lookup(body, FieldKey("active")) == Some(Plain(BoolText(d.active)))
      && Lookup(body, SpecificationsKey) == Some(RowsJson(Filter(specs, Labelled)))
      && Lookup(body, PackagingKey) == Some(RowsJson(Filter(packs, Labelled)))
      && Lookup(body, CertificationsKey) == Some(IdsJson(selected))
      && Files(body) == images
      && PrimaryMarks(body) == if 0 <= primary < |images| then [Decimal(primary)] else []
  {
    BodyLayout(d, specs, packs, selected, images, primary);
    LookupFields(Body(d, specs, packs, selected, images, primary), d);
  }

  /** A body that starts with the fields and the three lists. */
  lemma LookupFields(body: seq<FormEntry>, d: Details)
    requires |body| >= 15 && forall j :: 0 <= j < 12 ==> body[j] == FieldEntries(d)[j]
    requires body[12].name == SpecificationsKey && body[13].name == PackagingKey && body[14].name == CertificationsKey
    ensures Lookup(body, FieldKey("slug")) == Some(Plain(d.slug))
    ensures Lookup(body, FieldKey("title_en")) == Some(Plain(d.title.en))
    ensures Lookup(body, FieldKey("featured")) == Some(Plain(BoolText(d.featured)))
    ensures Lookup(body, FieldKey("active")) == Some(Plain(BoolText(d.active)))
    ensures Lookup(body, SpecificationsKey) == Some(body[12].value)
    ensures Lookup(body, PackagingKey) == Some(body[13].value)
    ensures Lookup(body, CertificationsKey) == Some(body[14].value)
  {
    var f := FieldEntries(d);
    assert forall j :: 0 <= j < 12 ==> body[j].name.FieldKey?;
    assert body[0] == f[0] && body[9] == f[9] && body[10] == f[10] && body[11] == f[11];
    LookupAt(body, 0, FieldKey("title_en"));
    LookupAt(body, 9, FieldKey("slug"));
    LookupAt(body, 10, FieldKey("featured"));
    LookupAt(body, 11, FieldKey("active"));
    LookupAt(body, 12, SpecificationsKey);
    LookupAt(body, 13, PackagingKey);
    LookupAt(body, 14, CertificationsKey);
  }

  /* ---------- the certification checkboxes ---------- */

  /** The `onChange` of the checkbox of certification `id`: checking it
      appends the id, unchecking it removes every occurrence of the id. */
  function Toggle(selected: seq<nat>, id: nat, checked: bool): (r: seq<nat>)
    ensures checked ==> r == selected + [id]
    ensures !checked ==> id !in r && forall x :: x != id ==> (x in r <==> x in selected)
    ensures !checked ==> forall x :: x != id ==> multiset(r)[x] == multiset(selected)[x]
  {
    if checked then selected + [id]
    else Without(selected, id)
  }

  /** `selectedCertifications.includes(cert.id)`: whether the box shows checked. */
  predicate Checked(selected: seq<nat>, id: nat) {
    id in selected
  }

  /** A box shows the state it was last set to, and the other boxes keep
      theirs. */
  lemma ToggleShows(selected: seq<nat>, id: nat, checked: bool, other: nat)
    requires other != id
    ensures Checked(Toggle(selected, id, checked), id) == checked
    ensures Checked(Toggle(selected, id, checked), other) == Checked(selected, other)
  {
  }

  /** Checking a box and unchecking it again leaves the selection as it
      was, when the id was not selected before. */
  lemma ToggleBack(selected: seq<nat>, id: nat)
    requires id !in selected
    ensures Toggle(Toggle(selected, id, true), id, false) == selected
  {
    WithoutSnoc(selected, id);
    WithoutAbsent(selected, id);
  }

  /* ---------- the effect on mount ---------- */

  /** The value of `localStorage.getItem('adminToken')`; `!token` holds for
      a missing and for an empty value. */
  predicate HasToken(token: Option<string>) {
    token.Some? && token.value != ""
  }

  /** The page after its mount effect: where it went, the `Authorization`
      header of the certification request it sent (none when it sent
      none), and the certifications it lists. */
  datatype Mounted = Mounted(redirect: Option<string>, request: Option<string>,
                             certifications: seq<NextAdminCertifications.CertSummary>)

  /** `useEffect` with `fetchCertifications`: without a token the page goes
      to the login page and sends nothing; with one it asks for the
      certifications and lists the body of an ok response, keeping the
      empty list for an error status or a failed request (`None`). */
  function OnMount(token: Option<string>, response: Option<Reply<seq<NextAdminCertifications.CertSummary>>>): (m: Mounted)
    ensures !HasToken(token) ==> m == Mounted(Some("/admin/login"), None, [])
    ensures HasToken(token) ==> m.redirect.None? && m.request == Some("Bearer " + token.value)
    ensures HasToken(token) && response.Some? && response.value.Ok? ==> m.certifications == response.value.body
    ensures response.None? || response.value.Fail? ==> m.certifications == []
  {
    if !HasToken(token) then Mounted(Some("/admin/login"), None, [])
    else if response.Some? && response.value.Ok? then Mounted(None, Some("Bearer " + token.value), response.value.body)
    else Mounted(None, Some("Bearer " + token.value), [])
  }

  /** Whatever the server would answer, a page without a token fetches
      nothing and shows no certification. */
  lemma NoTokenNoFetch(token: Option<string>, a: Option<Reply<seq<NextAdminCertifications.CertSummary>>>, b: Option<Reply<seq<NextAdminCertifications.CertSummary>>>)
    requires !HasToken(token)
    ensures OnMount(token, a) == OnMount(token, b)
    ensures OnMount(token, a).request.None? && OnMount(token, a).certifications == []
  {
  }

  /** Sent to `GET /api/admin/certifications`, the request the page builds
      is answered with every certification exactly when the stored token
      verifies, and the page then lists them in name order; otherwise it
      lists none. */
  lemma MountLists<P>(certs: seq<Certification>, token: string, verify: string -> Option<P>)
    requires token != ""
    ensures var m := OnMount(Some(token), Some(NextAdminCertifications.List(certs, Some("Bearer " + token), verify)));
      && (verify(token).Some? ==> m.certifications == NextAdminCertifications.Summaries(SortBy(certs, ByName)))
      && (verify(token).None? ==> m.certifications == [])
  {
    NextAdminProducts.BearerRoundTrip(token, verify);
  }
}
