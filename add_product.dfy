/** The product creation form of the React admin: its state, the handlers on
    the specification and packaging lists, and the body it posts to
    `POST /admin/products`. The row handlers change the form in place;
    building the body is pure. */
module AddProduct {
  import opened Base
  import opened Schema
  import opened ProductForm
  import opened AdminProducts

  /* ---------- `parseInt` ---------- */

  /** The value of a character as a digit of base 36 (`0`-`9`, then the
      letters in either case); 36 for any other character. */
  function DigitValue(c: char): nat {
    if '0' <= c <= '9' then c as nat - '0' as nat
    else if 'a' <= c <= 'z' then c as nat - 'a' as nat + 10
    else if 'A' <= c <= 'Z' then c as nat - 'A' as nat + 10
    else 36
  }

  predicate IsDigit(c: char, radix: nat) {
    DigitValue(c) < radix
  }

  /** The longest prefix made of digits of `radix`. */
  function DigitRun(s: string, radix: nat): (r: string)
    ensures |r| <= |s| && r == s[..|r|]
    ensures forall k :: 0 <= k < |r| ==> IsDigit(r[k], radix)
    ensures |r| < |s| ==> !IsDigit(s[|r|], radix)
  {
    if s != [] && IsDigit(s[0], radix) then [s[0]] + DigitRun(s[1..], radix) else []
  }

  /** The number the digits spell, most significant first. */
  function ValueOf(ds: string, radix: nat): nat {
    if ds == [] then 0 else ValueOf(ds[..|ds| - 1], radix) * radix + DigitValue(ds[|ds| - 1])
  }

  /** The longest run of digits at the start of `s`, read in `radix`;
      `None` when there is none. */
  function Digits(s: string, radix: nat): (r: Option<nat>)
  {
    var ds := DigitRun(s, radix);
    if ds == [] then None else Some(ValueOf(ds, radix))
  }

  /** A `0x` or `0X` prefix. */
  predicate HexPrefixed(u: string) {
    |u| >= 2 && u[0] == '0' && (u[1] == 'x' || u[1] == 'X')
  }

  /** The digits after the sign: base 16 after a hexadecimal prefix, base 10
      otherwise. */
  function Unsigned(u: string): (r: Option<nat>)
  {
    if HexPrefixed(u) then Digits(u[2..], 16) else Digits(u, 10)
  }

  /** `parseInt(s)` without a radix, for a text that does not start with
      white space: an optional sign, then the digits. No digit at all is
      NaN, written `None`. */
  function ParseInt(s: string): (r: Option<int>)
  {
    if s != [] && s[0] == '-' then
      match Unsigned(s[1..])
      case None => None
      case Some(v) => var m: int := v; Some(-m)
    else if s != [] && s[0] == '+' then
      match Unsigned(s[1..])
      case None => None
      case Some(v) => Some(v)
    else
      match Unsigned(s)
      case None => None
      case Some(v) => Some(v)
  }

  /** `parseInt(c.trim())` on one piece; `None` is NaN. */
  function PieceId(piece: string): Option<int> {
    ParseInt(Trim(piece))
  }

  /** `.map(c => parseInt(c.trim())).filter(c => !isNaN(c))` over the pieces. */
  function ParsedIds(pieces: seq<string>): (r: seq<int>)
    ensures |r| <= |pieces|
  {
    FilterMap(pieces, PieceId)
  }

  /** The ids are the numbers of the pieces that parse, and only those. */
  lemma ParsedIdsMembers(pieces: seq<string>)
    ensures forall x :: x in ParsedIds(pieces) <==>
      exists k :: 0 <= k < |pieces| && PieceId(pieces[k]) == Some(x)
  {
    FilterMapMembers(pieces, PieceId);
  }

  /** The certification field: a comma-separated list of ids. */
  function CertIds(text: string): seq<int> {
    ParsedIds(Split(text, ','))
  }

  /** An empty field submits no certification. */
  lemma NoCertIds()
    ensures CertIds("") == []
  {
    assert Split("", ',') == [""];
    assert ParseInt(Trim("")) == None;
  }

  /** The decimal digits of `n`, as `String(n)` writes them. */
  function Decimal(n: nat): (r: string)
    ensures r != [] && forall k :: 0 <= k < |r| ==> '0' <= r[k] <= '9'
  {
    var d := [('0' as int + n % 10) as char];
    if n < 10 then d else Decimal(n / 10) + d
  }

  lemma {:induction false} DecimalValue(n: nat)
    ensures ValueOf(Decimal(n), 10) == n
  {
    var r := Decimal(n);
    if n >= 10 {
      DecimalValue(n / 10);
      assert r[..|r| - 1] == Decimal(n / 10);
    }
  }

  lemma {:induction false} DigitsRun(ds: string)
    requires forall k :: 0 <= k < |ds| ==> '0' <= ds[k] <= '9'
    ensures DigitRun(ds, 10) == ds
  {
    if ds != [] {
      DigitsRun(ds[1..]);
    }
  }

  /** Plain decimal digits are read in base 10. */
  lemma ParseDigits(d: string)
    requires d != [] && forall k :: 0 <= k < |d| ==> '0' <= d[k] <= '9'
    ensures ParseInt(d) == Some(ValueOf(d, 10))
  {
    DigitsRun(d);
    assert d[0] != '-' && d[0] != '+';
    assert |d| >= 2 ==> d[1] != 'x' && d[1] != 'X';
  }

  /** `parseInt` reads back what `String` wrote. */
  lemma ParseDecimal(n: nat)
    ensures ParseInt(Trim(Decimal(n))) == Some(n)
  {
    var d := Decimal(n);
    assert !IsJsSpace(d[0]) && !IsJsSpace(d[|d| - 1]);
    TrimStable(d);
    ParseDigits(d);
    DecimalValue(n);
  }

  function Decimals(ids: seq<nat>): (r: seq<string>)
    ensures |r| == |ids| && forall k :: 0 <= k < |ids| ==> r[k] == Decimal(ids[k])
  {
    seq(|ids|, k requires 0 <= k < |ids| => Decimal(ids[k]))
  }

  lemma ParsedDecimals(ids: seq<nat>)
    ensures ParsedIds(Decimals(ids)) == ids
  {
    var ds := Decimals(ids);
    forall k | 0 <= k < |ids| ensures PieceId(ds[k]) == Some(ids[k]) {
      ParseDecimal(ids[k]);
    }
    FilterMapEach(ds, PieceId, ids);
  }

  /** Ids written in decimal and joined with commas are submitted as
      exactly those ids, in order. */
  lemma CertIdsRoundTrip(ids: seq<nat>)
    requires ids != []
    ensures CertIds(Join(Decimals(ids), ',')) == ids
  {
    var ds := Decimals(ids);
    forall p | p in ds ensures ',' !in p {
      var k :| 0 <= k < |ds| && ds[k] == p;
      assert forall j :: 0 <= j < |p| ==> p[j] != ',';
    }
    SplitJoin(ds, ',');
    ParsedDecimals(ids);
  }

  /* ---------- the body ---------- */

  /** The single-valued inputs of the form. */
  datatype Details = Details(
    slug: string,
    title: Localized<string>,
    category: Localized<string>,
    description: Localized<string>,
    featured: bool,
    active: bool)

  /** `s.label_en && s.value_en` */
  predicate Complete(e: ChildInput) {
    e.labels.en != "" && e.values.en != ""
  }

  /** `productData`: every input as typed, only the complete rows, and the
      parsed certification ids. */
  function SubmitPayload(d: Details, specs: seq<ChildInput>, packs: seq<ChildInput>, certs: string): ProductInput {
    ProductInput(d.slug, d.title, Localized(Some(d.category.en), Some(d.category.fr), Some(d.category.ar)),
                 d.description, Some(d.featured), Some(d.active),
                 Some(Filter(specs, Complete)), Some(Filter(packs, Complete)), Some(CertIds(certs)))
  }

  /** What the server then holds: the complete rows in the order of the form,
      nothing else, each stamped with its position; links to the parsed ids;
      the flags and texts as typed. */
  lemma SubmittedReadBack(c: Catalog, all: seq<Certification>, d: Details, specs: seq<ChildInput>,
                          packs: seq<ChildInput>, certs: string, now: int, base: string)
    requires Valid(c) && !SlugUsed(c.products, d.slug)
    ensures Valid(Created(c, SubmitPayload(d, specs, packs, certs), now))
    ensures var n := Created(c, SubmitPayload(d, specs, packs, certs), now);
      var r := AdminDetail(n, all, c.nextProductId, base);
      && r.Ok?
      && Lines(r.body.specifications) == Filter(specs, Complete)
      && (forall e :: e in Lines(r.body.specifications) <==> e in specs && Complete(e))
      && Lines(r.body.packaging) == Filter(packs, Complete)
      && (forall e :: e in Lines(r.body.packaging) <==> e in packs && Complete(e))
      && n.links[c.nextProductId] == CertIds(certs)
      && r.body.row.featured == d.featured && r.body.row.active == d.active
      && r.body.row.slug == d.slug && r.body.row.title == d.title
  {
    var input := SubmitPayload(d, specs, packs, certs);
    CreateReadBack(c, all, input, now, base);
    CreatedRow(c, all, input, now, base);
  }

  /** The product read back is the row the insert wrote. */
  lemma CreatedRow(c: Catalog, all: seq<Certification>, input: ProductInput, now: int, base: string)
    requires Valid(c) && Valid(Created(c, input, now))
    ensures AdminDetail(Created(c, input, now), all, c.nextProductId, base).body.row == NewRow(c, input, now)
  {
    IdsSnoc(c.products, NewRow(c, input, now));
    assert forall p :: p in c.products ==> p.id < c.nextProductId;
  }

  /** Where the page goes after the request. */
  datatype Outcome = Navigate(to: string) | Toast(message: string)

  const CreateFailed := "Failed to create product"

  /** A created product leads to the dashboard; otherwise a toast shows the
      server's message (`error.response?.data?.message`), or the fallback
      when there is none or no response at all. */
  function AfterCreate(reply: Option<Reply<nat>>): (o: Outcome)
    ensures o.Navigate? <==> reply.Some? && reply.value.Ok?
    ensures o.Navigate? ==> o.to == "/admin/dashboard"
    ensures o.Toast? && reply.Some? && reply.value.message != "" ==> o.message == reply.value.message
    ensures o.Toast? && (reply.None? || reply.value.message == "") ==> o.message == CreateFailed
  {
    match reply
    case Some(Ok(_, _)) => Navigate("/admin/dashboard")
    case Some(Fail(_, m)) => Toast(if m != "" then m else CreateFailed)
    case None => Toast(CreateFailed)
  }

  /* ---------- the form ---------- */

  class AddProductForm {
    var details: Details
    var specifications: seq<ChildInput>
    var packaging: seq<ChildInput>
    /** The comma-separated certification ids, as typed. */
    var certifications: string

    /** Everything empty, not featured, active, one blank row in each list. */
    constructor ()
      ensures details == Details("", Localized("", "", ""), Localized("", "", ""), Localized("", "", ""), false, true)
      ensures specifications == [Blank] && packaging == [Blank] && certifications == ""
    {
      details := Details("", Localized("", "", ""), Localized("", "", ""), Localized("", "", ""), false, true);
      specifications, packaging, certifications := [Blank], [Blank], "";
    }

    method AddSpecification()
      modifies this
      ensures specifications == Appended(old(specifications))
      ensures details == old(details) && packaging == old(packaging) && certifications == old(certifications)
    {
      specifications := specifications + [Blank];
    }

    method RemoveSpecification(index: int)
      modifies this
      ensures specifications == RemovedAt(old(specifications), index)
      ensures details == old(details) && packaging == old(packaging) && certifications == old(certifications)
    {
      specifications := RemovedAt(specifications, index);
    }

    /** The form passes the index of a row it shows. */
    method UpdateSpecification(index: nat, f: Part, v: string)
      requires index < |specifications|
      modifies this
      ensures specifications == UpdatedAt(old(specifications), index, f, v)
      ensures details == old(details) && packaging == old(packaging) && certifications == old(certifications)
    {
      var e := specifications[index];
      specifications := specifications[index := Set(e, f, v)];
    }

    method AddPackaging()
      modifies this
      ensures packaging == Appended(old(packaging))
      ensures details == old(details) && specifications == old(specifications) && certifications == old(certifications)
    {
      packaging := packaging + [Blank];
    }

    method RemovePackaging(index: int)
      modifies this
      ensures packaging == RemovedAt(old(packaging), index)
      ensures details == old(details) && specifications == old(specifications) && certifications == old(certifications)
    {
      packaging := RemovedAt(packaging, index);
    }

    method UpdatePackaging(index: nat, f: Part, v: string)
      requires index < |packaging|
      modifies this
      ensures packaging == UpdatedAt(old(packaging), index, f, v)
      ensures details == old(details) && specifications == old(specifications) && certifications == old(certifications)
    {
      var e := packaging[index];
      packaging := packaging[index := Set(e, f, v)];
    }

    /** The body `handleSubmit` posts. */
    function Payload(): ProductInput
      reads this
    {
      SubmitPayload(details, specifications, packaging, certifications)
    }
  }

  /** A fresh form, submitted untouched, sends no row and no certification:
      its one blank row of each kind is filtered out. */
  lemma UntouchedFormSendsNoRows()
    ensures var d := Details("", Localized("", "", ""), Localized("", "", ""), Localized("", "", ""), false, true);
      var p := SubmitPayload(d, [Blank], [Blank], "");
      p.specifications == Some([]) && p.packaging == Some([]) && p.certifications == Some([])
      && p.featured == Some(false) && p.active == Some(true)
  {
    NoCertIds();
    assert !Complete(Blank);
  }
}
