/** The admin certification routes: the name-ordered list, create with its
    name check and NULL defaults, the five-column update and the delete. The
    `certifications` table is a class whose rows these routes change.

    The update binds every body field as given. The driver behind these
    routes refuses to bind an absent (`undefined`) value and raises, so any
    missing field yields a 500; an explicit `null` is bound as SQL NULL. */
module AdminCertifications {
  import opened Base
  import opened Sorting
  import opened Schema

  /** The JSON body of `POST` and `PUT /admin/certifications`. */
  datatype CertBody = CertBody(
    name: Field,
    logoUrl: Field,
    descriptionEn: Field,
    descriptionFr: Field,
    descriptionAr: Field)

  function CertIds(certs: seq<Certification>): set<nat> {
    set c | c in certs :: c.id
  }

  predicate NameTaken(certs: seq<Certification>, name: string) {
    exists c :: c in certs && c.name == name
  }

  predicate NameTakenByOther(certs: seq<Certification>, name: string, id: nat) {
    exists c :: c in certs && c.name == name && c.id != id
  }

  ghost predicate DistinctCertIds(certs: seq<Certification>) {
    forall i, j :: 0 <= i < j < |certs| ==> certs[i].id != certs[j].id
  }

  ghost predicate DistinctNames(certs: seq<Certification>) {
    forall i, j :: 0 <= i < j < |certs| ==> certs[i].name != certs[j].name
  }

  /** The inserted row: the name as given, every other column `x || null`. */
  function NewCertification(id: nat, b: CertBody): (r: Certification)
    requires b.name.Truthy()
    ensures r.id == id && r.name == b.name.text && r.name != ""
    ensures r.logoUrl.None? <==> !b.logoUrl.Truthy()
    ensures r.description.en.None? <==> !b.descriptionEn.Truthy()
    ensures r.description.fr.None? <==> !b.descriptionFr.Truthy()
    ensures r.description.ar.None? <==> !b.descriptionAr.Truthy()
    ensures r.logoUrl.Some? ==> r.logoUrl.value == b.logoUrl.text
  {
    Certification(id, b.name.text, b.logoUrl.OrNull(),
                  Localized(b.descriptionEn.OrNull(), b.descriptionFr.OrNull(), b.descriptionAr.OrNull()))
  }

  predicate CreateFails(certs: seq<Certification>, b: CertBody, dbFails: bool)
    requires b.name.Truthy()
  {
    dbFails || NameTaken(certs, b.name.text)
  }

  /** Every field of the body is present (possibly `null`). */
  predicate AllDefined(b: CertBody) {
    b.name.Defined() && b.logoUrl.Defined() && b.descriptionEn.Defined()
    && b.descriptionFr.Defined() && b.descriptionAr.Defined()
  }

  /** A present field as bound: `null` is NULL, a string, even an empty one,
      is stored as it is. */
  function Bound(f: Field): (r: Option<string>)
    requires f.Defined()
    ensures r.None? <==> f.Null?
    ensures r.Some? ==> r.value == f.text
  {
    if f.Null? then None else Some(f.text)
  }

  /** The update raises when a field is absent, and, when the id matches a
      row, when the name is NULL (NOT NULL) or another row's name (UNIQUE). */
  predicate UpdateFails(certs: seq<Certification>, id: nat, b: CertBody, dbFails: bool) {
    || dbFails
    || !AllDefined(b)
    || (id in CertIds(certs) && (b.name.Null? || NameTakenByOther(certs, b.name.text, id)))
  }

  /** The row after `UPDATE certifications SET ... WHERE id = ?`: all five
      columns from the body. */
  function Rewritten(c: Certification, b: CertBody): Certification
    requires AllDefined(b) && b.name.Text?
  {
    Certification(c.id, b.name.text, Bound(b.logoUrl),
                  Localized(Bound(b.descriptionEn), Bound(b.descriptionFr), Bound(b.descriptionAr)))
  }

  function CertsUpdated(certs: seq<Certification>, id: nat, b: CertBody): (r: seq<Certification>)
    requires id in CertIds(certs) ==> AllDefined(b) && b.name.Text?
    ensures |r| == |certs|
  {
    seq(|certs|, k requires 0 <= k < |certs| =>
      if certs[k].id == id then Rewritten(certs[k], b) else certs[k])
  }

  function CertsDeleted(certs: seq<Certification>, id: nat): seq<Certification> {
    Filter(certs, (c: Certification) => c.id != id)
  }

  class CertificationTable {
    var certs: seq<Certification>
    var nextId: nat

    /** Ids and names are unique, ids below the auto-increment counter, and
        names are never NULL. */
    ghost predicate Valid()
      reads this
    {
      && DistinctCertIds(certs)
      && DistinctNames(certs)
      && forall c :: c in certs ==> c.id < nextId
    }

    constructor ()
      ensures Valid() && certs == [] && nextId == 1
    {
      certs, nextId := [], 1;
    }

    /** `GET /admin/certifications` */
    method List(dbFails: bool) returns (r: Reply<seq<Certification>>)
      ensures r.Fail? <==> dbFails
      ensures r.Fail? ==> r == Fail(500, ServerError)
      ensures r.Ok? ==> r == Ok(200, SortBy(certs, ByName))
    {
      if dbFails {
        return Fail(500, ServerError);
      }
      r := Ok(200, SortBy(certs, ByName));
    }

    /** `POST /admin/certifications` */
    method Create(b: CertBody, dbFails: bool) returns (r: Reply<nat>)
      requires Valid()
      modifies this
      ensures Valid()
      ensures !b.name.Truthy() ==> r == Fail(400, "Name is required") && certs == old(certs) && nextId == old(nextId)
      ensures b.name.Truthy() && CreateFails(old(certs), b, dbFails) ==>
        r == Fail(500, ServerError) && certs == old(certs) && nextId == old(nextId)
      ensures b.name.Truthy() && !CreateFails(old(certs), b, dbFails) ==>
        && r == Ok(201, old(nextId))
        && certs == old(certs) + [NewCertification(old(nextId), b)]
        && nextId == old(nextId) + 1
    {
      if !b.name.Truthy() {
        return Fail(400, "Name is required");
      }
      if CreateFails(certs, b, dbFails) {
        return Fail(500, ServerError);
      }
      var row := NewCertification(nextId, b);
      ghost var before := certs;
      certs := certs + [row];
      nextId := nextId + 1;
      forall i, j | 0 <= i < j < |certs| ensures certs[i].id != certs[j].id && certs[i].name != certs[j].name {
        if j == |before| {
          assert certs[i] in before;
        }
      }
      r := Ok(201, row.id);
    }

    /** `PUT /admin/certifications/:id`: the reply is 200 whether or not a
        row has that id. */
    method Update(id: nat, b: CertBody, dbFails: bool) returns (r: Reply<()>)
      requires Valid()
      modifies this
      ensures Valid()
      ensures nextId == old(nextId)
      ensures r.Fail? <==> UpdateFails(old(certs), id, b, dbFails)
      ensures r.Fail? ==> r == Fail(500, ServerError) && certs == old(certs)
      ensures r.Ok? ==> r == Ok(200, ()) && certs == CertsUpdated(old(certs), id, b)
    {
      if UpdateFails(certs, id, b, dbFails) {
        return Fail(500, ServerError);
      }
      UpdatedKeepsInvariant(certs, id, b, nextId);
      certs := CertsUpdated(certs, id, b);
      r := Ok(200, ());
    }

    /** `DELETE /admin/certifications/:id` */
    method Delete(id: nat, dbFails: bool) returns (r: Reply<()>)
      requires Valid()
      modifies this
      ensures Valid()
      ensures nextId == old(nextId)
      ensures r.Fail? <==> dbFails
      ensures r.Fail? ==> r == Fail(500, ServerError) && certs == old(certs)
      ensures r.Ok? ==> r == Ok(200, ()) && certs == CertsDeleted(old(certs), id)
    {
      if dbFails {
        return Fail(500, ServerError);
      }
      var keep := (c: Certification) => c.id != id;
      FilterPairs(certs, keep, (a: Certification, b: Certification) => a.id != b.id);
      FilterPairs(certs, keep, (a: Certification, b: Certification) => a.name != b.name);
      certs := CertsDeleted(certs, id);
      r := Ok(200, ());
    }
  }

  lemma UpdatedKeepsInvariant(certs: seq<Certification>, id: nat, b: CertBody, nextId: nat)
    requires DistinctCertIds(certs) && DistinctNames(certs)
    requires forall c :: c in certs ==> c.id < nextId
    requires !UpdateFails(certs, id, b, false)
    ensures var n := CertsUpdated(certs, id, b);
      DistinctCertIds(n) && DistinctNames(n) && forall c :: c in n ==> c.id < nextId
  {
    var n := CertsUpdated(certs, id, b);
    forall i, j | 0 <= i < j < |n| ensures n[i].id != n[j].id && n[i].name != n[j].name {
      if certs[i].id == id {
        assert certs[j] in certs;
      } else if certs[j].id == id {
        assert certs[i] in certs;
      }
    }
    forall c | c in n ensures c.id < nextId {
      var k :| 0 <= k < |n| && n[k] == c;
      assert certs[k] in certs;
    }
  }

  /** The list holds every certification once, in name order. On a table
      whose names and ids are unique, as the table's invariant keeps them,
      the names are strictly ascending and no id is listed twice. */
  lemma ListSound(certs: seq<Certification>)
    ensures multiset(SortBy(certs, ByName)) == multiset(certs)
    ensures Sorted(SortBy(certs, ByName), ByName)
    ensures DistinctNames(certs) ==> DistinctNames(SortBy(certs, ByName))
    ensures DistinctCertIds(certs) ==> DistinctCertIds(SortBy(certs, ByName))
  {
    ByNameTotalPreorder();
    SortBySorted(certs, ByName);
    var s := SortBy(certs, ByName);
    if DistinctNames(certs) {
      PermutationKeepsKeysDistinct(certs, s, (c: Certification) => c.name);
    }
    if DistinctCertIds(certs) {
      PermutationKeepsKeysDistinct(certs, s, (c: Certification) => c.id);
    }
  }

  /** The update rewrites all five columns of the row with that id, storing
      an empty string as given, and leaves every other row as it was. */
  lemma UpdateOnlyThatRow(certs: seq<Certification>, id: nat, b: CertBody)
    requires !UpdateFails(certs, id, b, false)
    ensures var n := CertsUpdated(certs, id, b);
      && CertIds(n) == CertIds(certs)
      && (forall k :: 0 <= k < |certs| && certs[k].id != id ==> n[k] == certs[k])
      && (forall k :: 0 <= k < |certs| && certs[k].id == id ==>
            && n[k].id == id && n[k].name == b.name.text
            && (n[k].logoUrl.None? <==> b.logoUrl.Null?)
            && (n[k].description.en.None? <==> b.descriptionEn.Null?)
            && (b.logoUrl == Text("") ==> n[k].logoUrl == Some("")))
  {
    var n := CertsUpdated(certs, id, b);
    forall x | x in CertIds(n) ensures x in CertIds(certs) {
      var k :| 0 <= k < |n| && n[k].id == x;
      assert certs[k] in certs;
    }
    forall x | x in CertIds(certs) ensures x in CertIds(n) {
      var k :| 0 <= k < |certs| && certs[k].id == x;
      assert n[k] in n;
    }
  }

  /** Create keeps an empty optional field out of the table: it becomes NULL,
      where the update would store the empty string. */
  lemma CreateAndUpdateDifferOnEmpty(id: nat, b: CertBody, old_: Certification)
    requires b.name.Truthy() && AllDefined(b) && b.logoUrl == Text("")
    ensures NewCertification(id, b).logoUrl == None
    ensures Rewritten(old_, b).logoUrl == Some("")
  {
  }

  /** The delete removes exactly the rows with that id. */
  lemma DeleteRemovesOnly(certs: seq<Certification>, id: nat)
    ensures forall c :: c in CertsDeleted(certs, id) <==> c in certs && c.id != id
    ensures id !in CertIds(CertsDeleted(certs, id))
  {
  }
}
