/** The certification list of the Next.js admin API. */
module NextAdminCertifications {
  import opened Base
  import opened Sorting
  import opened Schema
  import NextAdminProducts
  import AdminCertifications

  /** `SELECT id, name, description_en`: nothing else is returned. */
  datatype CertSummary = CertSummary(id: nat, name: string, descriptionEn: Option<string>)

  function Summaries(certs: seq<Certification>): (r: seq<CertSummary>)
    ensures |r| == |certs|
    ensures forall k :: 0 <= k < |r| ==> r[k] == CertSummary(certs[k].id, certs[k].name, certs[k].description.en)
  {
    seq(|certs|, k requires 0 <= k < |certs| => CertSummary(certs[k].id, certs[k].name, certs[k].description.en))
  }

  /** `GET /api/admin/certifications` */
  function List<P>(certs: seq<Certification>, header: Option<string>, verify: string -> Option<P>): (r: Reply<seq<CertSummary>>)
    ensures r.Fail? <==> NextAdminProducts.VerifyToken(header, verify).None?
    ensures r.Fail? ==> r == Fail(401, "Unauthorized")
    ensures r.Ok? ==> r.status == 200 && r.body == Summaries(SortBy(certs, ByName))
  {
    if NextAdminProducts.VerifyToken(header, verify).None? then Fail(401, "Unauthorized")
    else Ok(200, Summaries(SortBy(certs, ByName)))
  }

  /** The list names every certification once, in name order; on a table
      with unique names and ids, no name and no id appears twice. */
  lemma ListSound<P>(certs: seq<Certification>, header: Option<string>, verify: string -> Option<P>)
    requires NextAdminProducts.VerifyToken(header, verify).Some?
    ensures var body := List(certs, header, verify).body;
      && (forall i, j :: 0 <= i < j < |body| ==> StrLe(body[i].name, body[j].name))
      && multiset(SortBy(certs, ByName)) == multiset(certs)
      && |body| == |certs|
    ensures var body := List(certs, header, verify).body;
      AdminCertifications.DistinctNames(certs) ==> forall i, j :: 0 <= i < j < |body| ==> body[i].name != body[j].name
    ensures var body := List(certs, header, verify).body;
      AdminCertifications.DistinctCertIds(certs) ==> forall i, j :: 0 <= i < j < |body| ==> body[i].id != body[j].id
  {
    AdminCertifications.ListSound(certs);
  }
}
