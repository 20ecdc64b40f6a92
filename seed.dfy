/** The seed script: in one transaction it upserts the administrator (keyed by
    email), the certification list (keyed by name) and the page texts (keyed
    by page and section). `hash` is the bcrypt hash of the administrator
    password (`ADMIN_PASSWORD`, else `admin123`), an oracle output.

    Statement 0 is the user upsert, then one statement per certification and
    one per page text; `failAt == Some(k)` makes statement k raise. */
module Seed {
  import opened Base
  import opened Schema
  import Auth
  import AdminProducts

  /** A row of `page_content`. */
  datatype PageRow = PageRow(id: nat, pageName: string, sectionKey: string, content: Localized<string>)

  datatype CertSeed = CertSeed(name: string, descriptionEn: string)

  datatype PageSeed = PageSeed(pageName: string, sectionKey: string, content: Localized<string>)

  /** The tables the seed writes. */
  datatype Tables = Tables(
    users: seq<Auth.User>,
    certs: seq<Certification>,
    pages: seq<PageRow>,
    nextUserId: nat,
    nextCertId: nat,
    nextPageId: nat)

  /** The ten certifications the seed provides, each with its English
      description. */
  const SeedCertifications: seq<CertSeed> := [
    CertSeed("ISO 22000", "Food Safety Management System"),
    CertSeed("HACCP", "Hazard Analysis Critical Control Point"),
    CertSeed("Organic Certified", "Certified Organic Products"),
    CertSeed("IOC Certified", "International Olive Council Certification"),
    CertSeed("GlobalGAP", "Good Agricultural Practices"),
    CertSeed("BRC Food Safety", "British Retail Consortium Food Safety"),
    CertSeed("USDA Organic", "USDA Organic Certification"),
    CertSeed("EU Organic", "European Union Organic Certification"),
    CertSeed("ASTA Certified", "American Spice Trade Association"),
    CertSeed("Non-GMO", "Non-Genetically Modified Organisms")]

  /** `process.env.ADMIN_EMAIL || 'admin@1000coupole.com'` */
  function AdminEmail(env: Option<string>): string {
    OrDefault(env, "admin@1000coupole.com")
  }

  /* ---------- the three upserts ---------- */

  predicate HasEmail(users: seq<Auth.User>, email: string) {
    exists u :: u in users && u.email == email
  }

  /** `INSERT ... ON DUPLICATE KEY UPDATE password_hash = ?` */
  function UpsertUser(t: Tables, email: string, hash: string): Tables {
    if HasEmail(t.users, email)
    then t.(users := seq(|t.users|, k requires 0 <= k < |t.users| =>
                       if t.users[k].email == email then t.users[k].(passwordHash := hash) else t.users[k]))
    else t.(users := t.users + [Auth.User(t.nextUserId, email, hash, "admin")], nextUserId := t.nextUserId + 1)
  }

  predicate HasCert(certs: seq<Certification>, name: string) {
    exists c :: c in certs && c.name == name
  }

  /** `INSERT ... ON DUPLICATE KEY UPDATE description_en = ?` */
  function UpsertCert(t: Tables, s: CertSeed): Tables {
    if HasCert(t.certs, s.name)
    then t.(certs := seq(|t.certs|, k requires 0 <= k < |t.certs| =>
                       if t.certs[k].name == s.name
                       then t.certs[k].(description := t.certs[k].description.(en := Some(s.descriptionEn)))
                       else t.certs[k]))
    else t.(certs := t.certs + [Certification(t.nextCertId, s.name, None, Localized(Some(s.descriptionEn), None, None))],
            nextCertId := t.nextCertId + 1)
  }

  predicate SameKey(r: PageRow, s: PageSeed) {
    r.pageName == s.pageName && r.sectionKey == s.sectionKey
  }

  predicate HasPage(pages: seq<PageRow>, s: PageSeed) {
    exists r :: r in pages && SameKey(r, s)
  }

  /** `INSERT ... ON DUPLICATE KEY UPDATE content_en = ?, content_fr = ?, content_ar = ?` */
  function UpsertPage(t: Tables, s: PageSeed): Tables {
    if HasPage(t.pages, s)
    then t.(pages := seq(|t.pages|, k requires 0 <= k < |t.pages| =>
                       if SameKey(t.pages[k], s) then t.pages[k].(content := s.content) else t.pages[k]))
    else t.(pages := t.pages + [PageRow(t.nextPageId, s.pageName, s.sectionKey, s.content)],
            nextPageId := t.nextPageId + 1)
  }

  function CertsSeeded(t: Tables, seeds: seq<CertSeed>): Tables {
    if seeds == [] then t else UpsertCert(CertsSeeded(t, seeds[..|seeds| - 1]), seeds[|seeds| - 1])
  }

  function PagesSeeded(t: Tables, seeds: seq<PageSeed>): Tables {
    if seeds == [] then t else UpsertPage(PagesSeeded(t, seeds[..|seeds| - 1]), seeds[|seeds| - 1])
  }

  /** The tables after a committed seed. */
  function Seeded(t: Tables, email: string, hash: string, certs: seq<CertSeed>, pages: seq<PageSeed>): Tables {
    PagesSeeded(CertsSeeded(UpsertUser(t, email, hash), certs), pages)
  }

  /* ---------- the script ---------- */

  method SeedCerts(t: Tables, seeds: seq<CertSeed>, first: nat, failAt: Option<nat>) returns (next: Tables, ok: bool)
    ensures ok <==> !AdminProducts.InjectedIn(failAt, first, first + |seeds|)
    ensures ok ==> next == CertsSeeded(t, seeds)
  {
    next := t;
    var i := 0;
    while i < |seeds|
      invariant 0 <= i <= |seeds|
      invariant next == CertsSeeded(t, seeds[..i])
      invariant !AdminProducts.InjectedIn(failAt, first, first + i)
    {
      if failAt == Some(first + i) {
        return next, false;
      }
      assert seeds[..i + 1][..i] == seeds[..i];
      next := UpsertCert(next, seeds[i]);
      i := i + 1;
    }
    assert seeds[..i] == seeds;
    ok := true;
  }

  method SeedPages(t: Tables, seeds: seq<PageSeed>, first: nat, failAt: Option<nat>) returns (next: Tables, ok: bool)
    ensures ok <==> !AdminProducts.InjectedIn(failAt, first, first + |seeds|)
    ensures ok ==> next == PagesSeeded(t, seeds)
  {
    next := t;
    var i := 0;
    while i < |seeds|
      invariant 0 <= i <= |seeds|
      invariant next == PagesSeeded(t, seeds[..i])
      invariant !AdminProducts.InjectedIn(failAt, first, first + i)
    {
      if failAt == Some(first + i) {
        return next, false;
      }
      assert seeds[..i + 1][..i] == seeds[..i];
      next := UpsertPage(next, seeds[i]);
      i := i + 1;
    }
    assert seeds[..i] == seeds;
    ok := true;
  }

  /** `seedDatabase`: `None` is a rollback. */
  method SeedDatabase(t: Tables, emailEnv: Option<string>, hash: string, certs: seq<CertSeed>, pages: seq<PageSeed>, failAt: Option<nat>)
    returns (next: Option<Tables>)
    ensures next.None? <==> AdminProducts.InjectedIn(failAt, 0, 1 + |certs| + |pages|)
    ensures next.Some? ==> next.value == Seeded(t, AdminEmail(emailEnv), hash, certs, pages)
  {
    if failAt == Some(0) {
      return None;
    }
    var t1 := UpsertUser(t, AdminEmail(emailEnv), hash);
    var t2, ok1 := SeedCerts(t1, certs, 1, failAt);
    if !ok1 {
      return None;
    }
    var t3, ok2 := SeedPages(t2, pages, 1 + |certs|, failAt);
    if !ok2 {
      return None;
    }
    next := Some(t3);
  }

  /* ---------- re-running the seed ---------- */

  /** After upserting a name, some row carries it with the seeded
      description, and the rows of other names are as they were. */
  lemma UpsertCertFacts(t: Tables, s: CertSeed)
    ensures var n := UpsertCert(t, s);
      && HasCert(n.certs, s.name)
      && (forall c :: c in n.certs && c.name == s.name ==> c.description.en == Some(s.descriptionEn))
      && (forall c :: c in n.certs && c.name != s.name <==> c in t.certs && c.name != s.name)
  {
    var n := UpsertCert(t, s);
    if HasCert(t.certs, s.name) {
      var c :| c in t.certs && c.name == s.name;
      var k :| 0 <= k < |t.certs| && t.certs[k] == c;
      assert n.certs[k].name == s.name;
      forall c | c in t.certs && c.name != s.name ensures c in n.certs {
        var j :| 0 <= j < |t.certs| && t.certs[j] == c;
        assert n.certs[j] == c;
      }
    } else {
      assert n.certs[|n.certs| - 1].name == s.name;
    }
  }

  /** Seeding a list with distinct names leaves every name of the list in the
      table with its seeded description. */
  lemma {:induction false} CertsSeededFacts(t: Tables, seeds: seq<CertSeed>)
    requires forall i, j :: 0 <= i < j < |seeds| ==> seeds[i].name != seeds[j].name
    ensures forall i :: 0 <= i < |seeds| ==> HasCert(CertsSeeded(t, seeds).certs, seeds[i].name)
    ensures forall i, c :: 0 <= i < |seeds| && c in CertsSeeded(t, seeds).certs && c.name == seeds[i].name ==>
      c.description.en == Some(seeds[i].descriptionEn)
  {
    if seeds != [] {
      var pre := seeds[..|seeds| - 1];
      var last := seeds[|seeds| - 1];
      CertsSeededFacts(t, pre);
      var cur := CertsSeeded(t, pre);
      UpsertCertFacts(cur, last);
      var n := UpsertCert(cur, last);
      forall i | 0 <= i < |seeds| - 1 ensures HasCert(n.certs, seeds[i].name) {
        assert seeds[i] == pre[i];
        var c :| c in cur.certs && c.name == pre[i].name;
        assert c in n.certs;
      }
    }
  }

  /** Upserting a name whose rows already carry the seeded description
      changes nothing. */
  lemma UpsertCertStable(t: Tables, s: CertSeed)
    requires HasCert(t.certs, s.name)
    requires forall c :: c in t.certs && c.name == s.name ==> c.description.en == Some(s.descriptionEn)
    ensures UpsertCert(t, s) == t
  {
    var n := UpsertCert(t, s);
    forall k | 0 <= k < |t.certs| ensures n.certs[k] == t.certs[k] {
      if t.certs[k].name == s.name {
        assert t.certs[k] in t.certs;
      }
    }
  }

  /** Re-seeding certifications over a seeded table changes nothing. */
  lemma {:induction false} CertsReseeded(t: Tables, seeds: seq<CertSeed>, i: nat)
    requires forall a, b :: 0 <= a < b < |seeds| ==> seeds[a].name != seeds[b].name
    requires i <= |seeds|
    ensures CertsSeeded(CertsSeeded(t, seeds), seeds[..i]) == CertsSeeded(t, seeds)
  {
    var done := CertsSeeded(t, seeds);
    if i > 0 {
      CertsReseeded(t, seeds, i - 1);
      var s := seeds[i - 1];
      assert seeds[..i][..i - 1] == seeds[..i - 1] && seeds[..i][i - 1] == s;
      assert CertsSeeded(done, seeds[..i]) == UpsertCert(done, s);
      CertsSeededFacts(t, seeds);
      assert HasCert(done.certs, s.name);
      UpsertCertStable(done, s);
    }
  }

  lemma UpsertPageFacts(t: Tables, s: PageSeed)
    ensures var n := UpsertPage(t, s);
      && HasPage(n.pages, s)
      && (forall r :: r in n.pages && SameKey(r, s) ==> r.content == s.content)
      && (forall r :: r in n.pages && !SameKey(r, s) <==> r in t.pages && !SameKey(r, s))
  {
    var n := UpsertPage(t, s);
    if HasPage(t.pages, s) {
      var r :| r in t.pages && SameKey(r, s);
      var k :| 0 <= k < |t.pages| && t.pages[k] == r;
      assert SameKey(n.pages[k], s);
      forall r | r in t.pages && !SameKey(r, s) ensures r in n.pages {
        var j :| 0 <= j < |t.pages| && t.pages[j] == r;
        assert n.pages[j] == r;
      }
    } else {
      assert SameKey(n.pages[|n.pages| - 1], s);
    }
  }

  predicate DistinctKeys(seeds: seq<PageSeed>) {
    forall i, j :: 0 <= i < j < |seeds| ==> !(seeds[i].pageName == seeds[j].pageName && seeds[i].sectionKey == seeds[j].sectionKey)
  }

  lemma {:induction false} PagesSeededFacts(t: Tables, seeds: seq<PageSeed>)
    requires DistinctKeys(seeds)
    ensures forall i :: 0 <= i < |seeds| ==> HasPage(PagesSeeded(t, seeds).pages, seeds[i])
    ensures forall i, r :: 0 <= i < |seeds| && r in PagesSeeded(t, seeds).pages && SameKey(r, seeds[i]) ==>
      r.content == seeds[i].content
  {
    if seeds != [] {
      var pre := seeds[..|seeds| - 1];
      var last := seeds[|seeds| - 1];
      PagesSeededFacts(t, pre);
      var cur := PagesSeeded(t, pre);
      UpsertPageFacts(cur, last);
      var n := UpsertPage(cur, last);
      forall i | 0 <= i < |seeds| - 1 ensures HasPage(n.pages, seeds[i]) {
        assert seeds[i] == pre[i];
        var r :| r in cur.pages && SameKey(r, pre[i]);
        assert r in n.pages;
      }
    }
  }

  lemma UpsertPageStable(t: Tables, s: PageSeed)
    requires HasPage(t.pages, s)
    requires forall r :: r in t.pages && SameKey(r, s) ==> r.content == s.content
    ensures UpsertPage(t, s) == t
  {
    var n := UpsertPage(t, s);
    forall k | 0 <= k < |t.pages| ensures n.pages[k] == t.pages[k] {
      if SameKey(t.pages[k], s) {
        assert t.pages[k] in t.pages;
      }
    }
  }

  lemma {:induction false} PagesReseeded(t: Tables, seeds: seq<PageSeed>, i: nat)
    requires DistinctKeys(seeds)
    requires i <= |seeds|
    ensures PagesSeeded(PagesSeeded(t, seeds), seeds[..i]) == PagesSeeded(t, seeds)
  {
    var done := PagesSeeded(t, seeds);
    if i > 0 {
      PagesReseeded(t, seeds, i - 1);
      var s := seeds[i - 1];
      assert seeds[..i][..i - 1] == seeds[..i - 1] && seeds[..i][i - 1] == s;
      assert PagesSeeded(done, seeds[..i]) == UpsertPage(done, s);
      PagesSeededFacts(t, seeds);
      assert HasPage(done.pages, s);
      UpsertPageStable(done, s);
    }
  }

  /** The user upsert with a fresh hash overrides the earlier one. */
  lemma UpsertUserTwice(t: Tables, email: string, h1: string, h2: string)
    ensures UpsertUser(UpsertUser(t, email, h1), email, h2) == UpsertUser(t, email, h2)
  {
    var once := UpsertUser(t, email, h1);
    assert HasEmail(once.users, email) by {
      if !HasEmail(t.users, email) {
        assert once.users[|once.users| - 1].email == email;
      } else {
        var u :| u in t.users && u.email == email;
        var k :| 0 <= k < |t.users| && t.users[k] == u;
        assert once.users[k].email == email;
      }
    }
  }

  /** The certification and page upserts never touch the users. */
  lemma {:induction false} CertsSeededUsers(t: Tables, seeds: seq<CertSeed>)
    ensures var n := CertsSeeded(t, seeds);
      n.users == t.users && n.nextUserId == t.nextUserId && n.pages == t.pages && n.nextPageId == t.nextPageId
  {
    if seeds != [] {
      CertsSeededUsers(t, seeds[..|seeds| - 1]);
    }
  }

  lemma {:induction false} PagesSeededOthers(t: Tables, seeds: seq<PageSeed>)
    ensures var n := PagesSeeded(t, seeds);
      n.users == t.users && n.nextUserId == t.nextUserId && n.certs == t.certs && n.nextCertId == t.nextCertId
  {
    if seeds != [] {
      PagesSeededOthers(t, seeds[..|seeds| - 1]);
    }
  }

  lemma {:induction false} CertsSeededWithUser(t: Tables, seeds: seq<CertSeed>, email: string, hash: string)
    ensures CertsSeeded(UpsertUser(t, email, hash), seeds) == UpsertUser(CertsSeeded(t, seeds), email, hash)
  {
    if seeds != [] {
      CertsSeededWithUser(t, seeds[..|seeds| - 1], email, hash);
      CertsSeededUsers(t, seeds[..|seeds| - 1]);
    }
  }

  lemma {:induction false} PagesSeededWithUser(t: Tables, seeds: seq<PageSeed>, email: string, hash: string)
    ensures PagesSeeded(UpsertUser(t, email, hash), seeds) == UpsertUser(PagesSeeded(t, seeds), email, hash)
  {
    if seeds != [] {
      PagesSeededWithUser(t, seeds[..|seeds| - 1], email, hash);
      PagesSeededOthers(t, seeds[..|seeds| - 1]);
    }
  }

  /** Running the seed a second time, with a new hash of the password, is the
      same as running it once with that hash: only the password hash changes,
      and no certification or page row is added or altered. */
  lemma SeedTwice(t: Tables, email: string, h1: string, h2: string, certs: seq<CertSeed>, pages: seq<PageSeed>)
    requires forall i, j :: 0 <= i < j < |certs| ==> certs[i].name != certs[j].name
    requires DistinctKeys(pages)
    ensures Seeded(Seeded(t, email, h1, certs, pages), email, h2, certs, pages) == Seeded(t, email, h2, certs, pages)
  {
    var base := CertsSeeded(t, certs);
    var once := PagesSeeded(base, pages);
    CertsSeededWithUser(t, certs, email, h1);
    PagesSeededWithUser(base, pages, email, h1);
    CertsSeededWithUser(t, certs, email, h2);
    PagesSeededWithUser(base, pages, email, h2);
    assert Seeded(t, email, h1, certs, pages) == UpsertUser(once, email, h1);
    assert Seeded(t, email, h2, certs, pages) == UpsertUser(once, email, h2);
    UpsertUserTwice(once, email, h1, h2);
    var again := UpsertUser(UpsertUser(once, email, h1), email, h2);
    assert again == UpsertUser(once, email, h2);
    // the certification pass over `once` is stable
    CertsSeededWithUser(once, certs, email, h2);
    PagesSeededOthers(base, pages);
    assert CertsSeeded(once, certs) == once by {
      CertsReseeded(t, certs, |certs|);
      assert certs[..|certs|] == certs;
      CertsOverPages(base, pages, certs);
    }
    PagesSeededWithUser(once, pages, email, h2);
    assert PagesSeeded(once, pages) == once by {
      PagesReseeded(base, pages, |pages|);
      assert pages[..|pages|] == pages;
    }
    calc {
      Seeded(UpsertUser(once, email, h1), email, h2, certs, pages);
      PagesSeeded(CertsSeeded(again, certs), pages);
      PagesSeeded(CertsSeeded(UpsertUser(once, email, h2), certs), pages);
      PagesSeeded(UpsertUser(CertsSeeded(once, certs), email, h2), pages);
      PagesSeeded(UpsertUser(once, email, h2), pages);
      UpsertUser(PagesSeeded(once, pages), email, h2);
      UpsertUser(once, email, h2);
    }
  }

  /** A certification pass is stable on a table whose certifications are
      already seeded, whatever the page pass did in between. */
  lemma {:induction false} CertsOverPages(base: Tables, pages: seq<PageSeed>, certs: seq<CertSeed>)
    requires CertsSeeded(base, certs) == base
    ensures CertsSeeded(PagesSeeded(base, pages), certs) == PagesSeeded(base, pages)
  {
    PagesSeededOthers(base, pages);
    CertsOnlyCerts(base, PagesSeeded(base, pages), certs);
  }

  /** The certification pass reads and writes only the certification rows
      and their counter. */
  lemma {:induction false} CertsOnlyCerts(a: Tables, b: Tables, certs: seq<CertSeed>)
    requires a.certs == b.certs && a.nextCertId == b.nextCertId
    ensures CertsSeeded(b, certs) == CertsSeeded(a, certs).(users := b.users, pages := b.pages,
                                                             nextUserId := b.nextUserId, nextPageId := b.nextPageId)
  {
    if certs != [] {
      CertsOnlyCerts(a, b, certs[..|certs| - 1]);
      CertsSeededUsers(a, certs[..|certs| - 1]);
      CertsSeededUsers(b, certs[..|certs| - 1]);
    } else {
      assert a.(users := b.users, pages := b.pages, nextUserId := b.nextUserId, nextPageId := b.nextPageId) == b;
    }
  }

  /** The seed list holds ten entries whose names are pairwise distinct, so
      no upsert of the loop overwrites a row another entry wrote. */
  lemma SeedCertificationsDistinct()
    ensures |SeedCertifications| == 10
    ensures forall i, j :: 0 <= i < j < |SeedCertifications| ==> SeedCertifications[i].name != SeedCertifications[j].name
  {
  }
}
