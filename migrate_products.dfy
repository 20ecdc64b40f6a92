/** The one-off migration that loads a fixed product list into the catalogue:
    a certification name-to-id map read from the table, then for each product
    its row, its specification and packaging rows stamped with their list
    position, and a link for every certification name the map knows. All of
    it is one transaction.

    Statement 0 is the certification query; each product then takes one
    statement for its row, one per specification, one per packaging line and
    one per known certification. `failAt == Some(k)` makes statement k raise. */
module MigrateProducts {
  import opened Base
  import opened Schema
  import AdminProducts

  /** One entry of the migration's product list. */
  datatype SeedProduct = SeedProduct(
    slug: string,
    title: Localized<string>,
    category: Localized<string>,
    description: Localized<string>,
    featured: bool,
    active: bool,
    specifications: seq<ChildInput>,
    packaging: seq<ChildInput>,
    certifications: seq<string>)

  function Names(certs: seq<Certification>): set<string> {
    set c | c in certs :: c.name
  }

  /** `certMap`: every name read maps to an id; when a name comes twice the
      later row wins, as with `Map.set`. */
  function NameMap(certs: seq<Certification>): (m: map<string, nat>)
  {
    if certs == [] then map[]
    else NameMap(certs[..|certs| - 1])[certs[|certs| - 1].name := certs[|certs| - 1].id]
  }

  /** The map holds every name read, and each maps to the id of the last row
      carrying it. */
  lemma {:induction false} NameMapLastWins(certs: seq<Certification>)
    ensures NameMap(certs).Keys == Names(certs)
    ensures forall n :: n in NameMap(certs) ==>
      exists k :: 0 <= k < |certs| && certs[k].name == n && certs[k].id == NameMap(certs)[n]
        && forall j :: k < j < |certs| ==> certs[j].name != n
  {
    if certs != [] {
      var pre := certs[..|certs| - 1];
      var last := certs[|certs| - 1];
      NameMapLastWins(pre);
      assert certs == pre + [last];
      var m := NameMap(certs);
      forall n | n in m ensures exists k :: (0 <= k < |certs| && certs[k].name == n && certs[k].id == m[n]
        && forall j :: k < j < |certs| ==> certs[j].name != n)
      {
        if n == last.name {
          assert certs[|certs| - 1].name == n;
        } else {
          var k :| 0 <= k < |pre| && pre[k].name == n && pre[k].id == NameMap(pre)[n]
            && forall j :: k < j < |pre| ==> pre[j].name != n;
          assert certs[k] == pre[k];
          assert forall j :: k < j < |certs| ==> certs[j].name != n by {
            forall j | k < j < |certs| ensures certs[j].name != n {
              if j < |pre| {
                assert certs[j] == pre[j];
              }
            }
          }
        }
      }
      forall n | n in Names(certs) ensures n in m.Keys {
        var c :| c in certs && c.name == n;
        if c != last {
          assert c in pre;
        }
      }
      forall n | n in m.Keys ensures n in Names(certs) {
        if n != last.name {
          var c :| c in pre && c.name == n;
          assert c in certs;
        }
      }
    }
  }

  /** The `forEach` that fills `certMap`. */
  method BuildCertMap(certs: seq<Certification>) returns (m: map<string, nat>)
    ensures m == NameMap(certs)
  {
    m := map[];
    var i := 0;
    while i < |certs|
      invariant 0 <= i <= |certs|
      invariant m == NameMap(certs[..i])
    {
      assert certs[..i + 1][..i] == certs[..i];
      m := m[certs[i].name := certs[i].id];
      i := i + 1;
    }
    assert certs[..i] == certs;
  }

  /** `if (certId)`: the name is in the map with a non-zero id. */
  predicate Known(m: map<string, nat>, name: string) {
    name in m && m[name] != 0
  }

  /** The ids linked for a list of names: the known ones, in list order. */
  function KnownIds(m: map<string, nat>, names: seq<string>): (ids: seq<nat>)
    ensures |ids| <= |names|
    ensures forall id :: id in ids <==> exists n :: n in names && Known(m, n) && m[n] == id
  {
    if names == [] then []
    else
      var pre := names[..|names| - 1];
      var n := names[|names| - 1];
      assert names == pre + [n];
      KnownIds(m, pre) + (if Known(m, n) then [m[n]] else [])
  }

  lemma {:induction false} KnownIdsMonotone(m: map<string, nat>, names: seq<string>, i: nat)
    requires i <= |names|
    ensures |KnownIds(m, names[..i])| <= |KnownIds(m, names)|
    decreases |names|
  {
    if i < |names| {
      var pre := names[..|names| - 1];
      assert names[..i] == pre[..i];
      KnownIdsMonotone(m, pre, i);
    } else {
      assert names[..i] == names;
    }
  }

  /** The link loop: one insert per known name, unknown names skipped. */
  method LinkKnown(names: seq<string>, m: map<string, nat>, first: nat, failAt: Option<nat>) returns (links: seq<nat>, ok: bool)
    ensures ok <==> !AdminProducts.InjectedIn(failAt, first, first + |KnownIds(m, names)|)
    ensures ok ==> links == KnownIds(m, names)
  {
    links := [];
    var i := 0;
    while i < |names|
      invariant 0 <= i <= |names|
      invariant links == KnownIds(m, names[..i])
      invariant !AdminProducts.InjectedIn(failAt, first, first + |links|)
    {
      assert names[..i + 1][..i] == names[..i];
      var certId := if names[i] in m then m[names[i]] else 0;
      if certId != 0 {
        if failAt == Some(first + |links|) {
          KnownIdsMonotone(m, names, i + 1);
          return links, false;
        }
        links := links + [certId];
      }
      i := i + 1;
    }
    assert names[..i] == names;
    ok := true;
  }

  /** The row inserted for an entry: every category column is set. */
  function RowFor(c: Catalog, p: SeedProduct, now: int): ProductRow {
    ProductRow(c.nextProductId, p.slug, p.title,
               Localized(Some(p.category.en), Some(p.category.fr), Some(p.category.ar)),
               p.description, p.featured, p.active, now, now)
  }

  function Statements(m: map<string, nat>, p: SeedProduct): nat {
    1 + |p.specifications| + |p.packaging| + |KnownIds(m, p.certifications)|
  }

  /** The number of the first statement after the given entries. */
  function Before(m: map<string, nat>, data: seq<SeedProduct>): nat {
    if data == [] then 1 else Before(m, data[..|data| - 1]) + Statements(m, data[|data| - 1])
  }

  /** The catalogue after the given entries are inserted. */
  function Migrated(c: Catalog, m: map<string, nat>, data: seq<SeedProduct>, now: int): Catalog {
    if data == [] then c
    else
      var cur := Migrated(c, m, data[..|data| - 1], now);
      var p := data[|data| - 1];
      AdminProducts.WithProduct(cur, RowFor(cur, p, now), p.specifications, p.packaging, KnownIds(m, p.certifications))
  }

  /** Does a statement raise while the given entries are inserted? Either the
      injected failure falls inside, or a slug is already taken. */
  predicate Fails(c: Catalog, m: map<string, nat>, data: seq<SeedProduct>, now: int, failAt: Option<nat>) {
    if data == [] then failAt == Some(0)
    else
      var pre := data[..|data| - 1];
      var p := data[|data| - 1];
      || Fails(c, m, pre, now, failAt)
      || AdminProducts.SlugUsed(Migrated(c, m, pre, now).products, p.slug)
      || AdminProducts.InjectedIn(failAt, Before(m, pre), Before(m, pre) + Statements(m, p))
  }

  lemma {:induction false} FailsMonotone(c: Catalog, m: map<string, nat>, data: seq<SeedProduct>, now: int, failAt: Option<nat>, i: nat)
    requires i <= |data| && Fails(c, m, data[..i], now, failAt)
    ensures Fails(c, m, data, now, failAt)
    decreases |data|
  {
    if i < |data| {
      var pre := data[..|data| - 1];
      assert data[..i] == pre[..i];
      FailsMonotone(c, m, pre, now, failAt, i);
    } else {
      assert data[..i] == data;
    }
  }

  /** The statements of one entry, numbered from `first`. */
  method MigrateOne(cur: Catalog, p: SeedProduct, m: map<string, nat>, first: nat, now: int, failAt: Option<nat>)
    returns (next: Option<Catalog>)
    ensures next.None? <==>
      AdminProducts.SlugUsed(cur.products, p.slug) || AdminProducts.InjectedIn(failAt, first, first + Statements(m, p))
    ensures next.Some? ==>
      next.value == AdminProducts.WithProduct(cur, RowFor(cur, p, now), p.specifications, p.packaging, KnownIds(m, p.certifications))
  {
    if failAt == Some(first) || AdminProducts.SlugUsed(cur.products, p.slug) {
      return None;
    }
    var row := RowFor(cur, p, now);
    var specRows, ok1 := AdminProducts.InsertLines(p.specifications, first + 1, failAt);
    if !ok1 {
      return None;
    }
    var packRows, ok2 := AdminProducts.InsertLines(p.packaging, first + 1 + |p.specifications|, failAt);
    if !ok2 {
      return None;
    }
    var links, ok3 := LinkKnown(p.certifications, m, first + 1 + |p.specifications| + |p.packaging|, failAt);
    if !ok3 {
      return None;
    }
    next := Some(cur.(products := cur.products + [row],
                      specs := cur.specs[row.id := specRows],
                      packs := cur.packs[row.id := packRows],
                      links := cur.links[row.id := links],
                      images := cur.images[row.id := []],
                      nextProductId := row.id + 1));
  }

  /** `migrateProducts`: `None` is a rollback. */
  method Migrate(c: Catalog, certs: seq<Certification>, data: seq<SeedProduct>, now: int, failAt: Option<nat>)
    returns (next: Option<Catalog>)
    ensures next.None? <==> Fails(c, NameMap(certs), data, now, failAt)
    ensures next.Some? ==> next.value == Migrated(c, NameMap(certs), data, now)
  {
    if failAt == Some(0) {
      FailsMonotone(c, NameMap(certs), data, now, failAt, 0);
      return None;
    }
    var m := BuildCertMap(certs);
    var cur := c;
    var stmt := 1;
    var i := 0;
    while i < |data|
      invariant 0 <= i <= |data|
      invariant cur == Migrated(c, m, data[..i], now)
      invariant stmt == Before(m, data[..i])
      invariant !Fails(c, m, data[..i], now, failAt)
    {
      assert data[..i + 1][..i] == data[..i];
      var step := MigrateOne(cur, data[i], m, stmt, now, failAt);
      if step.None? {
        FailsMonotone(c, m, data, now, failAt, i + 1);
        return None;
      }
      cur := step.value;
      stmt := stmt + Statements(m, data[i]);
      i := i + 1;
    }
    assert data[..i] == data;
    next := Some(cur);
  }

  /** The rows of product `id` are those migrated for entry `p`: its child
      rows stamped with their list position, links to exactly its known
      certifications and no images. */
  predicate LaidOut(n: Catalog, m: map<string, nat>, id: nat, p: SeedProduct) {
    && id in n.specs && n.specs[id] == Stamp(p.specifications)
    && id in n.packs && n.packs[id] == Stamp(p.packaging)
    && id in n.links && n.links[id] == KnownIds(m, p.certifications)
    && id in n.images && n.images[id] == []
  }

  /** Entry i gets the i-th fresh id and the rows of `LaidOut`. */
  lemma {:induction false} MigratedLayout(c: Catalog, m: map<string, nat>, data: seq<SeedProduct>, now: int)
    ensures Migrated(c, m, data, now).nextProductId == c.nextProductId + |data|
    ensures forall i :: 0 <= i < |data| ==> LaidOut(Migrated(c, m, data, now), m, c.nextProductId + i, data[i])
  {
    if data != [] {
      var pre := data[..|data| - 1];
      var p := data[|data| - 1];
      var cur := Migrated(c, m, pre, now);
      MigratedLayout(c, m, pre, now);
      forall i | 0 <= i < |data| ensures LaidOut(Migrated(c, m, data, now), m, c.nextProductId + i, data[i]) {
        if i < |pre| {
          assert data[i] == pre[i];
          LaidOutKept(cur, RowFor(cur, p, now), p, m, c.nextProductId + i, data[i]);
        } else {
          LaidOutLast(cur, p, m, now);
        }
      }
    }
  }

  /** Adding a product keeps the rows of every other id. */
  lemma LaidOutKept(cur: Catalog, row: ProductRow, p: SeedProduct, m: map<string, nat>, id: nat, q: SeedProduct)
    requires LaidOut(cur, m, id, q) && id != row.id
    ensures LaidOut(AdminProducts.WithProduct(cur, row, p.specifications, p.packaging, KnownIds(m, p.certifications)), m, id, q)
  {
  }

  /** The added product gets the rows of its entry. */
  lemma LaidOutLast(cur: Catalog, p: SeedProduct, m: map<string, nat>, now: int)
    ensures var row := RowFor(cur, p, now);
      LaidOut(AdminProducts.WithProduct(cur, row, p.specifications, p.packaging, KnownIds(m, p.certifications)), m, row.id, p)
  {
  }

  /** A committed migration keeps the catalogue invariant. */
  lemma {:induction false} MigratedValid(c: Catalog, m: map<string, nat>, data: seq<SeedProduct>, now: int, failAt: Option<nat>)
    requires Valid(c) && !Fails(c, m, data, now, failAt)
    ensures Valid(Migrated(c, m, data, now))
  {
    if data != [] {
      var pre := data[..|data| - 1];
      var p := data[|data| - 1];
      MigratedValid(c, m, pre, now, failAt);
      var cur := Migrated(c, m, pre, now);
      AdminProducts.WithProductValid(cur, RowFor(cur, p, now), p.specifications, p.packaging, KnownIds(m, p.certifications));
    }
  }

  /** Reading a migrated entry's specifications back in order-index order
      gives its list. */
  lemma MigratedReadBack(c: Catalog, m: map<string, nat>, data: seq<SeedProduct>, now: int, i: nat)
    requires i < |data|
    ensures var n := Migrated(c, m, data, now);
      c.nextProductId + i in n.specs && Lines(InOrder(n.specs[c.nextProductId + i])) == data[i].specifications
  {
    MigratedLayout(c, m, data, now);
    ReadBackStamped(data[i].specifications);
  }
}
