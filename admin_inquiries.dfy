/** The admin inquiry routes: the status-filtered list, lookup by id, the
    PATCH whose SET list is built from the fields present, and delete. */
module AdminInquiries {
  import opened Base
  import opened Sorting
  import opened Schema
  import opened Inquiries

  /** `ORDER BY created_at DESC` */
  predicate NewestInquiryFirst(a: Inquiry, b: Inquiry) {
    a.createdAt >= b.createdAt
  }

  lemma NewestInquiryFirstTotalPreorder()
    ensures TotalPreorder(NewestInquiryFirst)
  {
  }

  /** `GET /admin/inquiries`: a status filter only for a truthy `status`. */
  function List(rows: seq<Inquiry>, status: Field): (r: seq<Inquiry>)
    ensures forall x :: x in r <==> x in rows && (status.Truthy() ==> x.status == status.text)
    ensures multiset(r) <= multiset(rows)
  {
    var kept := if status.Truthy() then Filter(rows, (x: Inquiry) => x.status == status.text) else rows;
    assert multiset(kept) <= multiset(rows) by {
      if status.Truthy() {
        FilterMultiset(rows, (x: Inquiry) => x.status == status.text);
      }
    }
    SortByMembers(kept, NewestInquiryFirst);
    SortBy(kept, NewestInquiryFirst)
  }

  lemma ListSorted(rows: seq<Inquiry>, status: Field)
    ensures Sorted(List(rows, status), NewestInquiryFirst)
    ensures !status.Truthy() ==> multiset(List(rows, status)) == multiset(rows)
  {
    NewestInquiryFirstTotalPreorder();
    var kept := if status.Truthy() then Filter(rows, (x: Inquiry) => x.status == status.text) else rows;
    SortBySorted(kept, NewestInquiryFirst);
  }

  function FindInquiry(rows: seq<Inquiry>, id: nat): (r: Option<Inquiry>)
    ensures r.Some? ==> r.value in rows && r.value.id == id
    ensures r.None? <==> forall x :: x in rows ==> x.id != id
  {
    if rows == [] then None
    else if rows[0].id == id then Some(rows[0])
    else FindInquiry(rows[1..], id)
  }

  /** `GET /admin/inquiries/:id` */
  function Get(rows: seq<Inquiry>, id: nat): (r: Reply<Inquiry>)
    ensures r.Fail? <==> forall x :: x in rows ==> x.id != id
    ensures r.Fail? ==> r == Fail(404, "Inquiry not found")
    ensures r.Ok? ==> r.status == 200 && r.body in rows && r.body.id == id
  {
    match FindInquiry(rows, id)
    case None => Fail(404, "Inquiry not found")
    case Some(x) => Ok(200, x)
  }

  /** One entry of the `SET` list with its parameter. */
  datatype Assignment = SetStatus(status: string) | SetNotes(notes: Option<string>)

  /** The SQL value of a defined `notes` field: `null` stays NULL, a string
      (the empty one included) is stored as given. */
  function NotesValue(notes: Field): Option<string> {
    if notes.Text? then Some(notes.text) else None
  }

  /** One entry per field present, the status entry first. */
  predicate Shaped(updates: seq<Assignment>, status: Field, notes: Field) {
    && |updates| == (if status.Truthy() then 1 else 0) + (if notes.Defined() then 1 else 0)
    && (status.Truthy() ==> updates[0] == SetStatus(status.text))
    && (notes.Defined() ==> updates[|updates| - 1] == SetNotes(NotesValue(notes)))
  }

  /** The `updates.push(...)` builder. */
  method BuildAssignments(status: Field, notes: Field) returns (updates: seq<Assignment>)
    ensures Shaped(updates, status, notes)
  {
    updates := [];
    if status.Truthy() {
      updates := updates + [SetStatus(status.text)];
    }
    if notes.Defined() {
      updates := updates + [SetNotes(NotesValue(notes))];
    }
  }

  function Assign(x: Inquiry, a: Assignment): Inquiry {
    match a
    case SetStatus(s) => x.(status := s)
    case SetNotes(n) => x.(notes := n)
  }

  /** The row after the PATCH, from the request alone: status replaced when
      truthy, notes replaced when present, every other column kept. */
  function Patched(x: Inquiry, status: Field, notes: Field): (r: Inquiry)
    ensures r.(status := x.status, notes := x.notes) == x
    ensures r.status == (if status.Truthy() then status.text else x.status)
    ensures r.notes == (if notes.Defined() then NotesValue(notes) else x.notes)
  {
    x.(status := if status.Truthy() then status.text else x.status,
       notes := if notes.Defined() then NotesValue(notes) else x.notes)
  }

  /** `UPDATE inquiries SET ... WHERE id = ?`, applied to every row. */
  method ApplyUpdates(rows: seq<Inquiry>, id: nat, updates: seq<Assignment>) returns (out: seq<Inquiry>)
    ensures |out| == |rows|
    ensures forall k :: 0 <= k < |rows| ==> out[k] == if rows[k].id == id then AssignAll(rows[k], updates) else rows[k]
  {
    out := [];
    var i := 0;
    while i < |rows|
      invariant 0 <= i <= |rows|
      invariant |out| == i
      invariant forall k :: 0 <= k < i ==> out[k] == if rows[k].id == id then AssignAll(rows[k], updates) else rows[k]
    {
      out := out + [if rows[i].id == id then AssignAll(rows[i], updates) else rows[i]];
      i := i + 1;
    }
  }

  function AssignAll(x: Inquiry, updates: seq<Assignment>): Inquiry
    decreases |updates|
  {
    if updates == [] then x else AssignAll(Assign(x, updates[0]), updates[1..])
  }

  /** Applying the built SET list is the same as the direct statement of the
      PATCH. */
  lemma AssignmentsMeanPatch(x: Inquiry, status: Field, notes: Field, updates: seq<Assignment>)
    requires Shaped(updates, status, notes)
    ensures AssignAll(x, updates) == Patched(x, status, notes)
  {
    if |updates| == 2 {
      var y := Assign(x, updates[0]);
      assert updates[1..][0] == updates[1] && updates[1..][1..] == [];
      assert AssignAll(y, updates[1..]) == AssignAll(Assign(y, updates[1]), []);
    } else if |updates| == 1 {
      assert updates[1..] == [];
    }
  }

  /** `PATCH /admin/inquiries/:id`: 400 and no statement when neither field
      is present; otherwise one UPDATE, which changes only the row with that
      id (and none when there is none; the reply is the same). */
  method Patch(t: InquiryTable, id: nat, status: Field, notes: Field, dbFails: bool) returns (r: Reply<()>)
    requires t.Valid()
    modifies t
    ensures t.Valid() && t.nextId == old(t.nextId)
    ensures !status.Truthy() && !notes.Defined() ==> r == Fail(400, "No fields to update") && t.rows == old(t.rows)
    ensures (status.Truthy() || notes.Defined()) && dbFails ==> r == Fail(500, ServerError) && t.rows == old(t.rows)
    ensures (status.Truthy() || notes.Defined()) && !dbFails ==>
      && r == Ok(200, ())
      && |t.rows| == |old(t.rows)|
      && forall k :: 0 <= k < |t.rows| ==>
           t.rows[k] == if old(t.rows)[k].id == id then Patched(old(t.rows)[k], status, notes) else old(t.rows)[k]
  {
    var updates := BuildAssignments(status, notes);
    if |updates| == 0 {
      return Fail(400, "No fields to update");
    }
    if dbFails {
      return Fail(500, ServerError);
    }
    var old_ := t.rows;
    var out := ApplyUpdates(old_, id, updates);
    forall k | 0 <= k < |old_| && old_[k].id == id ensures out[k] == Patched(old_[k], status, notes) {
      AssignmentsMeanPatch(old_[k], status, notes, updates);
    }
    PatchedKeepsIds(old_, out);
    t.rows := out;
    r := Ok(200, ());
  }

  lemma PatchedKeepsIds(rows: seq<Inquiry>, out: seq<Inquiry>)
    requires |out| == |rows|
    requires forall k :: 0 <= k < |rows| ==> out[k].id == rows[k].id
    ensures DistinctInquiryIds(rows) ==> DistinctInquiryIds(out)
    ensures forall x :: x in out ==> exists y :: y in rows && y.id == x.id
  {
    forall x | x in out ensures exists y :: y in rows && y.id == x.id {
      var k :| 0 <= k < |out| && out[k] == x;
      assert rows[k] in rows;
    }
  }

  /** `DELETE /admin/inquiries/:id` */
  method Delete(t: InquiryTable, id: nat, dbFails: bool) returns (r: Reply<()>)
    requires t.Valid()
    modifies t
    ensures t.Valid() && t.nextId == old(t.nextId)
    ensures dbFails ==> r == Fail(500, ServerError) && t.rows == old(t.rows)
    ensures !dbFails ==> r == Ok(200, ()) && t.rows == Filter(old(t.rows), (x: Inquiry) => x.id != id)
  {
    if dbFails {
      return Fail(500, ServerError);
    }
    FilterPairs(t.rows, (x: Inquiry) => x.id != id, (a: Inquiry, b: Inquiry) => a.id != b.id);
    t.rows := Filter(t.rows, (x: Inquiry) => x.id != id);
    r := Ok(200, ());
  }

  /** After a delete no row has that id, and every other row is kept. */
  lemma DeleteRemovesOnly(rows: seq<Inquiry>, id: nat)
    ensures forall x :: x in Filter(rows, (y: Inquiry) => y.id != id) <==> x in rows && x.id != id
    ensures FindInquiry(Filter(rows, (y: Inquiry) => y.id != id), id).None?
  {
  }
}
