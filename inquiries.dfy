/** The public inquiry endpoint: required-field validation, the insert with
    the fixed initial status, and the best-effort notification mail. The
    `inquiries` table is a class whose rows the admin routes also change. */
module Inquiries {
  import opened Base
  import opened Schema

  /** A row of `inquiries`. */
  datatype Inquiry = Inquiry(
    id: nat,
    name: string,
    company: string,
    email: string,
    phone: Option<string>,
    country: string,
    message: string,
    productsInterested: Option<string>,
    status: string,
    notes: Option<string>,
    createdAt: int)

  /** The JSON body of `POST /inquiries`. */
  datatype InquiryBody = InquiryBody(
    name: Field,
    company: Field,
    email: Field,
    phone: Field,
    country: Field,
    message: Field,
    productsInterested: Field)

  const InitialStatus := "new"

  /** `!name || !company || !email || !country || !message` is false. */
  predicate Complete(b: InquiryBody) {
    b.name.Truthy() && b.company.Truthy() && b.email.Truthy() && b.country.Truthy() && b.message.Truthy()
  }

  /** The inserted row: optional fields become NULL when empty, status is
      `new`, notes are NULL. */
  function NewInquiry(id: nat, b: InquiryBody, now: int): (r: Inquiry)
    requires Complete(b)
    ensures r.status == InitialStatus && r.notes.None? && r.id == id
    ensures r.phone.None? <==> !b.phone.Truthy()
    ensures r.productsInterested.None? <==> !b.productsInterested.Truthy()
    ensures r.name == b.name.text && r.company == b.company.text && r.email == b.email.text
    ensures r.country == b.country.text && r.message == b.message.text
  {
    Inquiry(id, b.name.text, b.company.text, b.email.text, b.phone.OrNull(), b.country.text,
            b.message.text, b.productsInterested.OrNull(), InitialStatus, None, now)
  }

  ghost predicate DistinctInquiryIds(rows: seq<Inquiry>) {
    forall i, j :: 0 <= i < j < |rows| ==> rows[i].id != rows[j].id
  }

  class InquiryTable {
    var rows: seq<Inquiry>
    var nextId: nat

    /** Ids are unique and below the auto-increment counter. */
    ghost predicate Valid()
      reads this
    {
      DistinctInquiryIds(rows) && forall r :: r in rows ==> r.id < nextId
    }

    constructor ()
      ensures Valid() && rows == [] && nextId == 1
    {
      rows, nextId := [], 1;
    }

    /** `POST /inquiries`. `insertFails` makes the INSERT raise; `mailFails`
        makes the notification raise, which changes nothing. */
    method Submit(b: InquiryBody, now: int, insertFails: bool, mailFails: bool) returns (r: Reply<nat>)
      requires Valid()
      modifies this
      ensures Valid()
      ensures !Complete(b) ==> r == Fail(400, "Required fields missing") && rows == old(rows) && nextId == old(nextId)
      ensures Complete(b) && insertFails ==> r == Fail(500, ServerError) && rows == old(rows) && nextId == old(nextId)
      ensures Complete(b) && !insertFails ==>
        && r == Ok(201, old(nextId))
        && rows == old(rows) + [NewInquiry(old(nextId), b, now)]
        && nextId == old(nextId) + 1
    {
      if !Complete(b) {
        return Fail(400, "Required fields missing");
      }
      if insertFails {
        return Fail(500, ServerError);
      }
      var id := nextId;
      rows := rows + [NewInquiry(id, b, now)];
      nextId := nextId + 1;
      if mailFails {
        // the send error is logged and swallowed
      }
      r := Ok(201, id);
    }
  }

  /** The five fields the route requires, in the order it tests them. */
  function Required(b: InquiryBody): seq<Field> {
    [b.name, b.company, b.email, b.country, b.message]
  }

  /** A submission is stored exactly when every required field is a
      non-empty string; an empty, null or missing one is refused, while the
      phone and product fields may be anything. */
  lemma SubmitOutcome(b: InquiryBody)
    ensures Complete(b) <==> forall k :: 0 <= k < |Required(b)| ==> Required(b)[k].Text? && Required(b)[k].text != ""
    ensures b.name == Text("") || b.company.Null? || b.email.Undefined? ==> !Complete(b)
    ensures Complete(b) ==> Complete(b.(phone := Undefined, productsInterested := Null))
  {
    if !Complete(b) {
      var k := if !b.name.Truthy() then 0 else if !b.company.Truthy() then 1 else if !b.email.Truthy() then 2
               else if !b.country.Truthy() then 3 else 4;
      assert !Required(b)[k].Truthy();
    }
  }
}
