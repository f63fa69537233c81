/** The `signups` table: the public submit handler (`POST /api/signup`) and
    the admin listing (`GET /api/signups`). */
module Signups {
  import opened Request
  import opened Http
  import Sorting

  /** The fields of a submitted form; any of them may be absent. */
  datatype SignupBody = SignupBody(
    name: Option<string>,
    email: Option<string>,
    phone: Option<Value>,
    experience: Option<Value>,
    availability: Option<Value>,
    message: Option<Value>)

  /** A row of `signups`. An optional column holds `None` for SQL NULL.
      `createdAt` is the insertion time, as a number of seconds. */
  datatype Signup = Signup(
    id: nat,
    name: string,
    email: string,
    phone: Option<Value>,
    experience: Option<Value>,
    availability: Option<Value>,
    message: Option<Value>,
    createdAt: int)

  /** `field || null`: a truthy field is stored as given, any other as NULL. */
  function OrNull(field: Option<Value>): (stored: Option<Value>)
    ensures stored.Some? <==> Truthy(field)
    ensures stored.Some? ==> stored == field
  {
    if Truthy(field) then field else None
  }

  /** The `!body.name || !body.email` check passes. */
  predicate Acceptable(body: SignupBody)
  {
    Present(body.name) && Present(body.email)
  }

  /** The row the submit handler inserts for an acceptable form. */
  function NewRecord(id: nat, body: SignupBody, now: int): (r: Signup)
    requires Acceptable(body)
  {
    Signup(id, body.name.value, body.email.value,
           OrNull(body.phone), OrNull(body.experience), OrNull(body.availability), OrNull(body.message),
           now)
  }

  /** The stored name and email are the submitted ones; each optional field is
      stored as given exactly when it is truthy, and as NULL otherwise. */
  lemma NewRecordFields(id: nat, body: SignupBody, now: int)
    requires Acceptable(body)
    ensures NewRecord(id, body, now).name == body.name.value
    ensures NewRecord(id, body, now).email == body.email.value
    ensures NewRecord(id, body, now).phone == (if Truthy(body.phone) then body.phone else None)
    ensures NewRecord(id, body, now).experience == (if Truthy(body.experience) then body.experience else None)
    ensures NewRecord(id, body, now).availability == (if Truthy(body.availability) then body.availability else None)
    ensures NewRecord(id, body, now).message == (if Truthy(body.message) then body.message else None)
  {
  }

  /** An experience of `0` is falsy and so is stored as NULL. */
  lemma ZeroExperienceStoredAsNull(id: nat, body: SignupBody, now: int)
    requires Acceptable(body) && body.experience == Some(Num(0.0))
    ensures NewRecord(id, body, now).experience == None
  {
  }

  /** The `signups` table, with the id its next row gets. */
  class SignupTable {
    var records: seq<Signup>
    var nextId: nat

    constructor ()
      ensures records == [] && nextId == 1
    {
      records := [];
      nextId := 1;
    }

    /** Needs no session. A form without a name or an email is refused with
        400 and nothing is written; otherwise exactly one row is appended.
        `now` stands for the database clock that fills in `created_at`. */
    method Submit(body: SignupBody, now: int) returns (res: Result<()>)
      modifies this
      ensures res.Ok? <==> Acceptable(body)
      ensures !Acceptable(body) ==> res == Err(BadRequest) && records == old(records) && nextId == old(nextId)
      ensures Acceptable(body) ==>
                && records == old(records) + [NewRecord(old(nextId), body, now)]
                && nextId == old(nextId) + 1
    {
      if !Present(body.name) || !Present(body.email) {
        return Err(BadRequest);
      }
      records := records + [NewRecord(nextId, body, now)];
      nextId := nextId + 1;
      return Ok(());
    }
  }

  /** `ORDER BY created_at DESC`. */
  predicate NewerOrSame(a: Signup, b: Signup)
  {
    a.createdAt >= b.createdAt
  }

  lemma NewerOrSameIsTotalPreorder()
    ensures Sorting.TotalPreorder(NewerOrSame)
  {
  }

  /** Admin only: every stored row exactly once, newest first. Reading changes
      nothing, which is why this is a function of the table's rows. */
  function ListSignups(isAdmin: bool, records: seq<Signup>): (r: Result<seq<Signup>>)
    ensures !isAdmin ==> r == Err(Unauthorized)
    ensures isAdmin ==> r.Ok? && multiset(r.value) == multiset(records)
    ensures isAdmin ==> forall i, j :: 0 <= i < j < |r.value| ==> r.value[i].createdAt >= r.value[j].createdAt
  {
    if !isAdmin then Err(Unauthorized)
    else
      NewerOrSameIsTotalPreorder();
      Sorting.SortSorted(records, NewerOrSame);
      Ok(Sorting.Sort(records, NewerOrSame))
  }
}
