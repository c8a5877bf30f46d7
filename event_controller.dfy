/** The event routes: public listing and lookup, and the admin operations
    that create, delete and update events. */
module EventController {
  import opened Wrappers
  import opened Records
  import opened Seqs
  import Store

  const NotFound: string := "Event not found"
  const MissingFields: string := "Please add all required fields"
  const NoUser: string := "User not found"
  const NotAuthorized: string := "User not authorized"
  /** The schema's own validation message when `description` is missing. */
  const NoDescription: string := "Event validation failed: description: Please add a description"

  /** A JSON request body for create or update: every field may be absent.
      On create a `null` field, or an empty `date`, fails validation like an
      absent one and is `None` here. On update such a field would be stored
      as null; stored events here have no null fields, so it is `None` too. */
  datatype EventBody = EventBody(
    title: Option<string>,
    description: Option<string>,
    location: Option<string>,
    date: Option<int>,
    techStack: Option<seq<string>>,
    createdBy: Option<Id>)

  /** `Event.findById`: the position of the event with that id. */
  function Find(events: seq<Event>, id: Id): Option<nat> {
    FindById(events, (e: Event) => e.id, id)
  }

  /** `GET /api/events`: every event, earliest date first. */
  function GetEvents(events: seq<Event>): (r: seq<Event>)
    ensures SortedBy(r, (e: Event) => e.date)
    ensures multiset(r) == multiset(events)
  {
    SortBy(events, (e: Event) => e.date)
  }

  /** `GET /api/events/:id`: the stored event, or 404. */
  function GetEvent(events: seq<Event>, id: Id): (r: Outcome<Event>)
    ensures r.Failure? <==> forall e :: e in events ==> e.id != id
    ensures r.Failure? ==> r == Failure(404, NotFound)
    ensures r.Success? ==> r.status == 200 && r.value in events && r.value.id == id
  {
    var i := Find(events, id);
    if i.None? then Failure(404, NotFound) else Success(200, events[i.value])
  }

  /** `GET /api/events/mine`: exactly the caller's events, earliest date first. */
  function GetMyEvents(events: seq<Event>, caller: Caller): (r: seq<Event>)
    ensures SortedBy(r, (e: Event) => e.date)
    ensures forall e :: e in r <==> e in events && e.createdBy == caller.id
    ensures multiset(r) == multiset(Filter(events, (e: Event) => e.createdBy == caller.id))
  {
    var mine := Filter(events, (e: Event) => e.createdBy == caller.id);
    var r := SortBy(mine, (e: Event) => e.date);
    SameMembers(r, mine);
    r
  }

  /** The event `Event.create` stores: the body's fields, the schema's empty
      default for `tech_stack`, and the caller as creator whatever the body
      says. */
  function NewEvent(id: Id, body: EventBody, caller: Caller): Event
    requires Present(body.title) && Present(body.description) && Present(body.location) && body.date.Some?
  {
    Event(id, body.title.value, body.description.value, body.location.value,
          body.date.value, body.techStack.GetOr([]), caller.id)
  }

  /** `POST /api/events`: the outcome, the new events and the next fresh id. */
  function Create(events: seq<Event>, next: nat, caller: Caller, body: EventBody): (r: (Outcome<Event>, seq<Event>, nat))
    ensures !Present(body.title) || body.date.None? || !Present(body.location) ==>
      r == (Failure(400, MissingFields), events, next)
    ensures r.0.Failure? ==> r.1 == events && r.2 == next
    ensures r.0.Success? <==>
      Present(body.title) && body.date.Some? && Present(body.location) && Present(body.description)
    ensures r.0.Success? ==>
      && r.0.status == 201
      && r.1 == events + [r.0.value]
      && r.2 == next + 1
      && r.0.value.id == next
      && r.0.value.createdBy == caller.id
      && r.0.value.title == body.title.value
      && r.0.value.description == body.description.value
      && r.0.value.location == body.location.value
      && r.0.value.date == body.date.value
      && r.0.value.techStack == body.techStack.GetOr([])
    ensures EventIdsFresh(events, next) ==> EventIdsFresh(r.1, r.2)
  {
    if !Present(body.title) || body.date.None? || !Present(body.location) then
      (Failure(400, MissingFields), events, next)
    else if !Present(body.description) then
      (Failure(500, NoDescription), events, next)
    else
      var e := NewEvent(next, body, caller);
      (Success(201, e), events + [e], next + 1)
  }

  /** A `createdBy` in the body never decides the creator. */
  lemma CreateIgnoresBodyCreator(events: seq<Event>, next: nat, caller: Caller, body: EventBody, claimed: Option<Id>)
    ensures Create(events, next, caller, body.(createdBy := claimed)) == Create(events, next, caller, body)
  {
  }

  /** The checks that guard delete and update, in their order: the event must
      exist (404), a caller must be present (401) and be an admin (401). On
      success the result is the event's position. */
  function Authorize(events: seq<Event>, id: Id, caller: Option<Caller>): (r: Outcome<nat>)
    ensures Find(events, id).None? ==> r == Failure(404, NotFound)
    ensures Find(events, id).Some? && caller.None? ==> r == Failure(401, NoUser)
    ensures Find(events, id).Some? && caller.Some? && caller.value.role != Admin ==> r == Failure(401, NotAuthorized)
    ensures r.Success? <==> Find(events, id).Some? && caller.Some? && caller.value.role == Admin
    ensures r.Success? ==> r.value < |events| && events[r.value].id == id
  {
    var i := Find(events, id);
    if i.None? then Failure(404, NotFound)
    else if caller.None? then Failure(401, NoUser)
    else if caller.value.role != Admin then Failure(401, NotAuthorized)
    else Success(200, i.value)
  }

  /** Ownership is not checked: any admin may delete or update any event. */
  lemma AnyAdminMayMutate(events: seq<Event>, id: Id, caller: Caller)
    requires caller.role == Admin
    requires exists i :: 0 <= i < |events| && events[i].id == id
    ensures Authorize(events, id, Some(caller)).Success?
  {
  }

  /** Ids are unique within the collection. */
  predicate DistinctIds(events: seq<Event>) {
    forall i, j :: 0 <= i < j < |events| ==> events[i].id != events[j].id
  }

  /** `DELETE /api/events/:id`: the outcome and the remaining events. */
  function Delete(events: seq<Event>, id: Id, caller: Option<Caller>): (r: (Outcome<Id>, seq<Event>))
    ensures r.0.Success? <==> Authorize(events, id, caller).Success?
    ensures r.0.Failure? ==> r.0 == Authorize(events, id, caller) && r.1 == events
    ensures r.0.Success? ==> r.0 == Success(200, id) && |r.1| == |events| - 1
    ensures r.0.Success? && DistinctIds(events) ==> r.1 == Filter(events, (e: Event) => e.id != id)
  {
    var a := Authorize(events, id, caller);
    if a.Failure? then (Failure(a.code, a.message), events)
    else
      var k := a.value;
      var rest := events[..k] + events[k + 1..];
      if DistinctIds(events) then
        FilterRemovesOne(events, k, (e: Event) => e.id != id);
        (Success(200, id), rest)
      else
        (Success(200, id), rest)
  }

  /** Filtering keeps identifiers unique and below the counter. */
  lemma {:induction false} FilterKeepsFresh(events: seq<Event>, p: Event -> bool, n: nat)
    requires EventIdsFresh(events, n)
    ensures EventIdsFresh(Filter(events, p), n)
  {
    if events != [] {
      FilterKeepsFresh(events[1..], p, n);
      var rest := Filter(events[1..], p);
      assert forall i :: 0 <= i < |rest| ==> rest[i] in events[1..];
      if p(events[0]) {
        var r := [events[0]] + rest;
        forall i, j | 0 <= i < j < |r| ensures r[i].id != r[j].id {
          if i == 0 {
            assert r[j] in events[1..];
          }
        }
      }
    }
  }

  /** `findByIdAndUpdate(id, body)`: each field present in the body replaces
      the stored one, with no validation, `createdBy` included; the id stays. */
  function ApplyPatch(e: Event, body: EventBody): (r: Event)
    ensures r.id == e.id
    ensures body == EventBody(None, None, None, None, None, None) ==> r == e
    ensures body.title.Some? ==> r.title == body.title.value
    ensures body.description.Some? ==> r.description == body.description.value
    ensures body.location.Some? ==> r.location == body.location.value
    ensures body.date.Some? ==> r.date == body.date.value
    ensures body.techStack.Some? ==> r.techStack == body.techStack.value
    ensures body.createdBy.Some? ==> r.createdBy == body.createdBy.value
  {
    e.(title := body.title.GetOr(e.title),
       description := body.description.GetOr(e.description),
       location := body.location.GetOr(e.location),
       date := body.date.GetOr(e.date),
       techStack := body.techStack.GetOr(e.techStack),
       createdBy := body.createdBy.GetOr(e.createdBy))
  }

  /** Absent fields keep their stored value, and sending the same update
      again changes nothing more. */
  lemma PatchKeepsAbsentFields(e: Event, body: EventBody)
    ensures body.title.None? ==> ApplyPatch(e, body).title == e.title
    ensures body.description.None? ==> ApplyPatch(e, body).description == e.description
    ensures body.location.None? ==> ApplyPatch(e, body).location == e.location
    ensures body.date.None? ==> ApplyPatch(e, body).date == e.date
    ensures body.techStack.None? ==> ApplyPatch(e, body).techStack == e.techStack
    ensures body.createdBy.None? ==> ApplyPatch(e, body).createdBy == e.createdBy
    ensures ApplyPatch(ApplyPatch(e, body), body) == ApplyPatch(e, body)
  {
  }

  /** `PUT /api/events/:id`: the outcome and the events afterwards. */
  function Update(events: seq<Event>, id: Id, caller: Option<Caller>, body: EventBody): (r: (Outcome<Event>, seq<Event>))
    ensures r.0.Success? <==> Authorize(events, id, caller).Success?
    ensures r.0.Failure? ==> r.1 == events && r.0.code == Authorize(events, id, caller).code
    ensures r.0.Success? ==>
      var k := Authorize(events, id, caller).value;
      && r.0 == Success(200, ApplyPatch(events[k], body))
      && r.1 == events[k := r.0.value]
    ensures |r.1| == |events|
    ensures forall i :: 0 <= i < |events| ==> r.1[i].id == events[i].id
  {
    var a := Authorize(events, id, caller);
    if a.Failure? then (Failure(a.code, a.message), events)
    else
      var updated := ApplyPatch(events[a.value], body);
      (Success(200, updated), events[a.value := updated])
  }

  /** The create handler: validate, then insert with a fresh id. */
  method CreateEvent(db: Store.Database, caller: Caller, body: EventBody) returns (r: Outcome<Event>)
    requires db.Valid()
    modifies db`events, db`nextId
    ensures db.Valid()
    ensures (r, db.events, db.nextId) == Create(old(db.events), old(db.nextId), caller, body)
  {
    if !Present(body.title) || body.date.None? || !Present(body.location) {
      return Failure(400, MissingFields);
    }
    if !Present(body.description) {
      return Failure(500, NoDescription);
    }
    var e := NewEvent(db.nextId, body, caller);
    db.events := db.events + [e];
    db.nextId := db.nextId + 1;
    r := Success(201, e);
  }

  /** The delete handler: the checks in order, then `deleteOne`. */
  method DeleteEvent(db: Store.Database, id: Id, caller: Option<Caller>) returns (r: Outcome<Id>)
    requires db.Valid()
    modifies db`events
    ensures db.Valid()
    ensures (r, db.events) == Delete(old(db.events), id, caller)
  {
    var found := Find(db.events, id);
    if found.None? {
      return Failure(404, NotFound);
    }
    if caller.None? {
      return Failure(401, NoUser);
    }
    if caller.value.role != Admin {
      return Failure(401, NotAuthorized);
    }
    var k := found.value;
    db.events := db.events[..k] + db.events[k + 1..];
    FilterRemovesOne(old(db.events), k, (e: Event) => e.id != id);
    FilterKeepsFresh(old(db.events), (e: Event) => e.id != id, db.nextId);
    r := Success(200, id);
  }

  /** The update handler: the checks in order, then the field overwrite. */
  method UpdateEvent(db: Store.Database, id: Id, caller: Option<Caller>, body: EventBody) returns (r: Outcome<Event>)
    requires db.Valid()
    modifies db`events
    ensures db.Valid()
    ensures (r, db.events) == Update(old(db.events), id, caller, body)
  {
    var found := Find(db.events, id);
    if found.None? {
      return Failure(404, NotFound);
    }
    if caller.None? {
      return Failure(401, NoUser);
    }
    if caller.value.role != Admin {
      return Failure(401, NotAuthorized);
    }
    var k := found.value;
    var updated := ApplyPatch(db.events[k], body);
    db.events := db.events[k := updated];
    r := Success(200, updated);
  }
}
