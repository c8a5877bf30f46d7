/** `POST /api/registrations` and `GET /api/registrations`. */
module RegistrationController {
  import opened Wrappers
  import opened Records
  import opened Seqs
  import Store

  const MissingEventId: string := "Event ID is required"
  const AlreadyRegistered: string := "Already registered for this event"

  /** The outcome and the new registration collection of a registration
      request by `caller`; `eventId` is `None` when the body has no
      `eventId` or an empty one. */
  function Register(regs: seq<Registration>, caller: Caller, eventId: Option<Id>): (r: (Outcome<Registration>, seq<Registration>))
    ensures eventId.None? ==> r == (Failure(400, MissingEventId), regs)
    ensures eventId.Some? && Registration(caller.id, eventId.value) in regs ==> r == (Failure(400, AlreadyRegistered), regs)
    ensures r.0.Failure? ==> r.0.code == 400 && r.1 == regs
    ensures r.0.Success? <==> eventId.Some? && Registration(caller.id, eventId.value) !in regs
    ensures r.0.Success? ==>
      && r.0 == Success(201, Registration(caller.id, eventId.value))
      && r.1 == regs + [Registration(caller.id, eventId.value)]
    ensures UniquePairs(regs) ==> UniquePairs(r.1)
  {
    if eventId.None? then (Failure(400, MissingEventId), regs)
    else
      var reg := Registration(caller.id, eventId.value);
      if reg in regs then (Failure(400, AlreadyRegistered), regs)
      else (Success(201, reg), regs + [reg])
  }

  /** Registering twice for the same event stores one registration and
      answers the second attempt with the duplicate error. */
  lemma RegisterTwice(regs: seq<Registration>, caller: Caller, event: Id)
    requires UniquePairs(regs)
    ensures var first := Register(regs, caller, Some(event));
      var second := Register(first.1, caller, Some(event));
      && second == (Failure(400, AlreadyRegistered), first.1)
      && multiset(second.1)[Registration(caller.id, event)] == 1
  {
    var reg := Registration(caller.id, event);
    var first := Register(regs, caller, Some(event));
    if reg in regs {
      var k :| 0 <= k < |regs| && regs[k] == reg;
      OnlyOccurrence(regs, k);
    } else {
      assert first.1 == regs + [reg];
      assert multiset(first.1) == multiset(regs) + multiset{reg};
    }
  }

  /** In a collection without duplicates an element occurs once. */
  lemma {:induction false} OnlyOccurrence(regs: seq<Registration>, k: nat)
    requires UniquePairs(regs) && k < |regs|
    ensures multiset(regs)[regs[k]] == 1
  {
    if k == |regs| - 1 {
      var front := regs[..k];
      assert regs == front + [regs[k]];
      assert regs[k] !in front;
    } else {
      var front := regs[..|regs| - 1];
      assert regs == front + [regs[|regs| - 1]];
      assert front[k] == regs[k];
      OnlyOccurrence(front, k);
    }
  }

  /** The query of a listing: every registration for an admin whose `all`
      flag is exactly `'true'`, the caller's own registrations otherwise. */
  function GetRegistrations(regs: seq<Registration>, caller: Caller, all: Option<string>): (r: seq<Registration>)
    ensures IsSubseq(r, regs)
    ensures caller.role == Admin && all == Some("true") ==> r == regs
    ensures !(caller.role == Admin && all == Some("true")) ==>
      forall x :: x in r <==> x in regs && x.user == caller.id
  {
    if caller.role == Admin && all == Some("true") then
      SubseqRefl(regs);
      regs
    else
      FilterIsSubseq(regs, (x: Registration) => x.user == caller.id);
      Filter(regs, (x: Registration) => x.user == caller.id)
  }

  /** The `user` of a listed registration once populated with only its
      name and email (the `_id` always comes along). */
  datatype Contact = Contact(id: Id, name: string, email: string)

  /** A listed registration after both `populate` calls: each reference is
      replaced by its document, or by null when no document has that id. */
  datatype Listed = Listed(user: Option<Contact>, event: Option<Event>)

  function Populate(reg: Registration, users: seq<User>, events: seq<Event>): (r: Listed)
    ensures r.event.None? <==> forall i :: 0 <= i < |events| ==> events[i].id != reg.event
    ensures r.event.Some? ==> r.event.value in events && r.event.value.id == reg.event
    ensures r.user.None? <==> forall i :: 0 <= i < |users| ==> users[i].id != reg.user
    ensures r.user.Some? ==> exists u :: u in users && u.id == reg.user && r.user.value == Contact(u.id, u.name, u.email)
  {
    var e := FindById(events, (e: Event) => e.id, reg.event);
    var u := FindById(users, (u: User) => u.id, reg.user);
    var contact := if u.Some? then var v := users[u.value]; Some(Contact(v.id, v.name, v.email)) else None;
    Listed(contact, if e.Some? then Some(events[e.value]) else None)
  }

  /** The response of `GET /api/registrations`: the selected registrations,
      in stored order, each populated. */
  function ListRegistrations(regs: seq<Registration>, users: seq<User>, events: seq<Event>, caller: Caller, all: Option<string>): (r: seq<Listed>)
    ensures |r| == |GetRegistrations(regs, caller, all)|
    ensures forall k :: 0 <= k < |r| ==> r[k] == Populate(GetRegistrations(regs, caller, all)[k], users, events)
    ensures forall k :: 0 <= k < |r| ==> GetRegistrations(regs, caller, all)[k] in regs
  {
    var selected := GetRegistrations(regs, caller, all);
    forall k | 0 <= k < |selected| ensures selected[k] in regs {
      SubseqMembers(selected, regs, selected[k]);
    }
    Map(selected, (reg: Registration) => Populate(reg, users, events))
  }

  /** Some stored event has this id. */
  predicate EventExists(events: seq<Event>, id: Id) {
    exists i :: 0 <= i < |events| && events[i].id == id
  }

  /** When every listed registration's event still exists, every listed
      entry carries its event. */
  lemma EventsPopulated(regs: seq<Registration>, users: seq<User>, events: seq<Event>, caller: Caller, all: Option<string>)
    requires forall x :: x in GetRegistrations(regs, caller, all) ==> EventExists(events, x.event)
    ensures var listed := ListRegistrations(regs, users, events, caller, all);
      forall k :: 0 <= k < |listed| ==>
        listed[k].event.Some? && listed[k].event.value.id == GetRegistrations(regs, caller, all)[k].event
  {
    var selected := GetRegistrations(regs, caller, all);
    var listed := ListRegistrations(regs, users, events, caller, all);
    forall k | 0 <= k < |listed|
      ensures listed[k].event.Some? && listed[k].event.value.id == selected[k].event
    {
      assert selected[k] in selected;
      assert listed[k] == Populate(selected[k], users, events);
    }
  }

  /** After a registration, when the event and the events of the
      registrations listed before it still exist, every entry of the new
      listing carries an event, the new one among them. */
  lemma RegisteredThenPopulated(regs: seq<Registration>, users: seq<User>, events: seq<Event>, caller: Caller, id: Id, all: Option<string>)
    requires Register(regs, caller, Some(id)).0.Success?
    requires EventExists(events, id)
    requires forall x :: x in GetRegistrations(regs, caller, all) ==> EventExists(events, x.event)
    ensures var listed := ListRegistrations(Register(regs, caller, Some(id)).1, users, events, caller, all);
      && (forall k :: 0 <= k < |listed| ==> listed[k].event.Some?)
      && exists k :: 0 <= k < |listed| && listed[k].event.Some? && listed[k].event.value.id == id
  {
    var after := Register(regs, caller, Some(id)).1;
    var selected := GetRegistrations(after, caller, all);
    var reg := Registration(caller.id, id);
    assert after == regs + [reg];
    forall x | x in selected ensures EventExists(events, x.event) {
      if x != reg {
        assert x in regs;
        assert x in GetRegistrations(regs, caller, all);
      }
    }
    EventsPopulated(after, users, events, caller, all);
    RegisteredThenListed(regs, caller, id, all);
    var k :| 0 <= k < |selected| && selected[k] == reg;
  }

  /** A user's own listing holds the registration just made. */
  lemma RegisteredThenListed(regs: seq<Registration>, caller: Caller, event: Id, all: Option<string>)
    requires Register(regs, caller, Some(event)).0.Success?
    ensures Registration(caller.id, event) in GetRegistrations(Register(regs, caller, Some(event)).1, caller, all)
  {
    var after := Register(regs, caller, Some(event)).1;
    assert after[|after| - 1] == Registration(caller.id, event);
  }

  /** The handler: validate, look for an existing registration (`findOne`),
      then insert. */
  method RegisterForEvent(db: Store.Database, caller: Caller, eventId: Option<Id>) returns (r: Outcome<Registration>)
    requires db.Valid()
    modifies db`registrations
    ensures db.Valid()
    ensures (r, db.registrations) == Register(old(db.registrations), caller, eventId)
  {
    if eventId.None? {
      return Failure(400, MissingEventId);
    }
    var reg := Registration(caller.id, eventId.value);
    var existing := false;
    var i := 0;
    while i < |db.registrations| && !existing
      invariant 0 <= i <= |db.registrations|
      invariant existing <==> reg in db.registrations[..i]
    {
      existing := db.registrations[i] == reg;
      assert db.registrations[..i + 1] == db.registrations[..i] + [db.registrations[i]];
      i := i + 1;
    }
    assert existing || db.registrations[..i] == db.registrations;
    if existing {
      return Failure(400, AlreadyRegistered);
    }
    db.registrations := db.registrations + [reg];
    r := Success(201, reg);
  }
}
