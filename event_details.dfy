/** The event page: whether the signed-in user is already registered, the
    register button's flags, and the short location shown. */
module EventDetails {
  import opened Wrappers
  import opened Records
  import opened Text
  import opened Seqs
  import RegistrationController

  /** The `event` of a listed registration: populated into an object with an
      `_id`, a bare id, or null when the event no longer exists. */
  datatype EventRef = PopulatedEvent(id: Id) | RawEvent(id: Id) | MissingEvent

  predicate RefersTo(ref: EventRef, id: Id) {
    !ref.MissingEvent? && ref.id == id
  }

  /** `registrations.some(reg => reg.event._id === id || reg.event === id)`.
      The test stops at the first match; reading `_id` of a null event
      throws, which is `None`. */
  function SomeRegistered(regs: seq<EventRef>, id: Id): Option<bool> {
    if regs == [] then Some(false)
    else if regs[0].MissingEvent? then None
    else if regs[0].id == id then Some(true)
    else SomeRegistered(regs[1..], id)
  }

  /** Registration `k` is for the event and no deleted event comes before it. */
  predicate FoundAt(regs: seq<EventRef>, id: Id, k: int) {
    0 <= k < |regs| && RefersTo(regs[k], id) && forall j :: 0 <= j < k ==> !regs[j].MissingEvent?
  }

  /** Registration `k` is for a deleted event and none before it is for this one. */
  predicate MissingAt(regs: seq<EventRef>, id: Id, k: int) {
    0 <= k < |regs| && regs[k].MissingEvent? && forall j :: 0 <= j < k ==> !RefersTo(regs[j], id)
  }

  /** The test answers true exactly when a registration for the event comes
      before any deleted event, and throws exactly when a deleted event comes
      first. */
  lemma {:induction false} SomeRegisteredMeaning(regs: seq<EventRef>, id: Id)
    ensures SomeRegistered(regs, id) == Some(true) <==> exists k :: FoundAt(regs, id, k)
    ensures SomeRegistered(regs, id).None? <==> exists k :: MissingAt(regs, id, k)
  {
    if regs == [] {
    } else if regs[0].MissingEvent? {
      assert MissingAt(regs, id, 0);
      assert forall k :: !FoundAt(regs, id, k);
    } else if regs[0].id == id {
      assert FoundAt(regs, id, 0);
      assert forall k :: !MissingAt(regs, id, k);
    } else {
      var tail := regs[1..];
      SomeRegisteredMeaning(tail, id);
      assert !FoundAt(regs, id, 0) && !MissingAt(regs, id, 0);
      forall k | 0 < k < |regs|
        ensures FoundAt(regs, id, k) <==> FoundAt(tail, id, k - 1)
        ensures MissingAt(regs, id, k) <==> MissingAt(tail, id, k - 1)
      {
        assert forall j :: 0 < j <= k ==> regs[j] == tail[j - 1];
      }
      if exists k :: FoundAt(tail, id, k) {
        var k :| FoundAt(tail, id, k);
        assert FoundAt(regs, id, k + 1);
      }
      if exists k :: MissingAt(tail, id, k) {
        var k :| MissingAt(tail, id, k);
        assert MissingAt(regs, id, k + 1);
      }
    }
  }

  /** With every event still present, the answer is whether any
      registration is for this event. */
  lemma SomeRegisteredWithoutMissing(regs: seq<EventRef>, id: Id)
    requires forall k :: 0 <= k < |regs| ==> !regs[k].MissingEvent?
    ensures SomeRegistered(regs, id) == Some(exists k :: 0 <= k < |regs| && RefersTo(regs[k], id))
  {
    SomeRegisteredMeaning(regs, id);
    assert forall k :: FoundAt(regs, id, k) <==> 0 <= k < |regs| && RefersTo(regs[k], id);
    assert forall k :: !MissingAt(regs, id, k);
  }

  /** How the page sees the `event` of a populated registration. */
  function RefOf(listed: RegistrationController.Listed): EventRef {
    if listed.event.Some? then PopulatedEvent(listed.event.value.id) else MissingEvent
  }

  /** After registering for an event, the page's test over the caller's
      listing (requested without `all`) answers true, as long as the event
      and every event the caller registered for before still exist. */
  lemma RegisteredThenShown(regs: seq<Registration>, users: seq<User>, events: seq<Event>, caller: Caller, id: Id)
    requires RegistrationController.Register(regs, caller, Some(id)).0.Success?
    requires RegistrationController.EventExists(events, id)
    requires forall x :: x in regs && x.user == caller.id ==> RegistrationController.EventExists(events, x.event)
    ensures var after := RegistrationController.Register(regs, caller, Some(id)).1;
      SomeRegistered(Map(RegistrationController.ListRegistrations(after, users, events, caller, None), RefOf), id) == Some(true)
  {
    var after := RegistrationController.Register(regs, caller, Some(id)).1;
    var listed := RegistrationController.ListRegistrations(after, users, events, caller, None);
    assert forall x :: x in RegistrationController.GetRegistrations(regs, caller, None) ==> x in regs && x.user == caller.id;
    RegistrationController.RegisteredThenPopulated(regs, users, events, caller, id, None);
    PopulatedListingShown(listed, id);
  }

  /** A listing whose entries all carry their event, one of them this event,
      makes the page's test answer true. */
  lemma PopulatedListingShown(listed: seq<RegistrationController.Listed>, id: Id)
    requires forall k :: 0 <= k < |listed| ==> listed[k].event.Some?
    requires exists k :: 0 <= k < |listed| && listed[k].event.Some? && listed[k].event.value.id == id
    ensures SomeRegistered(Map(listed, RefOf), id) == Some(true)
  {
    var refs := Map(listed, RefOf);
    forall k | 0 <= k < |refs| ensures !refs[k].MissingEvent? {
      assert refs[k] == RefOf(listed[k]);
    }
    var k :| 0 <= k < |listed| && listed[k].event.Some? && listed[k].event.value.id == id;
    assert RefersTo(refs[k], id);
    SomeRegisteredWithoutMissing(refs, id);
  }

  const RegistrationFailed: string := "Registration failed"

  /** The error shown after a failed attempt: the server's message when it
      sent a non-empty one. */
  function FailureMessage(serverMessage: Option<string>): (m: string)
    ensures Present(serverMessage) ==> m == serverMessage.value
    ensures !Present(serverMessage) ==> m == RegistrationFailed
    ensures m != ""
  {
    if Present(serverMessage) then serverMessage.value else RegistrationFailed
  }

  /** How the registration request ended: accepted, or rejected with the
      server's message if a response carried one. */
  datatype RegisterReply = Accepted | Rejected(serverMessage: Option<string>)

  /** `event.location.split(',')[0]`. */
  function LocationHead(location: string): (r: string)
    ensures ',' !in r
    ensures StartsWith(location, r)
    ensures |r| < |location| ==> location[|r|] == ','
    ensures ',' !in location ==> r == location
  {
    SplitHead(location, ',');
    Split(location, ',')[0]
  }

  /** The page's registration state. */
  class EventDetailsState {
    var registering: bool
    var isRegistered: bool
    var error: string

    constructor ()
      ensures !registering && !isRegistered && error == ""
    {
      registering := false;
      isRegistered := false;
      error := "";
    }

    /** `checkRegistration` with the listed registrations, or `None` when
        the request failed: the flag is set only when the test completed. */
    method CheckRegistration(listed: Option<seq<EventRef>>, id: Id)
      modifies this`isRegistered
      ensures listed.Some? && SomeRegistered(listed.value, id).Some?
              ==> isRegistered == SomeRegistered(listed.value, id).value
      ensures (listed.None? || SomeRegistered(listed.value, id).None?) ==> isRegistered == old(isRegistered)
    {
      if listed.Some? {
        var registered := SomeRegistered(listed.value, id);
        if registered.Some? {
          isRegistered := registered.value;
        }
      }
    }

    /** The start of `handleRegister`: busy, and the old error cleared. */
    method BeginRegister()
      modifies this`registering, this`error
      ensures registering && error == ""
    {
      registering := true;
      error := "";
    }

    /** The end of `handleRegister`: registered only after an accepted
        request, the error message after a rejected one, and never busy. */
    method FinishRegister(reply: RegisterReply)
      modifies this`registering, this`isRegistered, this`error
      ensures !registering
      ensures reply.Accepted? ==> isRegistered && error == old(error)
      ensures reply.Rejected? ==> isRegistered == old(isRegistered) && error == FailureMessage(reply.serverMessage)
    {
      if reply.Accepted? {
        isRegistered := true;
      } else {
        error := FailureMessage(reply.serverMessage);
      }
      registering := false;
    }

    /** `handleRegister` as one transition. */
    method HandleRegister(reply: RegisterReply)
      modifies this`registering, this`isRegistered, this`error
      ensures !registering
      ensures isRegistered == (old(isRegistered) || reply.Accepted?)
      ensures error == if reply.Accepted? then "" else FailureMessage(reply.serverMessage)
    {
      BeginRegister();
      FinishRegister(reply);
    }
  }
}
