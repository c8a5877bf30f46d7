/** The admin dashboard's delete confirmation: after the server accepts the
    delete, the event is dropped from the list shown. */
module Dashboard {
  import opened Wrappers
  import opened Records
  import opened Seqs
  import opened EventController

  /** The list shown and the event awaiting confirmation, if any. */
  datatype DashboardState = DashboardState(events: seq<Event>, deleteId: Option<Id>)

  /** `handleDelete`, given whether the delete request succeeded. Also says
      whether a request was sent. */
  function HandleDelete(st: DashboardState, requestOk: bool): (r: (DashboardState, bool))
    ensures st.deleteId.None? ==> r == (st, false)
    ensures st.deleteId.Some? ==> r.1
    ensures st.deleteId.Some? && !requestOk ==> r.0 == st
    ensures st.deleteId.Some? && requestOk ==>
      && r.0.deleteId.None?
      && r.0.events == Filter(st.events, (e: Event) => e.id != st.deleteId.value)
      && IsSubseq(r.0.events, st.events)
      && forall e :: e in r.0.events <==> e in st.events && e.id != st.deleteId.value
  {
    if st.deleteId.None? then (st, false)
    else if !requestOk then (st, true)
    else
      var id := st.deleteId.value;
      FilterIsSubseq(st.events, (e: Event) => e.id != id);
      (DashboardState(Filter(st.events, (e: Event) => e.id != id), None), true)
  }

  /** A confirmed delete keeps every copy of every other event and none of
      the deleted id. */
  lemma HandleDeleteCounts(st: DashboardState, e: Event)
    requires st.deleteId.Some?
    ensures multiset(HandleDelete(st, true).0.events)[e]
         == if e.id != st.deleteId.value then multiset(st.events)[e] else 0
  {
    FilterCounts(st.events, (x: Event) => x.id != st.deleteId.value);
  }

  /** When the list shown is the server's event table, a delete the server
      accepts leaves the two in step. */
  lemma DeleteKeepsListInStep(events: seq<Event>, id: Id, caller: Option<Caller>)
    requires DistinctIds(events)
    requires Delete(events, id, caller).0.Success?
    ensures HandleDelete(DashboardState(events, Some(id)), true).0
         == DashboardState(Delete(events, id, caller).1, None)
  {
  }
}
