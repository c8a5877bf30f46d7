/** The event search screen's filter effect: a case-insensitive text query
    over title, description, location and tech stack, then the category
    filter, of which only 'Upcoming' narrows the list. */
module Search {
  import opened Records
  import opened Seqs
  import opened Text

  const All: string := "All"
  const Upcoming: string := "Upcoming"
  /** The category buttons on the screen. */
  const Categories: seq<string> := ["All", "Upcoming", "Design", "AI", "Web3"]

  /** The event matches an already lower-cased query in one of its fields. */
  predicate Matches(e: Event, lowerQuery: string) {
    || Includes(Lower(e.title), lowerQuery)
    || Includes(Lower(e.description), lowerQuery)
    || Includes(Lower(e.location), lowerQuery)
    || exists i :: 0 <= i < |e.techStack| && Includes(Lower(e.techStack[i]), lowerQuery)
  }

  /** The filters applied in turn to the fetched events; `now` is the clock. */
  function ApplyFilters(events: seq<Event>, query: string, activeFilter: string, now: int): (r: seq<Event>)
    ensures IsSubseq(r, events)
    ensures forall e :: e in r <==>
      && e in events
      && (query != "" ==> Matches(e, Lower(query)))
      && (activeFilter == Upcoming ==> e.date > now)
    ensures query == "" && activeFilter != Upcoming ==> r == events
  {
    var matchesQuery := (e: Event) => Matches(e, Lower(query));
    var isUpcoming := (e: Event) => e.date > now;
    var byText := if query != "" then Filter(events, matchesQuery) else events;
    FilterIsSubseq(events, matchesQuery);
    SubseqRefl(events);
    if activeFilter != All && activeFilter == Upcoming then
      var r := Filter(byText, isUpcoming);
      FilterIsSubseq(byText, isUpcoming);
      SubseqTrans(r, byText, events);
      r
    else byText
  }

  /** The effect: with no events fetched it leaves the shown list alone,
      otherwise it shows the filtered events. */
  function FilterEffect(events: seq<Event>, query: string, activeFilter: string, now: int,
                        shown: seq<Event>): (r: seq<Event>)
    ensures events == [] ==> r == shown
    ensures events != [] ==> r == ApplyFilters(events, query, activeFilter, now)
    ensures events != [] ==> IsSubseq(r, events)
    ensures events != [] && query == "" && activeFilter == All ==> r == events
  {
    if |events| == 0 then shown else ApplyFilters(events, query, activeFilter, now)
  }

  /** The categories other than 'Upcoming' filter nothing: they act as 'All'. */
  lemma OtherCategoriesDoNotNarrow(events: seq<Event>, query: string, activeFilter: string, now: int)
    requires activeFilter in Categories && activeFilter != Upcoming
    ensures ApplyFilters(events, query, activeFilter, now) == ApplyFilters(events, query, All, now)
  {
  }

  /** Upper or lower case in the query makes no difference. */
  lemma QueryCaseInsensitive(events: seq<Event>, query: string, activeFilter: string, now: int)
    ensures ApplyFilters(events, Lower(query), activeFilter, now) == ApplyFilters(events, query, activeFilter, now)
  {
    LowerIdempotent(query);
    FilterCongruent(events, (e: Event) => Matches(e, Lower(Lower(query))), (e: Event) => Matches(e, Lower(query)));
  }
}
