/** The document database, held in memory: one sequence per collection, in
    insertion order, and a counter that hands out fresh identifiers. */
module Store {
  import opened Records

  class Database {
    var users: seq<User>
    var events: seq<Event>
    var registrations: seq<Registration>
    var roadmaps: seq<Roadmap>
    var nextId: nat

    /** Identifiers are unique per collection and the unique index on
        registrations holds. */
    ghost predicate Valid()
      reads this
    {
      UserIdsFresh(users, nextId)
      && EventIdsFresh(events, nextId)
      && RoadmapIdsFresh(roadmaps, nextId)
      && UniquePairs(registrations)
    }

    constructor ()
      ensures Valid()
      ensures users == [] && events == [] && registrations == [] && roadmaps == []
    {
      users, events, registrations, roadmaps := [], [], [], [];
      nextId := 0;
    }
  }
}
