/** The documents of the four collections, with the enumerations and default
    values their schemas declare. Identifiers (`ObjectId`s) are numbers and
    dates are integer timestamps. */
module Records {
  import opened Wrappers

  type Id = nat

  /** The `role` enumeration of a user: `'user'` (here `Member`, the default)
      or `'admin'`. */
  datatype Role = Member | Admin

  /** The identity the authentication middleware attaches to a request. */
  datatype Caller = Caller(id: Id, role: Role)

  datatype User = User(
    id: Id,
    name: string,
    email: string,
    password: string,
    role: Role,
    avatar: string,
    careerGoal: string,
    skillLevel: string,
    targetOutcome: string,
    availability: int,
    createdAt: int)

  datatype Event = Event(
    id: Id,
    title: string,
    description: string,
    location: string,
    date: int,
    techStack: seq<string>,
    createdBy: Id)

  /** A registration binds one user to one event. */
  datatype Registration = Registration(user: Id, event: Id)

  datatype Topic = Topic(id: string, title: string, completed: bool)

  /** The `type` enumeration of a learning resource; `'Video'` is the default. */
  datatype ResourceType = Video | Article | Interactive | Documentation | Book | Course

  datatype Resource = Resource(title: string, url: string, kind: ResourceType, duration: string, icon: string)

  /** The `status` enumeration of a month; `'unlocked'` is the default. */
  datatype MonthStatus = Locked | Unlocked | Completed

  datatype Month = Month(
    id: int,
    title: string,
    subtitle: string,
    description: string,
    skills: seq<string>,
    topics: seq<Topic>,
    resources: seq<Resource>,
    status: MonthStatus)

  datatype Roadmap = Roadmap(id: Id, user: Id, goal: string, months: seq<Month>, createdAt: int)

  const DefaultCompleted: bool := false
  const DefaultResourceType: ResourceType := Video
  const DefaultIcon: string := "youtube"
  const DefaultMonthStatus: MonthStatus := Unlocked

  function ResourceTypeName(t: ResourceType): string {
    match t
    case Video => "Video"
    case Article => "Article"
    case Interactive => "Interactive"
    case Documentation => "Documentation"
    case Book => "Book"
    case Course => "Course"
  }

  /** Schema casting of a resource `type` string: only the six enumerated
      names are accepted. */
  function ParseResourceType(s: string): (r: Option<ResourceType>)
    ensures r.Some? ==> ResourceTypeName(r.value) == s
  {
    if s == "Video" then Some(Video)
    else if s == "Article" then Some(Article)
    else if s == "Interactive" then Some(Interactive)
    else if s == "Documentation" then Some(Documentation)
    else if s == "Book" then Some(Book)
    else if s == "Course" then Some(Course)
    else None
  }

  lemma ResourceTypeRoundTrip(t: ResourceType)
    ensures ParseResourceType(ResourceTypeName(t)) == Some(t)
  {
  }

  function MonthStatusName(s: MonthStatus): string {
    match s
    case Locked => "locked"
    case Unlocked => "unlocked"
    case Completed => "completed"
  }

  function ParseMonthStatus(s: string): (r: Option<MonthStatus>)
    ensures r.Some? ==> MonthStatusName(r.value) == s
  {
    if s == "locked" then Some(Locked)
    else if s == "unlocked" then Some(Unlocked)
    else if s == "completed" then Some(Completed)
    else None
  }

  lemma MonthStatusRoundTrip(s: MonthStatus)
    ensures ParseMonthStatus(MonthStatusName(s)) == Some(s)
  {
  }

  /** `findById`: the position of the first record carrying the id, or none
      when no record has it. */
  function FindById<T>(s: seq<T>, idOf: T -> Id, id: Id): (r: Option<nat>)
    ensures r.Some? ==> r.value < |s| && idOf(s[r.value]) == id
    ensures r.None? <==> forall i :: 0 <= i < |s| ==> idOf(s[i]) != id
  {
    if s == [] then None
    else if idOf(s[0]) == id then Some(0)
    else
      var rest := FindById(s[1..], idOf, id);
      if rest.Some? then Some(rest.value + 1) else None
  }

  /** No two users share an id, and every id was handed out before `next`. */
  predicate UserIdsFresh(users: seq<User>, next: nat) {
    (forall i, j :: 0 <= i < j < |users| ==> users[i].id != users[j].id)
    && (forall i :: 0 <= i < |users| ==> users[i].id < next)
  }

  predicate EventIdsFresh(events: seq<Event>, next: nat) {
    (forall i, j :: 0 <= i < j < |events| ==> events[i].id != events[j].id)
    && (forall i :: 0 <= i < |events| ==> events[i].id < next)
  }

  predicate RoadmapIdsFresh(roadmaps: seq<Roadmap>, next: nat) {
    (forall i, j :: 0 <= i < j < |roadmaps| ==> roadmaps[i].id != roadmaps[j].id)
    && (forall i :: 0 <= i < |roadmaps| ==> roadmaps[i].id < next)
  }

  /** The unique `(user, event)` index of the registration collection. */
  predicate UniquePairs(regs: seq<Registration>) {
    forall i, j :: 0 <= i < j < |regs| ==> regs[i] != regs[j]
  }
}
