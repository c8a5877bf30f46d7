/** `POST /api/pathfinder/generate` and `GET /api/pathfinder`: the roadmap
    generator. The text-generation service is a parameter: what it answered
    (`Upstream`) and how its cleaned reply parses as JSON (`parse`). */
module PathfinderRoute {
  import opened Wrappers
  import opened Records
  import opened Seqs
  import opened Text
  import Store

  const UserNotFound: string := "User not found"
  const KeyMissing: string := "Server Protocol Error: API Key missing"
  const GenerationFailed: string := "Error generating roadmap via AI"
  const ParseFailed: string := "Failed to parse AI response"
  const ServerError: string := "Server Error"

  /** The optional profile fields of the request body. */
  datatype ProfileOverrides = ProfileOverrides(
    careerGoal: Option<string>,
    skillLevel: Option<string>,
    targetOutcome: Option<string>,
    availability: Option<int>)

  /** JavaScript truthiness of an optional number: absent and 0 are falsy. */
  predicate PresentNumber(n: Option<int>) {
    n.Some? && n.value != 0
  }

  /** Each profile field is replaced only by a truthy body value. */
  function MergeOverrides(u: User, o: ProfileOverrides): (r: User)
    ensures r.careerGoal == if Present(o.careerGoal) then o.careerGoal.value else u.careerGoal
    ensures r.skillLevel == if Present(o.skillLevel) then o.skillLevel.value else u.skillLevel
    ensures r.targetOutcome == if Present(o.targetOutcome) then o.targetOutcome.value else u.targetOutcome
    ensures r.availability == if PresentNumber(o.availability) then o.availability.value else u.availability
    ensures r == u.(careerGoal := r.careerGoal, skillLevel := r.skillLevel,
                    targetOutcome := r.targetOutcome, availability := r.availability)
  {
    var u1 := if Present(o.careerGoal) then u.(careerGoal := o.careerGoal.value) else u;
    var u2 := if Present(o.skillLevel) then u1.(skillLevel := o.skillLevel.value) else u1;
    var u3 := if Present(o.targetOutcome) then u2.(targetOutcome := o.targetOutcome.value) else u2;
    if PresentNumber(o.availability) then u3.(availability := o.availability.value) else u3
  }

  /** Merging the same overrides twice is merging them once; a body without
      truthy fields leaves the profile as stored. */
  lemma MergeIdempotent(u: User, o: ProfileOverrides)
    ensures MergeOverrides(MergeOverrides(u, o), o) == MergeOverrides(u, o)
    ensures (!Present(o.careerGoal) && !Present(o.skillLevel) && !Present(o.targetOutcome)
             && !PresentNumber(o.availability)) ==> MergeOverrides(u, o) == u
  {
  }

  /** The reply cleanup: drop every "```json", then every "```", then trim. */
  function CleanReply(content: string): string {
    Trim(RemoveAll(RemoveAll(content, JsonFence), Fence))
  }

  /** The cleaned reply holds no fence of either kind and has no white
      space at its ends. */
  lemma CleanReplyShape(content: string)
    ensures !Includes(CleanReply(content), Fence)
    ensures !Includes(CleanReply(content), JsonFence)
    ensures Trimmed(CleanReply(content))
  {
    var noFences := RemoveAll(RemoveAll(content, JsonFence), Fence);
    RemoveFenceLeavesNone(RemoveAll(content, JsonFence));
    TrimKeepsAbsent(noFences, Fence);
    NoFenceNoJsonFence(Trim(noFences));
  }

  /** Text without "```" has no "```json" either. */
  lemma NoFenceNoJsonFence(t: string)
    requires !Includes(t, Fence)
    ensures !Includes(t, JsonFence)
  {
    if Includes(t, JsonFence) {
      assert JsonFence == Fence + "json";
      IncludesLonger(t, Fence, "json");
    }
  }

  /** A reply that is already trimmed and has no fence is used as sent. */
  lemma CleanKeepsPlainReply(content: string)
    requires Trimmed(content) && !Includes(content, Fence)
    ensures CleanReply(content) == content
  {
    NoFenceNoJsonFence(content);
    RemoveAbsent(content, JsonFence);
    RemoveAbsent(content, Fence);
    TrimFixed(content);
  }

  /** Cleaning a cleaned reply returns it unchanged. */
  lemma CleanIdempotent(content: string)
    ensures CleanReply(CleanReply(content)) == CleanReply(content)
  {
    CleanReplyShape(content);
    CleanKeepsPlainReply(CleanReply(content));
  }

  /** The parsed JSON before the schema casts it: optional fields may be
      missing and enumerations are plain strings. */
  datatype RawTopic = RawTopic(id: string, title: string, completed: Option<bool>)
  datatype RawResource = RawResource(title: string, url: string, kind: Option<string>, duration: string, icon: Option<string>)
  datatype RawMonth = RawMonth(
    id: int,
    title: string,
    subtitle: string,
    description: string,
    skills: seq<string>,
    topics: seq<RawTopic>,
    resources: seq<RawResource>,
    status: Option<string>)

  function CastTopic(t: RawTopic): Topic {
    Topic(t.id, t.title, t.completed.GetOr(DefaultCompleted))
  }

  function CastResource(r: RawResource): Option<Resource> {
    var kind := if r.kind.None? then Some(DefaultResourceType) else ParseResourceType(r.kind.value);
    if kind.None? then None
    else Some(Resource(r.title, r.url, kind.value, r.duration, r.icon.GetOr(DefaultIcon)))
  }

  function CastResources(rs: seq<RawResource>): (r: Option<seq<Resource>>)
    ensures r.Some? <==> forall i :: 0 <= i < |rs| ==> CastResource(rs[i]).Some?
    ensures r.Some? ==> |r.value| == |rs| && forall i :: 0 <= i < |rs| ==> CastResource(rs[i]) == Some(r.value[i])
  {
    if rs == [] then Some([])
    else
      var head := CastResource(rs[0]);
      var tail := CastResources(rs[1..]);
      if head.None? || tail.None? then None else Some([head.value] + tail.value)
  }

  /** Schema casting of one month: defaults filled in, enumerations checked. */
  function CastMonth(m: RawMonth): Option<Month> {
    var status := if m.status.None? then Some(DefaultMonthStatus) else ParseMonthStatus(m.status.value);
    var resources := CastResources(m.resources);
    if status.None? || resources.None? then None
    else Some(Month(m.id, m.title, m.subtitle, m.description, m.skills,
                    Map(m.topics, CastTopic), resources.value, status.value))
  }

  function CastMonths(ms: seq<RawMonth>): (r: Option<seq<Month>>)
    ensures r.Some? <==> forall i :: 0 <= i < |ms| ==> CastMonth(ms[i]).Some?
    ensures r.Some? ==> |r.value| == |ms| && forall i :: 0 <= i < |ms| ==> CastMonth(ms[i]) == Some(r.value[i])
  {
    if ms == [] then Some([])
    else
      var head := CastMonth(ms[0]);
      var tail := CastMonths(ms[1..]);
      if head.None? || tail.None? then None else Some([head.value] + tail.value)
  }

  /** A stored month written out as JSON, with every field present. */
  function RawOf(m: Month): RawMonth {
    RawMonth(m.id, m.title, m.subtitle, m.description, m.skills,
             Map(m.topics, (t: Topic) => RawTopic(t.id, t.title, Some(t.completed))),
             Map(m.resources, (r: Resource) => RawResource(r.title, r.url, Some(ResourceTypeName(r.kind)), r.duration, Some(r.icon))),
             Some(MonthStatusName(m.status)))
  }

  /** Casting accepts every month the schema can store, unchanged. */
  lemma CastRoundTrip(m: Month)
    ensures CastMonth(RawOf(m)) == Some(m)
  {
    var raw := RawOf(m);
    forall i | 0 <= i < |m.resources| ensures CastResource(raw.resources[i]) == Some(m.resources[i]) {
      ResourceTypeRoundTrip(m.resources[i].kind);
    }
    MonthStatusRoundTrip(m.status);
    var cast := CastResources(raw.resources);
    assert cast.value == m.resources;
    assert Map(raw.topics, CastTopic) == m.topics;
  }

  /** What the text-generation call produced: it failed outright (network or
      unreadable body), answered with an error status, replied without a
      `choices[0].message`, replied with a `content` that is not a string
      (`null`, absent or another JSON type), or replied with text. */
  datatype Upstream = Unreachable | NotOk | NoMessage | NotText | Replied(content: string)

  function FindUser(users: seq<User>, id: Id): Option<nat> {
    FindById(users, (u: User) => u.id, id)
  }

  /** The roadmap that is saved when everything succeeded, if the schema
      accepts it: `goal` is required and so cannot be empty. */
  function BuildRoadmap(id: Id, caller: Caller, goal: string, raw: seq<RawMonth>, now: int): (r: Option<Roadmap>)
    ensures r.Some? <==> goal != "" && CastMonths(raw).Some?
    ensures r.Some? ==> r.value == Roadmap(id, caller.id, goal, CastMonths(raw).value, now)
  {
    var months := CastMonths(raw);
    if goal == "" || months.None? then None
    else Some(Roadmap(id, caller.id, goal, months.value, now))
  }

  /** What `JSON.parse` makes of the cleaned reply: not JSON at all, the
      JSON value `null` (reading its `months` then throws), or any other
      value, with the `months` it holds. */
  datatype ParsedReply = NotJson | JsonNull | JsonValue(months: seq<RawMonth>)

  /** Everything after the profile is saved: the key check, the service
      call, the cleanup and parse, and the roadmap save. Returns the outcome,
      the roadmaps and the next fresh id. */
  function AfterSave(roadmaps: seq<Roadmap>, next: nat, caller: Caller, goal: string,
                     apiKey: Option<string>, upstream: Upstream,
                     parse: string -> ParsedReply, now: int): (r: (Outcome<Roadmap>, seq<Roadmap>, nat))
    ensures r.0.Failure? ==> r.0.code == 500 && r.1 == roadmaps && r.2 == next
    ensures r.0.Success? ==>
      && r.0.status == 200 && r.0.value.id == next && r.0.value.user == caller.id && r.0.value.goal == goal
      && r.1 == roadmaps + [r.0.value] && r.2 == next + 1
  {
    if !Present(apiKey) then (Failure(500, KeyMissing), roadmaps, next)
    else if upstream.Unreachable? then (Failure(500, ServerError), roadmaps, next)
    else if upstream.NotOk? then (Failure(500, GenerationFailed), roadmaps, next)
    else if upstream.NoMessage? then (Failure(500, ServerError), roadmaps, next)
    else if upstream.NotText? then (Failure(500, ParseFailed), roadmaps, next)
    else
      var parsed := parse(CleanReply(upstream.content));
      if parsed.NotJson? then (Failure(500, ParseFailed), roadmaps, next)
      else if parsed.JsonNull? then (Failure(500, ServerError), roadmaps, next)
      else
        var roadmap := BuildRoadmap(next, caller, goal, parsed.months, now);
        if roadmap.None? then (Failure(500, ServerError), roadmaps, next)
        else (Success(200, roadmap.value), roadmaps + [roadmap.value], next + 1)
  }

  /** The failure checks in order: the key, then the service, then the
      reply's content, then the parse of the cleaned reply, then the save. A
      reply without a message throws again inside the parse handler, and a
      `null` parse result throws when its `months` are read; both end in the
      outer handler. A content that is not text throws at the cleanup and
      is reported as a parse failure. */
  lemma AfterSaveOrder(roadmaps: seq<Roadmap>, next: nat, caller: Caller, goal: string,
                       apiKey: Option<string>, upstream: Upstream,
                       parse: string -> ParsedReply, now: int)
    ensures var r := AfterSave(roadmaps, next, caller, goal, apiKey, upstream, parse, now);
      && (!Present(apiKey) ==> r.0 == Failure(500, KeyMissing))
      && (Present(apiKey) && upstream.Unreachable? ==> r.0 == Failure(500, ServerError))
      && (Present(apiKey) && upstream.NotOk? ==> r.0 == Failure(500, GenerationFailed))
      && (Present(apiKey) && upstream.NoMessage? ==> r.0 == Failure(500, ServerError))
      && (Present(apiKey) && upstream.NotText? ==> r.0 == Failure(500, ParseFailed))
      && (Present(apiKey) && upstream.Replied? && parse(CleanReply(upstream.content)).NotJson?
          ==> r.0 == Failure(500, ParseFailed))
      && (Present(apiKey) && upstream.Replied? && parse(CleanReply(upstream.content)).JsonNull?
          ==> r.0 == Failure(500, ServerError))
  {
  }

  /** A roadmap is saved exactly when the key is set, the service replied,
      the cleaned reply parsed and its months and the goal pass the schema;
      it then holds the cast months. */
  lemma AfterSaveSuccess(roadmaps: seq<Roadmap>, next: nat, caller: Caller, goal: string,
                         apiKey: Option<string>, upstream: Upstream,
                         parse: string -> ParsedReply, now: int)
    ensures var r := AfterSave(roadmaps, next, caller, goal, apiKey, upstream, parse, now);
      && (r.0.Success? <==>
            Present(apiKey) && upstream.Replied? && parse(CleanReply(upstream.content)).JsonValue?
            && goal != "" && CastMonths(parse(CleanReply(upstream.content)).months).Some?)
      && (r.0.Success? ==>
            Some(r.0.value.months) == CastMonths(parse(CleanReply(upstream.content)).months)
            && r.0.value.createdAt == now)
  {
  }

  /** The generate request: the outcome, the users, the roadmaps and the
      next fresh id afterwards. An unknown caller changes nothing; otherwise
      the merged profile is saved before anything else can fail. */
  function Generate(users: seq<User>, roadmaps: seq<Roadmap>, next: nat, caller: Caller,
                    body: ProfileOverrides, apiKey: Option<string>, upstream: Upstream,
                    parse: string -> ParsedReply, now: int): (r: (Outcome<Roadmap>, seq<User>, seq<Roadmap>, nat))
    ensures FindUser(users, caller.id).None? ==> r == (Failure(404, UserNotFound), users, roadmaps, next)
    ensures FindUser(users, caller.id).Some? ==>
      var k := FindUser(users, caller.id).value;
      var user := MergeOverrides(users[k], body);
      && r.1 == users[k := user]
      && (r.0, r.2, r.3) == AfterSave(roadmaps, next, caller, user.careerGoal, apiKey, upstream, parse, now)
  {
    var found := FindUser(users, caller.id);
    if found.None? then (Failure(404, UserNotFound), users, roadmaps, next)
    else
      var user := MergeOverrides(users[found.value], body);
      var after := AfterSave(roadmaps, next, caller, user.careerGoal, apiKey, upstream, parse, now);
      (after.0, users[found.value := user], after.1, after.2)
  }

  /** The roadmap save keeps roadmap ids fresh and never lowers the next id. */
  lemma AfterSaveKeepsFresh(roadmaps: seq<Roadmap>, next: nat, caller: Caller, goal: string,
                            apiKey: Option<string>, upstream: Upstream,
                            parse: string -> ParsedReply, now: int)
    requires RoadmapIdsFresh(roadmaps, next)
    ensures var r := AfterSave(roadmaps, next, caller, goal, apiKey, upstream, parse, now);
            RoadmapIdsFresh(r.1, r.2) && r.2 >= next
  {
    var r := AfterSave(roadmaps, next, caller, goal, apiKey, upstream, parse, now);
    if r.0.Success? {
      assert forall i :: 0 <= i < |roadmaps| ==> r.1[i] == roadmaps[i];
    }
  }

  /** A generate request keeps user and roadmap ids fresh below the next id. */
  lemma GenerateKeepsFresh(users: seq<User>, roadmaps: seq<Roadmap>, next: nat, caller: Caller,
                           body: ProfileOverrides, apiKey: Option<string>, upstream: Upstream,
                           parse: string -> ParsedReply, now: int)
    requires UserIdsFresh(users, next) && RoadmapIdsFresh(roadmaps, next)
    ensures var r := Generate(users, roadmaps, next, caller, body, apiKey, upstream, parse, now);
            UserIdsFresh(r.1, r.3) && RoadmapIdsFresh(r.2, r.3)
  {
    var r := Generate(users, roadmaps, next, caller, body, apiKey, upstream, parse, now);
    var found := FindUser(users, caller.id);
    if found.Some? {
      var k := found.value;
      var user := MergeOverrides(users[k], body);
      AfterSaveKeepsFresh(roadmaps, next, caller, user.careerGoal, apiKey, upstream, parse, now);
      assert forall i :: 0 <= i < |r.1| ==> r.1[i].id == users[i].id;
    }
  }

  /** Without an API key the service is never consulted: the result is the
      same whatever it would have answered. */
  lemma KeyMissingSkipsService(users: seq<User>, roadmaps: seq<Roadmap>, next: nat, caller: Caller,
                               body: ProfileOverrides, apiKey: Option<string>,
                               up1: Upstream, parse1: string -> ParsedReply,
                               up2: Upstream, parse2: string -> ParsedReply, now: int)
    requires !Present(apiKey)
    ensures Generate(users, roadmaps, next, caller, body, apiKey, up1, parse1, now)
         == Generate(users, roadmaps, next, caller, body, apiKey, up2, parse2, now)
  {
  }

  /** An empty career goal after the merge makes the final save fail even
      when the reply parsed. */
  lemma EmptyGoalNotSaved(users: seq<User>, roadmaps: seq<Roadmap>, next: nat, caller: Caller,
                          body: ProfileOverrides, apiKey: Option<string>, upstream: Upstream,
                          parse: string -> ParsedReply, now: int)
    requires FindUser(users, caller.id).Some?
    requires MergeOverrides(users[FindUser(users, caller.id).value], body).careerGoal == ""
    ensures Generate(users, roadmaps, next, caller, body, apiKey, upstream, parse, now).0.Failure?
  {
  }

  /** The handler: load the user, assign the overrides and save, then the
      remaining steps. */
  method GenerateRoadmap(db: Store.Database, caller: Caller, body: ProfileOverrides, apiKey: Option<string>,
                         upstream: Upstream, parse: string -> ParsedReply, now: int)
    returns (r: Outcome<Roadmap>)
    requires db.Valid()
    modifies db`users, db`roadmaps, db`nextId
    ensures db.Valid()
    ensures (r, db.users, db.roadmaps, db.nextId)
         == Generate(old(db.users), old(db.roadmaps), old(db.nextId), caller, body, apiKey, upstream, parse, now)
  {
    var found := FindUser(db.users, caller.id);
    if found.None? {
      return Failure(404, UserNotFound);
    }
    var user := MergeOverrides(db.users[found.value], body);
    ghost var before := db.users;
    db.users := db.users[found.value := user];
    assert forall i :: 0 <= i < |db.users| ==> db.users[i].id == before[i].id;
    r := SaveRoadmap(db, caller, user.careerGoal, apiKey, upstream, parse, now);
  }

  /** The steps after the profile save: the key check, the service call, the
      cleanup and parse, and the roadmap save under the next fresh id. */
  method SaveRoadmap(db: Store.Database, caller: Caller, goal: string, apiKey: Option<string>,
                     upstream: Upstream, parse: string -> ParsedReply, now: int)
    returns (r: Outcome<Roadmap>)
    requires db.Valid()
    modifies db`roadmaps, db`nextId
    ensures db.Valid()
    ensures (r, db.roadmaps, db.nextId)
         == AfterSave(old(db.roadmaps), old(db.nextId), caller, goal, apiKey, upstream, parse, now)
  {
    if !Present(apiKey) {
      return Failure(500, KeyMissing);
    }
    if upstream.Unreachable? {
      return Failure(500, ServerError);
    }
    if upstream.NotOk? {
      return Failure(500, GenerationFailed);
    }
    if upstream.NoMessage? {
      return Failure(500, ServerError);
    }
    if upstream.NotText? {
      return Failure(500, ParseFailed);
    }
    var parsed := parse(CleanReply(upstream.content));
    if parsed.NotJson? {
      return Failure(500, ParseFailed);
    }
    if parsed.JsonNull? {
      return Failure(500, ServerError);
    }
    var roadmap := BuildRoadmap(db.nextId, caller, goal, parsed.months, now);
    if roadmap.None? {
      return Failure(500, ServerError);
    }
    AfterSaveKeepsFresh(db.roadmaps, db.nextId, caller, goal, apiKey, upstream, parse, now);
    db.roadmaps, db.nextId := db.roadmaps + [roadmap.value], db.nextId + 1;
    r := Success(200, roadmap.value);
  }

  /** `GET /api/pathfinder`: exactly the caller's roadmaps, newest first. */
  function GetRoadmaps(roadmaps: seq<Roadmap>, caller: Caller): (r: seq<Roadmap>)
    ensures forall x :: x in r <==> x in roadmaps && x.user == caller.id
    ensures multiset(r) == multiset(Filter(roadmaps, (x: Roadmap) => x.user == caller.id))
    ensures forall i, j :: 0 <= i < j < |r| ==> r[i].createdAt >= r[j].createdAt
  {
    var mine := Filter(roadmaps, (x: Roadmap) => x.user == caller.id);
    var r := SortBy(mine, (x: Roadmap) => -x.createdAt);
    SameMembers(r, mine);
    assert forall i, j :: 0 <= i < j < |r| ==> -r[i].createdAt <= -r[j].createdAt;
    r
  }
}
