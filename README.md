# HackHub in Dafny

HackHub is a web application for discovering hackathons and registering for
them, with an admin area for managing events and an AI "Pathfinder" that
builds a month-by-month learning roadmap. This project models the decision
logic of that application and proves properties of it.

- **The Express controllers**: registrations, events, admin statistics and
  the roadmap route. They are modelled as operations on an in-memory store.
  - Each operation is a pure function from the collections (and the caller)
    to an outcome plus the new collections. The outcome is a success with its
    HTTP status or an error code with its message.
  - The mutating operations are also methods on `Store.Database`, a class
    whose fields are the users, events, registrations and roadmaps plus the
    next fresh id. Each method states that its result and the new state are
    exactly what the function gives, and that the store invariant
    `Database.Valid` is kept: ids are distinct and below the next id, and
    `(user, event)` registration pairs are unique.
- **The React screens' logic**: the route guard, the two search filters, the
  tech-stack parser and form handler, the Pathfinder wizard, month toggle,
  topic toggle and progress, the dashboard delete, and the registration
  flags of the event page.
  - Each handler is one atomic state transition.
  - The imperative ones are methods: the topic-toggle loop, the progress
    loop, and the event page's flag updates on a class.

Module layout:

| file | contents |
|---|---|
| `wrappers.dfy` | `Option`, `Outcome` and JavaScript truthiness of an optional string (`Present`) |
| `seqs.dfy` | order-preserving `Filter`, subsequences, the stable sort used for `sort()`, `Take` for `limit()` |
| `text.dfy` | the JavaScript string operations: `toLowerCase`, `includes`, `trim`, `split`, global `replace` |
| `records.dfy` | the Mongoose schemas: users, events, registrations and roadmaps, with their enumerations and defaults |
| `store.dfy` | the database class and its invariant |
| `registration_controller.dfy`, `event_controller.dfy`, `admin_controller.dfy`, `pathfinder_route.dfy` | the server |
| `protected_route.dfy`, `search.dfy`, `admin_users.dfy`, `add_event.dfy`, `pathfinder_page.dfy`, `dashboard.dfy`, `event_details.dfy` | the client |

## Model

| member | source | states |
|---|---|---|
| Records.ParseResourceType | server/models/Roadmap.js:6 | only the six resource type names are accepted, each giving back its own name |
| Records.ResourceTypeRoundTrip | server/models/Roadmap.js:6 | every resource type survives being written out and parsed back |
| Records.ParseMonthStatus | server/models/Roadmap.js:25 | only 'locked', 'unlocked' and 'completed' are accepted |
| Records.MonthStatusRoundTrip | server/models/Roadmap.js:25 | every month status survives being written out and parsed back |
| Wrappers.Present | hackhub-offline/server/controllers/eventController.js:31 | JavaScript truthiness of an optional string: absent and "" are falsy; see Create |
| Records.FindById | hackhub-offline/server/controllers/eventController.js:17 | `findById` returns a position holding that id, or none when no record has it |
| Store.Database.constructor | hackhub-offline/server/models/registrationModel.js:21-22 | an empty store satisfies the invariant: fresh distinct ids and unique (user, event) pairs |
| Seqs.Filter | src/pages/Search.jsx:29-34 | `filter` keeps exactly the elements satisfying the predicate and never lengthens the list |
| Seqs.FilterIsSubseq | src/pages/Search.jsx:29-34 | the kept elements appear in their original order |
| Seqs.FilterCounts | hackhub-offline/src/pages/admin/AddEvent.jsx:36 | every occurrence of a kept value survives and no other value does |
| Seqs.FilterAll | src/pages/admin/Users.jsx:26-29 | a predicate true of every element keeps the whole list |
| Seqs.FilterFilter | src/pages/Search.jsx:24-44 | two successive filters equal one filter by the conjunction |
| Seqs.FilterRemovesOne | hackhub-offline/src/pages/admin/Dashboard.jsx:35 | filtering out the one element that fails removes exactly that position |
| Seqs.SubseqTrans | src/pages/Search.jsx:24-46 | a subsequence of a subsequence is a subsequence |
| Seqs.Map | hackhub-offline/src/pages/admin/AddEvent.jsx:35 | `map`: the same length, each element the function of the element at the same position |
| Seqs.InsertBySorted | hackhub-offline/server/controllers/eventController.js:9 | inserting into a sorted list keeps it sorted and adds exactly the one element |
| Seqs.InsertBy | hackhub-offline/server/controllers/eventController.js:9 | the insertion step of the sort; see InsertBySorted and InsertByAdds |
| Seqs.InsertByAdds | hackhub-offline/server/controllers/eventController.js:9 | insertion adds exactly the one element, wherever it lands |
| Seqs.SortBy | hackhub-offline/server/controllers/eventController.js:9 | `sort` returns a permutation of its input ordered by the key |
| Seqs.InsertByTies | hackhub-offline/server/controllers/eventController.js:9 | insertion places the new element before every element with its key and keeps each key's elements in order |
| Seqs.SortByStable | hackhub-offline/server/controllers/eventController.js:9 | the sort is stable: for every key, the elements with that key come out in their input order |
| Seqs.Take | hackhub-offline/server/controllers/adminController.js:23 | `limit(n)` is the first n elements, or all when there are fewer |
| Text.Lower | src/pages/admin/Users.jsx:27-28 | `toLowerCase` keeps the length and lowers each letter |
| Text.LowerIdempotent | src/pages/admin/Users.jsx:27-28 | lower-casing twice is lower-casing once |
| Text.IncludesLonger | server/routes/pathfinderRoutes.js:99 | text containing "```json" contains "```" |
| Text.StartsWith | server/routes/pathfinderRoutes.js:99 | `startsWith`: the text begins with the prefix; see LeadTicksFence |
| Text.Includes | src/pages/Search.jsx:30-33 | `includes`: the pattern occurs at some position; see IncludesLonger, TrimIncludes and RemoveFenceLeavesNone |
| Text.Trim | hackhub-offline/src/pages/admin/AddEvent.jsx:35 | `trim` gives the slice of the text between a run of leading and a run of trailing white space, with no white space left at either end |
| Text.TrimIncludes | server/routes/pathfinderRoutes.js:99 | trimming adds no text that was not there |
| Text.TrimIdempotent | hackhub-offline/src/pages/admin/AddEvent.jsx:35 | trimming twice is trimming once |
| Text.IsSpace | hackhub-offline/src/pages/admin/AddEvent.jsx:35 | the white space `trim` removes: the ASCII white space, the no-break space, the line and paragraph separators and the byte-order mark; see Trim |
| Text.Split | hackhub-offline/src/pages/admin/AddEvent.jsx:34 | `split(',')` gives at least one piece and no piece holds the separator |
| Text.SplitJoin | hackhub-offline/src/pages/admin/AddEvent.jsx:34 | joining the pieces with the separator gives back the input |
| Text.SplitCount | hackhub-offline/src/pages/admin/AddEvent.jsx:34 | there is exactly one more piece than separators |
| Text.SplitHead | hackhub-offline/src/pages/EventDetails.jsx:150 | the first piece is the text before the first separator, or everything |
| Text.RemoveAll | server/routes/pathfinderRoutes.js:99 | a global literal `replace` with '' never lengthens the text, and shortens it by at least one copy of the pattern when the pattern occurs |
| Text.RemoveAllIsSubseq | server/routes/pathfinderRoutes.js:99 | the result keeps characters of the input in their order |
| Text.RemoveAllDeletesCopies | server/routes/pathfinderRoutes.js:99 | the characters removed amount to whole copies of the pattern |
| Text.RemoveAbsent | server/routes/pathfinderRoutes.js:99 | removing a pattern that does not occur changes nothing |
| Text.RemoveFenceLeavesNone | server/routes/pathfinderRoutes.js:99 | after removing every "```", none is left, even where removal joins backticks |
| RegistrationController.Register | server/controllers/registrationController.js:7-32 | no event id gives 400; an existing pair gives 400; both leave the store unchanged; success iff the pair is new, giving 201 and appending exactly that pair; pair uniqueness is kept |
| RegistrationController.RegisterTwice | server/controllers/registrationController.js:16-29 | registering twice stores the pair once and the second attempt fails with "Already registered for this event" |
| RegistrationController.OnlyOccurrence | hackhub-offline/server/models/registrationModel.js:22 | under the unique index, each stored registration occurs exactly once |
| RegistrationController.GetRegistrations | server/controllers/registrationController.js:37-51 | an admin with `all` exactly "true" gets every registration; anyone else gets exactly their own, as a subsequence of the store |
| RegistrationController.Populate | server/controllers/registrationController.js:46-48 | the event is its stored document, null exactly when no event has that id; the user is reduced to id, name and email, null exactly when no user has that id |
| RegistrationController.ListRegistrations | server/controllers/registrationController.js:46-50 | the response holds one populated entry per selected registration, in order |
| RegistrationController.EventsPopulated | server/controllers/registrationController.js:46-47 | when the event of every registration the listing selects exists, every entry carries that event |
| RegistrationController.RegisteredThenPopulated | server/controllers/registrationController.js:26-48 | after a registration, when its event and the events of the registrations listed before it exist, every entry of the new listing carries an event and one carries the new one |
| RegistrationController.RegisteredThenListed | server/controllers/registrationController.js:26-44 | a successful registration is listed to its user afterwards |
| RegistrationController.RegisterForEvent | server/controllers/registrationController.js:7-32 | the check-then-insert handler computes exactly `Register` on the store and keeps the store invariant |
| EventController.GetEvents | hackhub-offline/server/controllers/eventController.js:8-11 | every event, ordered by date ascending |
| EventController.GetEvent | hackhub-offline/server/controllers/eventController.js:16-25 | 404 "Event not found" iff no event has the id; otherwise 200 with that stored event |
| EventController.Find | hackhub-offline/server/controllers/eventController.js:17 | `findById`: the position of the event with that id, none exactly when no event has it; see FindById |
| EventController.GetMyEvents | hackhub-offline/server/controllers/eventController.js:105-109 | exactly the caller's events, each as often as stored, ordered by date ascending |
| EventController.Create | hackhub-offline/server/controllers/eventController.js:30-42 | missing title, date or location gives 400 and no change; a missing description fails schema validation; success appends one event with the next id, created by the caller, with the body's title, description, location and date and its tech stack or an empty one |
| EventController.NewEvent | hackhub-offline/server/controllers/eventController.js:36-39 | the stored document: the body's fields, an empty tech stack when none is sent, and the caller as creator whatever the body says; see Create and CreateIgnoresBodyCreator |
| EventController.CreateIgnoresBodyCreator | hackhub-offline/server/controllers/eventController.js:36-39 | a `createdBy` in the body has no effect on the outcome |
| EventController.Authorize | hackhub-offline/server/controllers/eventController.js:48-65 | 404 before 401 "User not found" before 401 "User not authorized"; passes iff the event exists and the caller is an admin |
| EventController.AnyAdminMayMutate | hackhub-offline/server/controllers/eventController.js:61-67 | ownership is not checked: any admin passes for any existing event |
| EventController.Delete | hackhub-offline/server/controllers/eventController.js:47-70 | failures leave the events unchanged; success returns the id and removes exactly the event with that id, keeping the others in order |
| EventController.FilterKeepsFresh | hackhub-offline/server/controllers/eventController.js:67 | removing events keeps ids distinct and below the next id |
| EventController.ApplyPatch | hackhub-offline/server/controllers/eventController.js:95-97 | each field given in the body is overwritten, the id is kept, an empty body changes nothing |
| EventController.PatchKeepsAbsentFields | hackhub-offline/server/controllers/eventController.js:95-97 | fields absent from the body are kept, and applying the same body twice equals applying it once |
| EventController.Update | hackhub-offline/server/controllers/eventController.js:75-100 | failures leave the events unchanged; success replaces only the one event by its patched form and returns it; ids never change |
| EventController.CreateEvent | hackhub-offline/server/controllers/eventController.js:30-42 | the handler computes exactly `Create` on the store and keeps the store invariant |
| EventController.DeleteEvent | hackhub-offline/server/controllers/eventController.js:47-70 | the handler computes exactly `Delete` on the store and keeps the store invariant |
| EventController.UpdateEvent | hackhub-offline/server/controllers/eventController.js:75-100 | the handler computes exactly `Update` on the store and keeps the store invariant |
| AdminController.NewestFirst | hackhub-offline/server/controllers/adminController.js:10 | a permutation of the users ordered by creation time, newest first |
| AdminController.GetUsers | hackhub-offline/server/controllers/adminController.js:9-12 | one password-free view per user, every user present, newest first |
| AdminController.WithoutPassword | hackhub-offline/server/controllers/adminController.js:10 | `select('-password')`: every field but the password; see GetUsers |
| AdminController.RecentUsers | hackhub-offline/server/controllers/adminController.js:23 | exactly 5 users, or all of them when there are fewer; drawn from the store, newest first, and all of them when there are 5 or fewer |
| AdminController.RecentAreNewest | hackhub-offline/server/controllers/adminController.js:23 | no user left out of the recent list is newer than any user in it |
| AdminController.GetAdminStats | hackhub-offline/server/controllers/adminController.js:17-31 | the three counts are the collection sizes; the recent list is the name/email/date projection of `RecentUsers`: exactly 5, or all users when there are fewer, newest first |
| AdminController.Brief | hackhub-offline/server/controllers/adminController.js:23 | `select('name email createdAt')` with the id; see GetAdminStats |
| PathfinderRoute.MergeOverrides | server/routes/pathfinderRoutes.js:16-19 | each profile field is replaced only by a truthy body value; "" and 0 keep the stored value; nothing else changes |
| PathfinderRoute.PresentNumber | server/routes/pathfinderRoutes.js:19 | JavaScript truthiness of a number: absent and 0 are falsy; see MergeOverrides |
| PathfinderRoute.FindUser | server/routes/pathfinderRoutes.js:10 | `User.findById`: see FindById and Generate |
| PathfinderRoute.MergeIdempotent | server/routes/pathfinderRoutes.js:16-19 | merging the same overrides again changes nothing; a body with no truthy field keeps the profile |
| PathfinderRoute.CleanReply | server/routes/pathfinderRoutes.js:99 | the fence-stripping chain; see CleanReplyShape, CleanKeepsPlainReply and CleanIdempotent |
| PathfinderRoute.CleanReplyShape | server/routes/pathfinderRoutes.js:99 | the cleaned reply holds no "```json" and no "```" and has no white space at its ends |
| PathfinderRoute.CleanKeepsPlainReply | server/routes/pathfinderRoutes.js:99 | a reply with no fence and no white space at its ends is used as sent |
| PathfinderRoute.CleanIdempotent | server/routes/pathfinderRoutes.js:99 | cleaning a cleaned reply returns it unchanged |
| PathfinderRoute.CastResources | server/models/Roadmap.js:3-9 | resources are accepted iff each one's type is valid, element by element |
| PathfinderRoute.CastMonths | server/models/Roadmap.js:17-26 | months are accepted iff each one casts, element by element |
| PathfinderRoute.CastRoundTrip | server/models/Roadmap.js:3-26 | every month the schema can store is accepted back unchanged |
| PathfinderRoute.CastTopic | server/models/Roadmap.js:11-15 | a topic with `completed` defaulting to false; see CastRoundTrip |
| PathfinderRoute.CastResource | server/models/Roadmap.js:3-9 | a resource whose type must be one of the enum names, defaulting to Video and the icon to youtube; see CastResources and CastRoundTrip |
| PathfinderRoute.CastMonth | server/models/Roadmap.js:17-26 | a month whose status must be one of the enum values, defaulting to unlocked, and whose resources all cast; see CastMonths and CastRoundTrip |
| PathfinderRoute.BuildRoadmap | server/routes/pathfinderRoutes.js:107-113 | the roadmap is saved iff the goal is non-empty and the months cast, owned by the caller with that goal |
| PathfinderRoute.AfterSave | server/routes/pathfinderRoutes.js:22-119 | every failure is a 500 and saves no roadmap; success is a 200 that appends one roadmap under the next id, owned by the caller with the given goal, and advances the id |
| PathfinderRoute.AfterSaveOrder | server/routes/pathfinderRoutes.js:22-118 | no key gives 500 "Server Protocol Error: API Key missing" before the service is consulted; then an unreachable service gives 500 "Server Error", an error status 500 "Error generating roadmap via AI", a reply without `choices[0].message` 500 "Server Error" (the parse handler throws again), a content that is not text 500 "Failed to parse AI response", an unparsable cleaned reply 500 "Failed to parse AI response", and a `null` parse result 500 "Server Error" |
| PathfinderRoute.AfterSaveSuccess | server/routes/pathfinderRoutes.js:94-114 | a roadmap is saved iff the key is set, the service replied, the cleaned reply parsed, the goal is non-empty and the months cast; it then holds the cast months and the creation time |
| PathfinderRoute.Generate | server/routes/pathfinderRoutes.js:8-120 | an unknown user gives 404 and no change; otherwise the merged profile is saved before every later check, and the rest is `AfterSave` with the merged career goal |
| PathfinderRoute.AfterSaveKeepsFresh | server/routes/pathfinderRoutes.js:107-113 | saving a roadmap keeps roadmap ids distinct and below the next id, which never decreases |
| PathfinderRoute.GenerateKeepsFresh | server/routes/pathfinderRoutes.js:8-120 | generation keeps user and roadmap ids fresh |
| PathfinderRoute.KeyMissingSkipsService | server/routes/pathfinderRoutes.js:24-26 | without a key the outcome does not depend on the service at all |
| PathfinderRoute.EmptyGoalNotSaved | server/models/Roadmap.js:34 | an empty merged career goal makes generation fail |
| PathfinderRoute.GenerateRoadmap | server/routes/pathfinderRoutes.js:8-120 | the handler computes exactly `Generate` on the store and keeps the store invariant |
| PathfinderRoute.SaveRoadmap | server/routes/pathfinderRoutes.js:22-119 | the steps after the profile save compute exactly `AfterSave` on the store and keep the store invariant |
| PathfinderRoute.GetRoadmaps | server/routes/pathfinderRoutes.js:123-131 | exactly the caller's roadmaps, each as often as stored, newest first |
| ProtectedRoute.Guard | hackhub-offline/src/components/ProtectedRoute.jsx:4-27 | loading always shows the loading view; signed out goes to "/admin/login" for admin paths and "/login" otherwise, remembering the path; a role outside a given list goes to "/unauthorized"; the outlet is shown iff not loading, signed in and the role check passes |
| ProtectedRoute.RoleAllowed | hackhub-offline/src/components/ProtectedRoute.jsx:21 | `allowedRoles.includes(role)`: a role is present and listed; see Guard and AdminRouteAdmitsOnlyAdmins |
| ProtectedRoute.AdminRouteAdmitsOnlyAdmins | hackhub-offline/src/components/ProtectedRoute.jsx:21-26 | behind `['admin']` the outlet is shown exactly to signed-in admins |
| ProtectedRoute.LoginRedirects | hackhub-offline/src/components/ProtectedRoute.jsx:12-18 | only signed-out visits to admin paths go to the admin login; every login redirect carries the requested path |
| ProtectedRoute.EmptyRolesAdmitNobody | hackhub-offline/src/components/ProtectedRoute.jsx:21 | an empty role list is truthy and admits nobody |
| Search.ApplyFilters | src/pages/Search.jsx:24-44 | a subsequence of the events; an event is kept iff it matches the lower-cased query in title, description, location or a tech-stack entry (when there is a query) and is strictly after now (under 'Upcoming'); no query and no 'Upcoming' keeps everything |
| Search.Matches | src/pages/Search.jsx:29-34 | the query occurs in the lowered title, description, location or some technology; see ApplyFilters and QueryCaseInsensitive |
| Search.FilterEffect | src/pages/Search.jsx:21-47 | with no events the shown list is untouched; otherwise it is exactly the filtered events, a subsequence of the events, all of them for no query under 'All' |
| Search.OtherCategoriesDoNotNarrow | src/pages/Search.jsx:38-44 | 'Design', 'AI' and 'Web3' give the same result as 'All' |
| Search.QueryCaseInsensitive | src/pages/Search.jsx:28 | a query and its lower-case form give the same result |
| AdminUsers.FilteredUsers | src/pages/admin/Users.jsx:26-29 | a subsequence of the users; a user is kept iff the lower-cased term occurs in the lower-cased name or e-mail |
| AdminUsers.UserMatches | src/pages/admin/Users.jsx:27-28 | the lowered term occurs in the lowered name or e-mail; see FilteredUsers and TermCaseInsensitive |
| AdminUsers.EmptyTermKeepsAll | src/pages/admin/Users.jsx:26-29 | an empty term keeps every user in order |
| AdminUsers.TermCaseInsensitive | src/pages/admin/Users.jsx:27-28 | a term and its lower-case form select the same users |
| AddEvent.HandleChange | hackhub-offline/src/pages/admin/AddEvent.jsx:21-23 | the named field takes the new value and every other field is unchanged |
| AddEvent.HandleChangeLaws | hackhub-offline/src/pages/admin/AddEvent.jsx:21-23 | the second of two writes wins; writing back a field's own value changes nothing |
| AddEvent.TrimmedPieces | hackhub-offline/src/pages/admin/AddEvent.jsx:33-35 | one trimmed, comma-free piece per comma-separated part, in order |
| AddEvent.ParseTechStack | hackhub-offline/src/pages/admin/AddEvent.jsx:33-36 | no element is empty or has white space at its ends; at most one more element than commas; elements follow the input order; an element is kept iff it is a non-empty trimmed piece |
| AddEvent.ParseTechStackCounts | hackhub-offline/src/pages/admin/AddEvent.jsx:33-36 | each non-empty trimmed piece occurs exactly as often as among the pieces, and the empty one never |
| AddEvent.BlankInputGivesNothing | hackhub-offline/src/pages/admin/AddEvent.jsx:33-36 | empty input, or input of only white space and commas, gives no technologies |
| AddEvent.SubmitBody | hackhub-offline/src/pages/admin/AddEvent.jsx:31-44 | nothing is posted for an invalid date; otherwise title, description and location go verbatim, with the parsed tech stack and no creator |
| AddEvent.FilledFormIsCreated | hackhub-offline/src/pages/admin/AddEvent.jsx:38-44 | a filled form with a valid date is created by the server exactly as entered, owned by the caller |
| AddEvent.InitialFormCreated | hackhub-offline/src/pages/admin/AddEvent.jsx:12-19 | submitting the untouched initial form with a valid date creates the sample event, with its title, description and location and no technologies |
| PathfinderPage.Next | src/pages/Pathfinder.jsx:65-68 | below step 4 advance by one; at step 4 stay and start generating; the step stays within 1..4 |
| PathfinderPage.Back | src/pages/Pathfinder.jsx:70-73 | above step 1 go back by one; at step 1 stay and navigate home; the step stays within 1..4 |
| PathfinderPage.NextBackRoundTrip | src/pages/Pathfinder.jsx:65-73 | forward then back, or back then forward, returns to the same step inside the wizard |
| PathfinderPage.ToggleMonth | src/pages/Pathfinder.jsx:90-92 | the month becomes the open one iff it was not; otherwise none is open |
| PathfinderPage.ToggleMonthTwice | src/pages/Pathfinder.jsx:90-92 | toggling twice restores the state when that month or none was open |
| PathfinderPage.FindTopic | src/pages/Pathfinder.jsx:101 | `find` returns the first topic with the id, or none |
| PathfinderPage.FindMonth | src/pages/Pathfinder.jsx:100-107 | the first month holding a topic with the id, or none |
| PathfinderPage.ToggleTopic | src/pages/Pathfinder.jsx:97-108 | only the first matching topic of the first month holding one is flipped; all other months and topics are unchanged; an unknown id changes nothing |
| PathfinderPage.Flip | src/pages/Pathfinder.jsx:103 | `topic.completed = !topic.completed`; see ToggleTopicTwice |
| PathfinderPage.ToggleKeepsFinds | src/pages/Pathfinder.jsx:100-104 | a toggle keeps every id, so the same month and topic are found afterwards |
| PathfinderPage.ToggleTopicTwice | src/pages/Pathfinder.jsx:103 | toggling the same topic twice restores every completion flag |
| PathfinderPage.ToggleTopicCompletion | src/pages/Pathfinder.jsx:94-108 | the loop with `break` computes exactly `ToggleTopic` and reports whether the topic was found |
| PathfinderPage.CompletedIn | src/pages/Pathfinder.jsx:142 | a month's completed count is at most its topic count, and equal iff all its topics are completed |
| PathfinderPage.TotalTopics | src/pages/Pathfinder.jsx:136-141 | the topics of all months added up; see CompletedTopics, AllCompletedIffCountsAgree and Progress |
| PathfinderPage.CompletedTopics | src/pages/Pathfinder.jsx:136-145 | the completed count never exceeds the total |
| PathfinderPage.AllCompletedIffCountsAgree | src/pages/Pathfinder.jsx:136-145 | the two counts agree iff every topic is completed |
| PathfinderPage.Percent | src/pages/Pathfinder.jsx:146 | 0 with no topics; otherwise the ratio in percent rounded half up; always within 0..100 |
| PathfinderPage.PercentFull | src/pages/Pathfinder.jsx:146 | all completed shows 100; fewer than all, with fewer than 200 topics, shows less than 100 |
| PathfinderPage.PercentRoundsUpToFull | src/pages/Pathfinder.jsx:146 | 199 of 200 topics shows 100 |
| PathfinderPage.Progress | src/pages/Pathfinder.jsx:136-146 | the accumulating loop computes exactly the two counts and the percentage |
| Dashboard.HandleDelete | hackhub-offline/src/pages/admin/Dashboard.jsx:30-40 | no pending id does nothing and sends nothing; a failed request changes nothing; a successful one clears the pending id and the list becomes exactly the `filter` of the events by a different id |
| Dashboard.HandleDeleteCounts | hackhub-offline/src/pages/admin/Dashboard.jsx:35 | a confirmed delete keeps every copy of every event with another id and none with the deleted id |
| Dashboard.DeleteKeepsListInStep | hackhub-offline/src/pages/admin/Dashboard.jsx:34-35 | after a delete the server accepts, the list shown equals the server's new event table |
| EventDetails.SomeRegisteredMeaning | hackhub-offline/src/pages/EventDetails.jsx:42 | true iff some registration refers to the event before any deleted event is reached; the test throws iff a deleted event is reached first |
| EventDetails.SomeRegistered | hackhub-offline/src/pages/EventDetails.jsx:42 | the `some` test; see SomeRegisteredMeaning and SomeRegisteredWithoutMissing |
| EventDetails.RegisteredThenShown | hackhub-offline/src/pages/EventDetails.jsx:39-44 | after a successful registration, the page's test over its own listing (requested without `all`) is true as long as the event and every event the caller registered for before still exist |
| EventDetails.RefOf | hackhub-offline/src/pages/EventDetails.jsx:42 | how `reg.event._id` reads a populated entry: its event id, or a deleted event when null; see PopulatedListingShown |
| EventDetails.PopulatedListingShown | hackhub-offline/src/pages/EventDetails.jsx:41-43 | a listing whose entries all carry their event, one of them this event, makes the test answer true |
| EventDetails.SomeRegisteredWithoutMissing | hackhub-offline/src/pages/EventDetails.jsx:42 | with no deleted events, the answer is whether some registration refers to the event, populated or by raw id |
| EventDetails.FailureMessage | hackhub-offline/src/pages/EventDetails.jsx:56 | the server's message when it sent a non-empty one, else "Registration failed" |
| EventDetails.LocationHead | hackhub-offline/src/pages/EventDetails.jsx:150 | the text before the first comma, or the whole location when there is none |
| EventDetails.EventDetailsState.CheckRegistration | hackhub-offline/src/pages/EventDetails.jsx:39-47 | the flag takes the test's answer; a failed request or a throwing test leaves it |
| EventDetails.EventDetailsState.BeginRegister | hackhub-offline/src/pages/EventDetails.jsx:50-51 | busy, and the error cleared before the attempt |
| EventDetails.EventDetailsState.FinishRegister | hackhub-offline/src/pages/EventDetails.jsx:53-58 | registered only after an accepted request; the failure message after a rejected one; never busy afterwards |
| EventDetails.EventDetailsState.HandleRegister | hackhub-offline/src/pages/EventDetails.jsx:49-60 | the whole handler: not busy, registered iff it was or the request was accepted, error empty after success and the failure message otherwise |
| EventDetails.EventDetailsState.constructor | hackhub-offline/src/pages/EventDetails.jsx:18-20 | the page starts not registering, not registered and with no error |

## Left out

- EventController.ApplyPatch: an update body field sent as `null`, or a `date` sent as an empty string, is stored as null by `findByIdAndUpdate`, which runs no validators. Stored events in this model have no null fields, so such a field is treated as absent and the stored value is kept.

- Database and network I/O are left out. The Mongoose queries are operations on sequences. The text-generation call, its prompt and `JSON.parse` are inputs:
  - `Upstream` says whether the service was unreachable, answered with an error status, replied without `choices[0].message`, replied with a `content` that is not a string, or replied with text.
  - `parse` says whether the cleaned reply is not JSON, is the JSON value `null`, or is another value with a `months` array. A value without a `months` key (any other object, a number, a string) is expected to appear with an empty array. A `months` value that is not an array is not modelled.
- The connection flag, the per-request connect middleware, CORS, body parsing, the `protect`/`admin` middleware and the error middleware are not part of this model. The caller is an input.
  - The status for a Mongoose validation failure is assumed to be 500, because the error middleware is not part of this model. This covers an event without a description and a roadmap with an empty goal.
- EventController.Create: an `_id` sent in the request body is not modelled. `Event.create` spreads the whole body, so the source stores such an id (or fails on a duplicate), while the model always takes the next counter id, which keeps ids fresh.
- Ids are natural numbers handed out from a counter. A malformed id string, which Mongoose rejects with a cast error, is not modelled.
- The generated `_id` and the `createdAt`/`updatedAt` timestamps of events and registrations are not modelled. User creation dates and roadmap creation times are plain integers; the roadmap time is a parameter.
- Dates are integer timestamps and "now" is a parameter. Time zones, ISO formatting, the `date` and `time` inputs' parsing and locale display are left out. `AddEvent.SubmitBody` takes the combined timestamp, or `None` when the inputs do not name a valid date.
- Mongoose casting of mismatched primitive types (a string where a number or boolean is expected) is not modelled. Only the enumerations and defaults of the roadmap schema are.
- Mongo's order among equal sort keys is unspecified. The model sorts stably, and only the ordering and permutation are stated.
- `Text.Lower` lowers ASCII letters only; JavaScript's full Unicode case mapping is not modelled.
- Strings are sequences of Unicode scalar values. JavaScript's UTF-16 code units are not modelled, so a character outside the Basic Multilingual Plane counts as one character, not two, and lone surrogates cannot occur.
- `Text.IsSpace` covers the common white space characters. The other Unicode space separators that `trim` also removes are not modelled.
- `PathfinderPage.PercentFull`: the stated property is weaker than "100% exactly when every topic is completed". That property fails for 200 topics or more, because rounding shows 100% at 199 of 200 (`PathfinderPage.PercentRoundsUpToFull`). Floating point is replaced by the exact rounding `(200c + t) / (2t)`.
- `PathfinderPage.ToggleTopicCompletion` works on values. The source copies the roadmap shallowly and flips the topic object in place, so the previous roadmap state is changed too. That aliasing is not modelled. The `PUT` request it sends afterwards, and the server endpoint behind it, are not part of this model.
- The handlers that only fetch data and store it in component state (`fetchEvents`, `fetchUsers`, `fetchRoadmaps`, `fetchEventDetails`, `handleGenerate`) are left out. So are alerts, navigation other than the wizard's effect, and rendering.
- Asynchronous scheduling and re-rendering are left out: each handler is one atomic transition. The event page's handler is additionally split into its start and end.
