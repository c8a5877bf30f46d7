/** `GET /api/admin/users` and `GET /api/admin/stats`. Both only read the
    collections. */
module AdminController {
  import opened Records
  import opened Seqs

  /** A user as listed to admins: every field but `password`. */
  datatype UserView = UserView(
    id: Id,
    name: string,
    email: string,
    role: Role,
    avatar: string,
    careerGoal: string,
    skillLevel: string,
    targetOutcome: string,
    availability: int,
    createdAt: int)

  /** `select('-password')`. */
  function WithoutPassword(u: User): UserView {
    UserView(u.id, u.name, u.email, u.role, u.avatar, u.careerGoal, u.skillLevel,
             u.targetOutcome, u.availability, u.createdAt)
  }

  /** `select('name email createdAt')`; the id is always selected. */
  datatype RecentUser = RecentUser(id: Id, name: string, email: string, createdAt: int)

  function Brief(u: User): RecentUser {
    RecentUser(u.id, u.name, u.email, u.createdAt)
  }

  datatype Stats = Stats(totalUsers: nat, totalEvents: nat, totalRegistrations: nat, recentUsers: seq<RecentUser>)

  /** `sort({ createdAt: -1 })`: every user, most recently created first. */
  function NewestFirst(users: seq<User>): (r: seq<User>)
    ensures multiset(r) == multiset(users)
    ensures forall i, j :: 0 <= i < j < |r| ==> r[i].createdAt >= r[j].createdAt
  {
    var r := SortBy(users, (u: User) => -u.createdAt);
    assert forall i, j :: 0 <= i < j < |r| ==> -r[i].createdAt <= -r[j].createdAt;
    r
  }

  /** The admin user list: all users, newest first, no password anywhere. */
  function GetUsers(users: seq<User>): (r: seq<UserView>)
    ensures |r| == |users|
    ensures forall i, j :: 0 <= i < j < |r| ==> r[i].createdAt >= r[j].createdAt
    ensures forall u :: u in users ==> WithoutPassword(u) in r
    ensures forall v :: v in r ==> exists u :: u in users && v == WithoutPassword(u)
  {
    var sorted := NewestFirst(users);
    SameMembers(sorted, users);
    var r := Map(sorted, WithoutPassword);
    assert forall u :: u in sorted ==> WithoutPassword(u) in r;
    r
  }

  /** `sort({ createdAt: -1 }).limit(5)`: the five most recently created users. */
  function RecentUsers(users: seq<User>): (r: seq<User>)
    ensures |r| == if |users| < 5 then |users| else 5
    ensures multiset(r) <= multiset(users)
    ensures |users| <= 5 ==> multiset(r) == multiset(users)
    ensures forall i, j :: 0 <= i < j < |r| ==> r[i].createdAt >= r[j].createdAt
    ensures forall u :: u in r ==> u in users
  {
    var sorted := NewestFirst(users);
    SameMembers(sorted, users);
    var r := Take(sorted, 5);
    assert sorted == r + sorted[|r|..];
    r
  }

  /** No user left out of the recent list is newer than any user in it. */
  lemma RecentAreNewest(users: seq<User>, left: User, kept: User)
    requires left in users && left !in RecentUsers(users)
    requires kept in RecentUsers(users)
    ensures left.createdAt <= kept.createdAt
  {
    var sorted := NewestFirst(users);
    SameMembers(sorted, users);
    var r := RecentUsers(users);
    assert r == sorted[..|r|];
    var j :| 0 <= j < |sorted| && sorted[j] == left;
    var i :| 0 <= i < |r| && r[i] == kept;
    assert forall k :: 0 <= k < |r| ==> sorted[k] == r[k] != left;
    assert j >= |r|;
    assert sorted[i] == kept;
  }

  /** The dashboard statistics: the three collection sizes and the brief
      form of the five newest users. */
  function GetAdminStats(users: seq<User>, events: seq<Event>, regs: seq<Registration>): (r: Stats)
    ensures r.totalUsers == |users| && r.totalEvents == |events| && r.totalRegistrations == |regs|
    ensures |r.recentUsers| == if |users| < 5 then |users| else 5
    ensures r.recentUsers == Map(RecentUsers(users), Brief)
    ensures forall i, j :: 0 <= i < j < |r.recentUsers| ==> r.recentUsers[i].createdAt >= r.recentUsers[j].createdAt
    ensures forall v :: v in r.recentUsers ==> exists u :: u in users && v == Brief(u)
  {
    var recent := RecentUsers(users);
    var views := Map(recent, Brief);
    forall v | v in views ensures exists u :: u in users && v == Brief(u) {
      var i :| 0 <= i < |views| && views[i] == v;
      assert recent[i] in users;
    }
    Stats(|users|, |events|, |regs|, views)
  }
}
