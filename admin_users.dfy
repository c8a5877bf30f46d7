/** The admin user list's search box: a case-insensitive match on name or
    e-mail over the users the admin endpoint returned. */
module AdminUsers {
  import opened Seqs
  import opened Text
  import opened AdminController

  predicate UserMatches(u: UserView, term: string) {
    Includes(Lower(u.name), Lower(term)) || Includes(Lower(u.email), Lower(term))
  }

  /** `filteredUsers`. */
  function FilteredUsers(users: seq<UserView>, term: string): (r: seq<UserView>)
    ensures IsSubseq(r, users)
    ensures forall u :: u in r <==> u in users && UserMatches(u, term)
  {
    FilterIsSubseq(users, (u: UserView) => UserMatches(u, term));
    Filter(users, (u: UserView) => UserMatches(u, term))
  }

  /** Every string contains the empty string. */
  lemma IncludesEmpty(s: string)
    ensures Includes(s, "")
  {
  }

  /** An empty search keeps every user, in order. */
  lemma EmptyTermKeepsAll(users: seq<UserView>)
    ensures FilteredUsers(users, "") == users
  {
    forall i | 0 <= i < |users| ensures UserMatches(users[i], "") {
      IncludesEmpty(Lower(users[i].name));
    }
    FilterAll(users, (u: UserView) => UserMatches(u, ""));
  }

  /** A term and its lower-case form select the same users. */
  lemma TermCaseInsensitive(users: seq<UserView>, term: string)
    ensures FilteredUsers(users, Lower(term)) == FilteredUsers(users, term)
  {
    LowerIdempotent(term);
    FilterCongruent(users, (u: UserView) => UserMatches(u, Lower(term)), (u: UserView) => UserMatches(u, term));
  }
}
