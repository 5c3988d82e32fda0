/** The admin user table (client/src/components/admin/UserManagement.jsx):
    the search-and-role filter, the status toggle and the summary counts. */
module UserManagement {
  import Strings
  import Collections

  datatype User = User(name: string, email: string, role: string, status: string)

  /** Name or email contains the search term ignoring case, and the role
      filter is 'all' or the user's role. */
  predicate Matches(u: User, searchTerm: string, filterRole: string) {
    && (Strings.IncludesIgnoreCase(u.name, searchTerm) || Strings.IncludesIgnoreCase(u.email, searchTerm))
    && (filterRole == "all" || u.role == filterRole)
  }

  /** `filteredUsers`: the matching users, in table order, each as often as
      the table has it. */
  function FilteredUsers(users: seq<User>, searchTerm: string, filterRole: string): (r: seq<User>)
    ensures forall u :: u in r <==> u in users && Matches(u, searchTerm, filterRole)
    ensures Collections.IsSubsequence(r, users)
    ensures forall u :: multiset(r)[u] == if Matches(u, searchTerm, filterRole) then multiset(users)[u] else 0
  {
    var keep := u => Matches(u, searchTerm, filterRole);
    Collections.FilterIsSubsequence(users, keep);
    Collections.FilterMultiplicity(users, keep);
    assert forall u :: u in users && Matches(u, searchTerm, filterRole) ==> u in Collections.Filter(users, keep) by {
      forall u | u in users && Matches(u, searchTerm, filterRole) ensures u in Collections.Filter(users, keep) {
        var i :| 0 <= i < |users| && users[i] == u;
      }
    }
    Collections.Filter(users, keep)
  }

  /** With no search term and the role filter on 'all', every user shows. */
  lemma NoFilterKeepsAll(users: seq<User>)
    ensures FilteredUsers(users, "", "all") == users
  {
    forall i | 0 <= i < |users| ensures Matches(users[i], "", "all") {
      Strings.ContainsEmpty(Strings.Lower(users[i].name));
    }
    Collections.FilterAll(users, u => Matches(u, "", "all"));
  }

  /** `handleToggleStatus`: the status the confirmation offers. */
  function NewStatus(status: string): (r: string)
    ensures r == "inactive" <==> status == "active"
    ensures r == "active" || r == "inactive"
  {
    if status == "active" then "inactive" else "active"
  }

  /** Toggling twice from either status gives back that status. */
  lemma ToggleTwice(status: string)
    requires status == "active" || status == "inactive"
    ensures NewStatus(NewStatus(status)) == status
  {
  }

  predicate IsActive(u: User) { u.status == "active" }
  predicate IsSeller(u: User) { u.role == "seller" }
  predicate IsAdmin(u: User) { u.role == "admin" }

  /** The four stat cards: total, active, sellers, admins. */
  function Stats(users: seq<User>): (r: (nat, nat, nat, nat))
    ensures r.0 == |users|
    ensures r.1 == Collections.Count(users, IsActive)
    ensures r.2 == Collections.Count(users, IsSeller) && r.3 == Collections.Count(users, IsAdmin)
    ensures r.1 <= r.0 && r.2 <= r.0 && r.3 <= r.0
    ensures r.2 + r.3 <= r.0
  {
    SellersAndAdmins(users);
    (|users|, Collections.Count(users, IsActive), Collections.Count(users, IsSeller), Collections.Count(users, IsAdmin))
  }

  /** Sellers and admins are disjoint, so together they are at most all users. */
  lemma {:induction false} SellersAndAdmins(users: seq<User>)
    ensures Collections.Count(users, IsSeller) + Collections.Count(users, IsAdmin) <= |users|
  {
    if users != [] {
      SellersAndAdmins(users[1..]);
    }
  }
}
