/** The user table run on its own seed list: the rows of the first render,
    a search and a role filter, a sort by role that shows ties keeping seed
    order in both directions, and the join-date column sorting by date. */
module DataTableSeed {
  import opened Prelude
  import opened Text
  import opened DataTable
  import Calendar

  lemma SortStep(x: User, rest: seq<User>, sortBy: SortKey, sortOrder: SortOrder)
    ensures SortUsers([x] + rest, sortBy, sortOrder) == Insert(x, SortUsers(rest, sortBy, sortOrder), sortBy, sortOrder)
  {
    assert ([x] + rest)[1..] == rest;
  }

  lemma InsertBefore(x: User, y: User, rest: seq<User>, sortBy: SortKey, sortOrder: SortOrder)
    requires Compare(x, y, sortBy, sortOrder) <= 0
    ensures Insert(x, [y] + rest, sortBy, sortOrder) == [x, y] + rest
  {
  }

  lemma InsertAfter(x: User, y: User, rest: seq<User>, sortBy: SortKey, sortOrder: SortOrder)
    requires Compare(x, y, sortBy, sortOrder) > 0
    ensures Insert(x, [y] + rest, sortBy, sortOrder) == [y] + Insert(x, rest, sortBy, sortOrder)
  {
    assert ([y] + rest)[1..] == rest;
  }

  /** The empty search string keeps every record. */
  lemma EmptySearchKeepsAll(users: seq<User>)
    ensures Filter(users, SearchFilter("")) == users
  {
    forall u | u in users ensures MatchesSearch(u, "") {
      IncludesEmpty(Lower(u.name));
    }
    FilterKeepsAll(users, SearchFilter(""));
  }

  /** With no search and role "all" every record survives, in its original order. */
  lemma NothingFiltered(users: seq<User>)
    ensures Survivors(users, "", "all") == users
  {
    EmptySearchKeepsAll(users);
    FilterKeepsAll(users, RoleFilter("all"));
  }

  lemma NameComparisons()
    ensures var u := Users();
      && Compare(u[3], u[4], Name, Asc) == 1 && Compare(u[2], u[4], Name, Asc) == 1
      && Compare(u[2], u[3], Name, Asc) == 1 && Compare(u[1], u[4], Name, Asc) == 1
      && Compare(u[1], u[3], Name, Asc) == 1 && Compare(u[1], u[2], Name, Asc) == 1
      && Compare(u[0], u[4], Name, Asc) == 1 && Compare(u[0], u[3], Name, Asc) == 1
      && Compare(u[0], u[2], Name, Asc) == -1
  {
  }

  /** Insertion sort on five records whose pairwise comparisons are those of
      the seed list under the name order. */
  lemma SortFiveByName(john: User, sarah: User, mike: User, emma: User, alex: User)
    requires Compare(emma, alex, Name, Asc) > 0 && Compare(mike, alex, Name, Asc) > 0
    requires Compare(mike, emma, Name, Asc) > 0 && Compare(sarah, alex, Name, Asc) > 0
    requires Compare(sarah, emma, Name, Asc) > 0 && Compare(sarah, mike, Name, Asc) > 0
    requires Compare(john, alex, Name, Asc) > 0 && Compare(john, emma, Name, Asc) > 0
    requires Compare(john, mike, Name, Asc) <= 0
    ensures SortUsers([john, sarah, mike, emma, alex], Name, Asc) == [alex, emma, john, mike, sarah]
  {
    SortStep(alex, [], Name, Asc);
    SortStep(emma, [alex], Name, Asc);
    InsertAfter(emma, alex, [], Name, Asc);
    assert SortUsers([emma, alex], Name, Asc) == [alex, emma];
    SortStep(mike, [emma, alex], Name, Asc);
    InsertAfter(mike, alex, [emma], Name, Asc);
    InsertAfter(mike, emma, [], Name, Asc);
    assert SortUsers([mike, emma, alex], Name, Asc) == [alex, emma, mike];
    SortStep(sarah, [mike, emma, alex], Name, Asc);
    InsertAfter(sarah, alex, [emma, mike], Name, Asc);
    InsertAfter(sarah, emma, [mike], Name, Asc);
    InsertAfter(sarah, mike, [], Name, Asc);
    assert SortUsers([sarah, mike, emma, alex], Name, Asc) == [alex, emma, mike, sarah];
    SortStep(john, [sarah, mike, emma, alex], Name, Asc);
    InsertAfter(john, alex, [emma, mike, sarah], Name, Asc);
    InsertAfter(john, emma, [mike, sarah], Name, Asc);
    InsertBefore(john, mike, [sarah], Name, Asc);
  }

  /** The table as first rendered: all five users, Alex Chen, Emma Davis,
      John Doe, Mike Johnson, Sarah Wilson. */
  lemma InitialRows()
    ensures var u := Users(); FilteredAndSortedUsers(u, "", "all", Name, Asc) == [u[4], u[3], u[0], u[2], u[1]]
  {
    var u := Users();
    NothingFiltered(u);
    NameComparisons();
    SortFiveByName(u[0], u[1], u[2], u[3], u[4]);
    assert u == [u[0], u[1], u[2], u[3], u[4]];
  }

  lemma RoleComparisons()
    ensures var u := Users();
      && Compare(u[3], u[4], Role, Asc) == -1 && Compare(u[2], u[3], Role, Asc) == 1
      && Compare(u[2], u[4], Role, Asc) == 0 && Compare(u[1], u[3], Role, Asc) == 0
      && Compare(u[0], u[1], Role, Asc) == -1
      && Compare(u[3], u[4], Role, Desc) == 1 && Compare(u[2], u[4], Role, Desc) == 0
      && Compare(u[1], u[2], Role, Desc) == 1 && Compare(u[1], u[4], Role, Desc) == 1
      && Compare(u[1], u[3], Role, Desc) == 0
      && Compare(u[0], u[2], Role, Desc) == 1 && Compare(u[0], u[4], Role, Desc) == 1
      && Compare(u[0], u[1], Role, Desc) == 1 && Compare(u[0], u[3], Role, Desc) == 1
  {
  }

  lemma SortFiveByRoleAscending(john: User, sarah: User, mike: User, emma: User, alex: User)
    requires Compare(emma, alex, Role, Asc) <= 0 && Compare(mike, emma, Role, Asc) > 0
    requires Compare(mike, alex, Role, Asc) <= 0 && Compare(sarah, emma, Role, Asc) <= 0
    requires Compare(john, sarah, Role, Asc) <= 0
    ensures SortUsers([john, sarah, mike, emma, alex], Role, Asc) == [john, sarah, emma, mike, alex]
  {
    SortStep(alex, [], Role, Asc);
    SortStep(emma, [alex], Role, Asc);
    InsertBefore(emma, alex, [], Role, Asc);
    SortStep(mike, [emma, alex], Role, Asc);
    InsertAfter(mike, emma, [alex], Role, Asc);
    InsertBefore(mike, alex, [], Role, Asc);
    assert SortUsers([mike, emma, alex], Role, Asc) == [emma, mike, alex];
    SortStep(sarah, [mike, emma, alex], Role, Asc);
    InsertBefore(sarah, emma, [mike, alex], Role, Asc);
    SortStep(john, [sarah, mike, emma, alex], Role, Asc);
    InsertBefore(john, sarah, [emma, mike, alex], Role, Asc);
  }

  lemma SortFiveByRoleDescending(john: User, sarah: User, mike: User, emma: User, alex: User)
    requires Compare(emma, alex, Role, Desc) > 0 && Compare(mike, alex, Role, Desc) <= 0
    requires Compare(sarah, mike, Role, Desc) > 0 && Compare(sarah, alex, Role, Desc) > 0
    requires Compare(sarah, emma, Role, Desc) <= 0
    requires Compare(john, mike, Role, Desc) > 0 && Compare(john, alex, Role, Desc) > 0
    requires Compare(john, sarah, Role, Desc) > 0 && Compare(john, emma, Role, Desc) > 0
    ensures SortUsers([john, sarah, mike, emma, alex], Role, Desc) == [mike, alex, sarah, emma, john]
  {
    SortStep(alex, [], Role, Desc);
    SortStep(emma, [alex], Role, Desc);
    InsertAfter(emma, alex, [], Role, Desc);
    assert SortUsers([emma, alex], Role, Desc) == [alex, emma];
    SortStep(mike, [emma, alex], Role, Desc);
    InsertBefore(mike, alex, [emma], Role, Desc);
    SortStep(sarah, [mike, emma, alex], Role, Desc);
    InsertAfter(sarah, mike, [alex, emma], Role, Desc);
    InsertAfter(sarah, alex, [emma], Role, Desc);
    InsertBefore(sarah, emma, [], Role, Desc);
    assert SortUsers([sarah, mike, emma, alex], Role, Desc) == [mike, alex, sarah, emma];
    SortStep(john, [sarah, mike, emma, alex], Role, Desc);
    InsertAfter(john, mike, [alex, sarah, emma], Role, Desc);
    InsertAfter(john, alex, [sarah, emma], Role, Desc);
    InsertAfter(john, sarah, [emma], Role, Desc);
    InsertAfter(john, emma, [], Role, Desc);
  }

  /** Sorting by role keeps Sarah Wilson ahead of Emma Davis (both editors) and
      Mike Johnson ahead of Alex Chen (both users) in either direction, so the
      descending table is not the ascending one reversed. */
  lemma RoleTiesKeepSeedOrder()
    ensures var u := Users();
      && FilteredAndSortedUsers(u, "", "all", Role, Asc) == [u[0], u[1], u[3], u[2], u[4]]
      && FilteredAndSortedUsers(u, "", "all", Role, Desc) == [u[2], u[4], u[1], u[3], u[0]]
      && FilteredAndSortedUsers(u, "", "all", Role, Desc) != [u[4], u[2], u[3], u[1], u[0]]
  {
    var u := Users();
    NothingFiltered(u);
    RoleComparisons();
    SortFiveByRoleAscending(u[0], u[1], u[2], u[3], u[4]);
    SortFiveByRoleDescending(u[0], u[1], u[2], u[3], u[4]);
    assert u == [u[0], u[1], u[2], u[3], u[4]];
    assert u[2] != u[4];
  }

  /** A search term that is already lower-case is rejected by a record whose
      name lacks one of its letters and whose e-mail lacks another (in either case). */
  lemma SearchRejects(u: User, term: string, inName: char, inEmail: char)
    requires Lower(term) == term
    requires IsLowerAscii(inName) && inName in term && inName !in u.name && UpperChar(inName) !in u.name
    requires IsLowerAscii(inEmail) && inEmail in term && inEmail !in u.email && UpperChar(inEmail) !in u.email
    ensures !MatchesSearch(u, term)
  {
    LowerLacks(u.name, inName);
    LowerLacks(u.email, inEmail);
    NotIncludesMissingChar(Lower(u.name), term, inName);
    NotIncludesMissingChar(Lower(u.email), term, inEmail);
  }

  /** Filtering five records keeps exactly those that pass, in order. */
  lemma FilterFive<T>(a: T, b: T, c: T, d: T, e: T, p: T -> bool)
    ensures Filter([a, b, c, d, e], p)
      == (if p(a) then [a] else []) + (if p(b) then [b] else []) + (if p(c) then [c] else [])
       + (if p(d) then [d] else []) + (if p(e) then [e] else [])
  {
    FilterOne(a, p);
    FilterOne(b, p);
    FilterOne(c, p);
    FilterOne(d, p);
    FilterOne(e, p);
    FilterAppend([a], [b], p);
    FilterAppend([a, b], [c], p);
    FilterAppend([a, b, c], [d], p);
    FilterAppend([a, b, c, d], [e], p);
    assert [a, b] == [a] + [b];
    assert [a, b, c] == [a, b] + [c];
    assert [a, b, c, d] == [a, b, c] + [d];
    assert [a, b, c, d, e] == [a, b, c, d] + [e];
  }

  lemma FilterOne<T>(x: T, p: T -> bool)
    ensures Filter([x], p) == if p(x) then [x] else []
  {
    assert [x][1..] == [];
  }

  lemma SarahFound()
    ensures MatchesSearch(Users()[1], "sarah")
  {
    assert Lower("sarah") == "sarah";
    assert Lower(Users()[1].name)[..5] == "sarah";
    assert OccursAt(Lower(Users()[1].name), "sarah", 0);
  }

  lemma JohnNotFound()
    ensures !MatchesSearch(Users()[0], "sarah")
  {
    assert Lower("sarah") == "sarah";
    SearchRejects(Users()[0], "sarah", 's', 's');
  }

  lemma MikeNotFound()
    ensures !MatchesSearch(Users()[2], "sarah")
  {
    assert Lower("sarah") == "sarah";
    SearchRejects(Users()[2], "sarah", 'r', 's');
  }

  lemma EmmaNotFound()
    ensures !MatchesSearch(Users()[3], "sarah")
  {
    assert Lower("sarah") == "sarah";
    SearchRejects(Users()[3], "sarah", 'r', 's');
  }

  lemma AlexNotFound()
    ensures !MatchesSearch(Users()[4], "sarah")
  {
    assert Lower("sarah") == "sarah";
    SearchRejects(Users()[4], "sarah", 's', 's');
  }

  /** Searching "sarah" leaves exactly Sarah Wilson. */
  lemma SearchSarah()
    ensures FilteredAndSortedUsers(Users(), "sarah", "all", Name, Asc) == [Users()[1]]
  {
    var u := Users();
    SarahFound();
    JohnNotFound();
    MikeNotFound();
    EmmaNotFound();
    AlexNotFound();
    FilterFive(u[0], u[1], u[2], u[3], u[4], SearchFilter("sarah"));
    assert u == [u[0], u[1], u[2], u[3], u[4]];
    FilterKeepsAll([u[1]], RoleFilter("all"));
    SortStep(u[1], [], Name, Asc);
  }

  lemma RolesLowered()
    ensures var u := Users();
      && Lower(u[0].role) == "admin" && Lower(u[1].role) == "editor" && Lower(u[2].role) == "user"
      && Lower(u[3].role) == "editor" && Lower(u[4].role) == "user"
  {
  }

  lemma EditorMatches()
    ensures var u := Users(); var p := RoleFilter("editor");
      !p(u[0]) && p(u[1]) && !p(u[2]) && p(u[3]) && !p(u[4])
  {
    RolesLowered();
  }

  /** Of five records, the filter keeps exactly the second and the fourth. */
  lemma FilterSecondAndFourth<T>(a: T, b: T, c: T, d: T, e: T, p: T -> bool)
    requires !p(a) && p(b) && !p(c) && p(d) && !p(e)
    ensures Filter([a, b, c, d, e], p) == [b, d]
  {
    FilterFive(a, b, c, d, e, p);
  }

  lemma EditorsSurvive()
    ensures var u := Users(); Survivors(u, "", "editor") == [u[1], u[3]]
  {
    var u := Users();
    EditorMatches();
    EmptySearchKeepsAll(u);
    assert u == [u[0], u[1], u[2], u[3], u[4]];
    FilterSecondAndFourth(u[0], u[1], u[2], u[3], u[4], RoleFilter("editor"));
  }

  /** Filtering on "editor" leaves the two editors, Emma Davis before Sarah Wilson. */
  lemma EditorsOnly()
    ensures var u := Users(); FilteredAndSortedUsers(u, "", "editor", Name, Asc) == [u[3], u[1]]
  {
    var u := Users();
    EditorsSurvive();
    NameComparisons();
    SortStep(u[3], [], Name, Asc);
    SortStep(u[1], [u[3]], Name, Asc);
    InsertAfter(u[1], u[3], [], Name, Asc);
  }

  // ---------------------------------------------------------------------------
  // The join-date column

  /** Join dates written as ISO keys sort by date: under asc a record may
      stand before another exactly when it did not join later, under desc
      exactly when it did not join earlier. */
  lemma JoinDateOrderIsChronological(u: User, v: User, a: Calendar.Date, b: Calendar.Date)
    requires Calendar.FourDigitDay(a) && Calendar.FourDigitDay(b)
    requires u.joinDate == Calendar.DateKey(a.year, a.month, a.day)
    requires v.joinDate == Calendar.DateKey(b.year, b.month, b.day)
    ensures InOrder(u, v, JoinDate, Asc) <==> !Calendar.Earlier(b, a)
    ensures InOrder(u, v, JoinDate, Desc) <==> !Calendar.Earlier(a, b)
  {
    Calendar.DateKeyOrder(a, b);
    Calendar.DateKeyOrder(b, a);
  }

  lemma JoinKeyFields()
    ensures TwoDigits(1) == "01" && TwoDigits(2) == "02" && TwoDigits(3) == "03"
    ensures TwoDigits(4) == "04" && TwoDigits(5) == "05" && TwoDigits(10) == "10"
    ensures TwoDigits(12) == "12" && TwoDigits(15) == "15" && TwoDigits(20) == "20"
  {
  }

  /** The seed join dates are the keys of days in January to May 2024. */
  lemma SeedJoinDates()
    ensures var u := Users();
      && u[0].joinDate == Calendar.DateKey(2024, 0, 15) && u[1].joinDate == Calendar.DateKey(2024, 1, 20)
      && u[2].joinDate == Calendar.DateKey(2024, 2, 10) && u[3].joinDate == Calendar.DateKey(2024, 3, 5)
      && u[4].joinDate == Calendar.DateKey(2024, 4, 12)
  {
    Calendar.YearField();
    JoinKeyFields();
  }
}
