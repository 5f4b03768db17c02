/** The user table: a case-insensitive search over name or e-mail, an exact
    role filter, and a stable sort on one of three columns in either
    direction, all recomputed from the fixed seed list on every render; plus
    the two-cell state machine behind the sortable column headers. */
module DataTable {
  import opened Prelude
  import opened Text

  datatype Status = Active | Inactive

  datatype User = User(
    id: int,
    name: string,
    email: string,
    role: string,
    status: Status,
    joinDate: string,
    avatar: string)

  /** The three columns whose headers sort the table. */
  datatype SortKey = Name | Role | JoinDate

  datatype SortOrder = Asc | Desc

  /** The seed list, in declaration order. */
  function Users(): seq<User>
  {
    [ User(1, "John Doe", "john@example.com", "Admin", Active, "2024-01-15", "JD"),
      User(2, "Sarah Wilson", "sarah@example.com", "Editor", Active, "2024-02-20", "SW"),
      User(3, "Mike Johnson", "mike@example.com", "User", Inactive, "2024-03-10", "MJ"),
      User(4, "Emma Davis", "emma@example.com", "Editor", Active, "2024-04-05", "ED"),
      User(5, "Alex Chen", "alex@example.com", "User", Active, "2024-05-12", "AC") ]
  }

  /** `user[sortBy]`: the string a column sorts on. */
  function Field(u: User, key: SortKey): string
  {
    match key
    case Name => u.name
    case Role => u.role
    case JoinDate => u.joinDate
  }

  // ---------------------------------------------------------------------------
  // The two filters

  /** The search box: the lowered term occurs in the lowered name or e-mail. */
  predicate MatchesSearch(u: User, searchTerm: string)
    ensures searchTerm == "" ==> MatchesSearch(u, searchTerm)
  {
    IncludesEmpty(Lower(u.name));
    Includes(Lower(u.name), Lower(searchTerm)) || Includes(Lower(u.email), Lower(searchTerm))
  }

  /** The role select: "all", or the lowered role equals the selected value as given. */
  predicate MatchesRole(u: User, filterRole: string)
    ensures filterRole == "all" ==> MatchesRole(u, filterRole)
  {
    filterRole == "all" || Lower(u.role) == filterRole
  }

  function SearchFilter(searchTerm: string): User -> bool
  {
    u => MatchesSearch(u, searchTerm)
  }

  function RoleFilter(filterRole: string): User -> bool
  {
    u => MatchesRole(u, filterRole)
  }

  /** The records that reach the sort: both filters applied to the seed, in seed order. */
  function Survivors(users: seq<User>, searchTerm: string, filterRole: string): seq<User>
  {
    Filter(Filter(users, SearchFilter(searchTerm)), RoleFilter(filterRole))
  }

  // ---------------------------------------------------------------------------
  // The comparator and the stable sort

  /** `a` may stand before `b`: under asc the key of `a` is not greater than the
      key of `b`, under desc it is not smaller. */
  predicate InOrder(a: User, b: User, sortBy: SortKey, sortOrder: SortOrder)
  {
    match sortOrder
    case Asc => !Less(Field(b, sortBy), Field(a, sortBy))
    case Desc => !Less(Field(a, sortBy), Field(b, sortBy))
  }

  /** The comparator passed to Array.prototype.sort: -1, 1 or 0 by string `<`
      and `>` on the sort field, with the two outer cases swapped for desc. */
  function Compare(a: User, b: User, sortBy: SortKey, sortOrder: SortOrder): (r: int)
    ensures -1 <= r <= 1
    ensures r == 0 <==> Field(a, sortBy) == Field(b, sortBy)
    ensures r <= 0 <==> InOrder(a, b, sortBy, sortOrder)
    ensures r >= 0 <==> InOrder(b, a, sortBy, sortOrder)
  {
    var x, y := Field(a, sortBy), Field(b, sortBy);
    LessTrichotomy(x, y);
    match sortOrder
    case Asc => if Less(x, y) then -1 else if Less(y, x) then 1 else 0
    case Desc => if Less(y, x) then -1 else if Less(x, y) then 1 else 0
  }

  /** Inserts `x` before the first element that does not sort strictly before
      it, so that `x` stays ahead of every element with an equal key. */
  function Insert(x: User, s: seq<User>, sortBy: SortKey, sortOrder: SortOrder): (r: seq<User>)
    ensures |r| == |s| + 1
  {
    if s == [] || Compare(x, s[0], sortBy, sortOrder) <= 0 then [x] + s
    else [s[0]] + Insert(x, s[1..], sortBy, sortOrder)
  }

  /** The stable sort of Array.prototype.sort with the comparator above. */
  function SortUsers(s: seq<User>, sortBy: SortKey, sortOrder: SortOrder): (r: seq<User>)
    ensures |r| == |s|
  {
    if s == [] then [] else Insert(s[0], SortUsers(s[1..], sortBy, sortOrder), sortBy, sortOrder)
  }

  /** `filteredAndSortedUsers`: filter by search, filter by role, sort the copy. */
  function FilteredAndSortedUsers(users: seq<User>, searchTerm: string, filterRole: string,
                                  sortBy: SortKey, sortOrder: SortOrder): (r: seq<User>)
    ensures |r| <= |users|
  {
    SortUsers(Survivors(users, searchTerm, filterRole), sortBy, sortOrder)
  }

  /** Under asc the keys never decrease along the sequence, under desc they never increase. */
  ghost predicate Ordered(s: seq<User>, sortBy: SortKey, sortOrder: SortOrder)
  {
    forall i, j :: 0 <= i < j < |s| ==> InOrder(s[i], s[j], sortBy, sortOrder)
  }

  /** The records whose sort field equals `k`. */
  function WithKey(sortBy: SortKey, k: string): User -> bool
  {
    u => Field(u, sortBy) == k
  }

  // ---------------------------------------------------------------------------
  // Properties of the comparator

  lemma InOrderTotal(a: User, b: User, sortBy: SortKey, sortOrder: SortOrder)
    ensures InOrder(a, b, sortBy, sortOrder) || InOrder(b, a, sortBy, sortOrder)
  {
    LessTrichotomy(Field(a, sortBy), Field(b, sortBy));
  }

  lemma InOrderTransitive(a: User, b: User, c: User, sortBy: SortKey, sortOrder: SortOrder)
    requires InOrder(a, b, sortBy, sortOrder) && InOrder(b, c, sortBy, sortOrder)
    ensures InOrder(a, c, sortBy, sortOrder)
  {
    var x, y, z := Field(a, sortBy), Field(b, sortBy), Field(c, sortBy);
    LessTrichotomy(x, y);
    LessTrichotomy(y, z);
    LessTrichotomy(x, z);
    if Less(x, y) && Less(y, z) { LessTransitive(x, y, z); }
    if Less(z, y) && Less(y, x) { LessTransitive(z, y, x); }
  }

  // ---------------------------------------------------------------------------
  // Insertion

  lemma {:induction false} InsertPermutes(x: User, s: seq<User>, sortBy: SortKey, sortOrder: SortOrder)
    ensures multiset(Insert(x, s, sortBy, sortOrder)) == multiset(s) + multiset{x}
  {
    if s != [] && Compare(x, s[0], sortBy, sortOrder) > 0 {
      InsertPermutes(x, s[1..], sortBy, sortOrder);
      assert s == [s[0]] + s[1..];
    }
  }

  lemma {:induction false} InsertOrdered(x: User, s: seq<User>, sortBy: SortKey, sortOrder: SortOrder)
    requires Ordered(s, sortBy, sortOrder)
    ensures Ordered(Insert(x, s, sortBy, sortOrder), sortBy, sortOrder)
  {
    var r := Insert(x, s, sortBy, sortOrder);
    if s == [] {
    } else if Compare(x, s[0], sortBy, sortOrder) <= 0 {
      forall j | 1 <= j < |r| ensures InOrder(r[0], r[j], sortBy, sortOrder) {
        if j > 1 { InOrderTransitive(x, s[0], s[j - 1], sortBy, sortOrder); }
      }
    } else {
      var t := Insert(x, s[1..], sortBy, sortOrder);
      InsertOrdered(x, s[1..], sortBy, sortOrder);
      InsertPermutes(x, s[1..], sortBy, sortOrder);
      assert r == [s[0]] + t;
      forall j | 0 <= j < |t| ensures InOrder(s[0], t[j], sortBy, sortOrder) {
        assert t[j] in multiset(t);
        if t[j] != x {
          assert t[j] in s[1..];
        }
      }
    }
  }

  /** Insertion keeps `x` ahead of every element with its key: the records of
      any one key appear in the order they had with `x` in front. */
  lemma {:induction false} InsertStable(x: User, s: seq<User>, sortBy: SortKey, sortOrder: SortOrder, k: string)
    ensures Filter(Insert(x, s, sortBy, sortOrder), WithKey(sortBy, k)) == Filter([x] + s, WithKey(sortBy, k))
  {
    var p := WithKey(sortBy, k);
    if s != [] && Compare(x, s[0], sortBy, sortOrder) > 0 {
      InsertStable(x, s[1..], sortBy, sortOrder, k);
      FilterAppend([s[0]], Insert(x, s[1..], sortBy, sortOrder), p);
      FilterAppend([x], s[1..], p);
      FilterAppend([x], s, p);
      FilterAppend([s[0]], s[1..], p);
      assert s == [s[0]] + s[1..];
    }
  }

  // ---------------------------------------------------------------------------
  // The sort

  lemma {:induction false} SortPermutes(s: seq<User>, sortBy: SortKey, sortOrder: SortOrder)
    ensures multiset(SortUsers(s, sortBy, sortOrder)) == multiset(s)
  {
    if s != [] {
      SortPermutes(s[1..], sortBy, sortOrder);
      InsertPermutes(s[0], SortUsers(s[1..], sortBy, sortOrder), sortBy, sortOrder);
      assert s == [s[0]] + s[1..];
    }
  }

  lemma {:induction false} SortOrdered(s: seq<User>, sortBy: SortKey, sortOrder: SortOrder)
    ensures Ordered(SortUsers(s, sortBy, sortOrder), sortBy, sortOrder)
  {
    if s != [] {
      SortOrdered(s[1..], sortBy, sortOrder);
      InsertOrdered(s[0], SortUsers(s[1..], sortBy, sortOrder), sortBy, sortOrder);
    }
  }

  /** Stability: for every key, the records with that key appear in the output
      in exactly the order they have in the input. */
  lemma {:induction false} SortStable(s: seq<User>, sortBy: SortKey, sortOrder: SortOrder, k: string)
    ensures Filter(SortUsers(s, sortBy, sortOrder), WithKey(sortBy, k)) == Filter(s, WithKey(sortBy, k))
  {
    if s != [] {
      var p := WithKey(sortBy, k);
      SortStable(s[1..], sortBy, sortOrder, k);
      InsertStable(s[0], SortUsers(s[1..], sortBy, sortOrder), sortBy, sortOrder, k);
      FilterAppend([s[0]], SortUsers(s[1..], sortBy, sortOrder), p);
      FilterAppend([s[0]], s[1..], p);
      assert s == [s[0]] + s[1..];
    }
  }

  // ---------------------------------------------------------------------------
  // The whole chain

  /** What the table shows: exactly the seed records that pass both filters
      (each as often as in the seed, none altered), ordered by the sort field
      in the chosen direction, with ties in seed order; never more rows than
      the seed has. */
  lemma FilteredAndSortedSpec(users: seq<User>, searchTerm: string, filterRole: string,
                              sortBy: SortKey, sortOrder: SortOrder)
    ensures var r := FilteredAndSortedUsers(users, searchTerm, filterRole, sortBy, sortOrder);
      && |r| <= |users|
      && (forall u :: u in r ==> MatchesSearch(u, searchTerm) && MatchesRole(u, filterRole))
      && (forall u :: multiset(r)[u] ==
            if MatchesSearch(u, searchTerm) && MatchesRole(u, filterRole) then multiset(users)[u] else 0)
      && Ordered(r, sortBy, sortOrder)
      && (forall k :: Filter(r, WithKey(sortBy, k)) ==
            Filter(Survivors(users, searchTerm, filterRole), WithKey(sortBy, k)))
  {
    var mid := Filter(users, SearchFilter(searchTerm));
    var sv := Survivors(users, searchTerm, filterRole);
    var r := SortUsers(sv, sortBy, sortOrder);
    SortPermutes(sv, sortBy, sortOrder);
    SortOrdered(sv, sortBy, sortOrder);
    forall k ensures Filter(r, WithKey(sortBy, k)) == Filter(sv, WithKey(sortBy, k)) {
      SortStable(sv, sortBy, sortOrder, k);
    }
    forall u ensures multiset(r)[u] ==
      if MatchesSearch(u, searchTerm) && MatchesRole(u, filterRole) then multiset(users)[u] else 0
    {
      FilterCount(users, SearchFilter(searchTerm), u);
      FilterCount(mid, RoleFilter(filterRole), u);
    }
    forall u | u in r ensures MatchesSearch(u, searchTerm) && MatchesRole(u, filterRole) {
      assert u in multiset(r);
    }
    assert |r| == |multiset(r)| == |sv|;
  }

  /** An empty search and role "all" keep every seed record, in whatever order is chosen. */
  lemma NoFilterKeepsAll(users: seq<User>, sortBy: SortKey, sortOrder: SortOrder)
    ensures multiset(FilteredAndSortedUsers(users, "", "all", sortBy, sortOrder)) == multiset(users)
  {
    forall u | u in users ensures MatchesSearch(u, "") {
      IncludesEmpty(Lower(u.name));
    }
    FilterKeepsAll(users, SearchFilter(""));
    FilterKeepsAll(users, RoleFilter("all"));
    SortPermutes(users, sortBy, sortOrder);
  }

  // ---------------------------------------------------------------------------
  // The sort-state machine behind the column headers

  datatype SortState = SortState(sortBy: SortKey, sortOrder: SortOrder)

  function Flip(o: SortOrder): (r: SortOrder)
    ensures r != o
  {
    match o
    case Asc => Desc
    case Desc => Asc
  }

  /** `handleSort(column)`: the same column flips the direction; another column
      becomes the sort column, ascending. */
  function NextSort(s: SortState, column: SortKey): (r: SortState)
    ensures r.sortBy == column
    ensures column == s.sortBy ==> r.sortOrder != s.sortOrder
    ensures column != s.sortBy ==> r.sortOrder == Asc
  {
    if s.sortBy == column then SortState(s.sortBy, Flip(s.sortOrder))
    else SortState(column, Asc)
  }

  /** Two clicks on the current sort column restore the state; two clicks on
      another column leave it sorting that column descending. */
  lemma NextSortTwice(s: SortState, column: SortKey)
    ensures NextSort(NextSort(s, column), column) ==
      if column == s.sortBy then s else SortState(column, Desc)
  {
  }

  /** The table component's four state cells. */
  class DataTableView {
    var searchTerm: string
    var filterRole: string
    var sortBy: SortKey
    var sortOrder: SortOrder

    /** Initial state: no search, all roles, by name, ascending. */
    constructor ()
      ensures searchTerm == "" && filterRole == "all" && sortBy == Name && sortOrder == Asc
    {
      searchTerm, filterRole, sortBy, sortOrder := "", "all", Name, Asc;
    }

    /** The rows rendered for the current state. */
    function Rows(): seq<User>
      reads this
    {
      FilteredAndSortedUsers(Users(), searchTerm, filterRole, sortBy, sortOrder)
    }

    method SetSearchTerm(term: string)
      modifies this
      ensures searchTerm == term
      ensures filterRole == old(filterRole) && sortBy == old(sortBy) && sortOrder == old(sortOrder)
    {
      searchTerm := term;
    }

    method SetFilterRole(role: string)
      modifies this
      ensures filterRole == role
      ensures searchTerm == old(searchTerm) && sortBy == old(sortBy) && sortOrder == old(sortOrder)
    {
      filterRole := role;
    }

    /** The click handler of a sortable header. */
    method HandleSort(column: SortKey)
      modifies this
      ensures SortState(sortBy, sortOrder) == NextSort(SortState(old(sortBy), old(sortOrder)), column)
      ensures searchTerm == old(searchTerm) && filterRole == old(filterRole)
    {
      if sortBy == column {
        sortOrder := if sortOrder == Asc then Desc else Asc;
      } else {
        sortBy := column;
        sortOrder := Asc;
      }
    }

    /** The footer "Showing X of Y users". */
    method ShowingCounts() returns (shown: nat, total: nat)
      ensures shown == |Rows()| && total == |Users()| == 5
      ensures shown <= total
    {
      FilteredAndSortedSpec(Users(), searchTerm, filterRole, sortBy, sortOrder);
      shown := |Rows()|;
      total := |Users()|;
    }
  }
}
