/** The Kanban board: four fixed columns of task cards (the board state is
    seeded once and never replaced), the badge counting the cards of each column
    header, and the assignee avatar of a card, which shows the person's
    initials and first name. */
module KanbanBoard {
  import opened Prelude
  import opened Text

  datatype Priority = Low | Medium | High

  datatype Task = Task(
    id: int, title: string, description: string, assignee: string,
    dueDate: string, priority: Priority, tags: seq<string>)

  datatype Column = Column(id: string, title: string, tasks: seq<Task>, color: string)

  /** The board's columns, left to right, with their seed tasks. */
  function Columns(): seq<Column>
  {
    [ Column("todo", "To Do", [
        Task(1, "Design System Updates", "Update the design system components with new brand guidelines",
             "Sarah Johnson", "2024-06-20", High, ["Design", "UI/UX"]),
        Task(2, "API Documentation", "Complete API documentation for v2.0 release",
             "Mike Chen", "2024-06-25", Medium, ["Documentation", "API"])
      ], "bg-gray-100"),
      Column("in-progress", "In Progress", [
        Task(3, "User Authentication", "Implement OAuth 2.0 authentication system",
             "Alex Rodriguez", "2024-06-18", High, ["Backend", "Security"]),
        Task(4, "Mobile Responsive", "Make the dashboard mobile responsive",
             "Emma Davis", "2024-06-22", Medium, ["Frontend", "Mobile"])
      ], "bg-blue-100"),
      Column("review", "In Review", [
        Task(5, "Performance Optimization", "Optimize application performance and loading times",
             "David Wilson", "2024-06-15", Medium, ["Performance", "Optimization"])
      ], "bg-yellow-100"),
      Column("done", "Done", [
        Task(6, "Dashboard Layout", "Complete the main dashboard layout design",
             "Lisa Brown", "2024-06-10", High, ["Design", "Dashboard"]),
        Task(7, "User Testing", "Conduct user testing sessions for new features",
             "Tom Wilson", "2024-06-12", Low, ["Testing", "UX"])
      ], "bg-green-100") ]
  }

  // ---------------------------------------------------------------------------
  // Column headers

  /** The badge beside a column title: its number of tasks, as text. */
  function Badge(column: Column): (r: string)
    ensures forall i :: 0 <= i < |r| ==> IsDigit(r[i])
    ensures |r| > 1 ==> r[0] != '0'
    ensures ParseNat(r) == |column.tasks|
  {
    ParseNatToString(|column.tasks|);
    NatToString(|column.tasks|)
  }

  function ColumnIds(columns: seq<Column>): seq<string>
  {
    if columns == [] then [] else [columns[0].id] + ColumnIds(columns[1..])
  }

  function TaskCounts(columns: seq<Column>): seq<nat>
  {
    if columns == [] then [] else [|columns[0].tasks|] + TaskCounts(columns[1..])
  }

  function TaskIds(tasks: seq<Task>): seq<int>
  {
    if tasks == [] then [] else [tasks[0].id] + TaskIds(tasks[1..])
  }

  /** The ids of all tasks on the board, column by column. */
  function BoardTaskIds(columns: seq<Column>): seq<int>
  {
    if columns == [] then [] else TaskIds(columns[0].tasks) + BoardTaskIds(columns[1..])
  }

  /** The seed board: columns todo, in-progress, review, done holding 2, 2, 1
      and 2 cards, with card ids 1 to 7 in that order. */
  lemma SeedBoard()
    ensures ColumnIds(Columns()) == ["todo", "in-progress", "review", "done"]
    ensures TaskCounts(Columns()) == [2, 2, 1, 2]
    ensures BoardTaskIds(Columns()) == [1, 2, 3, 4, 5, 6, 7]
  {
  }

  /** Each task id of the seed occurs in exactly one column. */
  lemma TaskInExactlyOneColumn(id: int)
    requires 1 <= id <= 7
    ensures exists c :: 0 <= c < |Columns()| && id in TaskIds(Columns()[c].tasks)
    ensures forall c, c' ::
      0 <= c < |Columns()| && 0 <= c' < |Columns()|
      && id in TaskIds(Columns()[c].tasks) && id in TaskIds(Columns()[c'].tasks)
      ==> c == c'
  {
    var cols := Columns();
    assert TaskIds(cols[0].tasks) == [1, 2];
    assert TaskIds(cols[1].tasks) == [3, 4];
    assert TaskIds(cols[2].tasks) == [5];
    assert TaskIds(cols[3].tasks) == [6, 7];
    var c := if id <= 2 then 0 else if id <= 4 then 1 else if id == 5 then 2 else 3;
    assert id in TaskIds(cols[c].tasks);
  }

  /** The header badges of the seed board read 2, 2, 1 and 2. */
  lemma SeedBadges()
    ensures Badge(Columns()[0]) == "2" && Badge(Columns()[1]) == "2"
    ensures Badge(Columns()[2]) == "1" && Badge(Columns()[3]) == "2"
  {
  }

  // ---------------------------------------------------------------------------
  // The assignee avatar

  /** The first character of each piece; an empty piece has none and adds
      nothing to the joined result. */
  function Heads(pieces: seq<string>): (r: string)
    ensures |r| <= |pieces|
  {
    if pieces == [] then ""
    else (if pieces[0] == "" then "" else [pieces[0][0]]) + Heads(pieces[1..])
  }

  function NonEmpty(): string -> bool
  {
    (s: string) => s != ""
  }

  /** The words of a name: its non-empty space-separated pieces. */
  function Words(name: string): (r: seq<string>)
    ensures forall k :: 0 <= k < |r| ==> r[k] != ""
  {
    var r := Filter(Split(name, ' '), NonEmpty());
    assert forall k :: 0 <= k < |r| ==> r[k] in r;
    r
  }

  /** getInitials: split on spaces, first character of each piece, joined and
      upper-cased. */
  function GetInitials(name: string): (r: string)
    ensures forall i :: 0 <= i < |r| ==> !IsLowerAscii(r[i])
  {
    Upper(Heads(Split(name, ' ')))
  }

  /** The heads of the pieces are exactly the first characters of the
      non-empty pieces, in order. */
  lemma {:induction false} HeadsAreFirstLetters(pieces: seq<string>)
    ensures var w := Filter(pieces, NonEmpty());
      && |Heads(pieces)| == |w|
      && forall k :: 0 <= k < |w| ==> w[k] != "" && Heads(pieces)[k] == w[k][0]
  {
    if pieces != [] {
      HeadsAreFirstLetters(pieces[1..]);
    }
  }

  /** The initials hold one upper-cased letter per word of the name, in order. */
  lemma InitialsOfWords(name: string)
    ensures var w := Words(name);
      && |GetInitials(name)| == |w|
      && forall k :: 0 <= k < |w| ==> GetInitials(name)[k] == UpperChar(w[k][0])
  {
    HeadsAreFirstLetters(Split(name, ' '));
  }

  /** No initial is a space. */
  lemma InitialsHaveNoSpace(name: string)
    ensures ' ' !in GetInitials(name)
  {
    InitialsOfWords(name);
    SplitPiecesHaveNoSeparator(name, ' ');
    var w := Words(name);
    forall k | 0 <= k < |w| ensures GetInitials(name)[k] != ' ' {
      assert w[k] in Split(name, ' ');
    }
  }

  /** The first name shown beside the avatar: the first space-separated piece. */
  function ShortName(assignee: string): (r: string)
    ensures r <= assignee && ' ' !in r
    ensures |r| == |assignee| || assignee[|r|] == ' '
  {
    SplitFirstPiece(assignee, ' ');
    Split(assignee, ' ')[0]
  }

  /** The first piece of a split is the longest prefix without the separator. */
  lemma {:induction false} SplitFirstPiece(s: string, sep: char)
    ensures var p := Split(s, sep)[0];
      p <= s && sep !in p && (|p| == |s| || s[|p|] == sep)
    decreases |s|
  {
    if s != [] && s[0] != sep {
      SplitFirstPiece(s[1..], sep);
    }
  }

  /** A name of two words has the two upper-cased first letters as initials
      and the first word as its short name. */
  lemma TwoWordName(first: string, last: string)
    requires first != "" && last != "" && ' ' !in first && ' ' !in last
    ensures GetInitials(first + " " + last) == Upper([first[0], last[0]])
    ensures ShortName(first + " " + last) == first
  {
    SplitAtSeparator(first, last, ' ');
    SplitNoSeparator(last, ' ');
    assert first + " " + last == first + [' '] + last;
    assert Heads([last]) == [last[0]] + Heads([]);
    assert Heads([first, last]) == [first[0]] + Heads([last]);
  }

  /** The first seed card's avatar reads "SJ" beside the name "Sarah". */
  lemma SeedAvatar()
    ensures GetInitials("Sarah Johnson") == "SJ"
    ensures ShortName("Sarah Johnson") == "Sarah"
  {
    TwoWordName("Sarah", "Johnson");
    assert "Sarah" + " " + "Johnson" == "Sarah Johnson";
  }

  /** A double space makes an empty piece, which adds no initial. */
  lemma DoubleSpaceAddsNothing()
    ensures GetInitials("ann  lee") == "AL"
  {
    SplitAtSeparator("ann", " lee", ' ');
    SplitAtSeparator("", "lee", ' ');
    SplitNoSeparator("lee", ' ');
    assert "ann  lee" == "ann" + [' '] + " lee";
    assert " lee" == "" + [' '] + "lee";
  }
}
