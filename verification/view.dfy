/**
 * The decisions of the screen rendering (view_components.go). Styles are the
 * identity: a cell records which style it would get, not the escape codes, and
 * the layout (widths, borders, joins) is not modelled.
 */
module TodoView {
  import opened TodoTypes
  import opened TodoList
  import opened Text
  import opened TodoApp

  // ---------------------------------------------------------------------------
  // Header

  /** The number of finished tasks, which the header shows as "done/total". */
  function CountDone(s: seq<TodoItem>): (n: nat)
    ensures n <= |s|
    decreases |s|
  {
    if |s| == 0 then 0
    else CountDone(s[..|s| - 1]) + (if s[|s| - 1].done then 1 else 0)
  }

  /** The header count reaches the total exactly when every task is done, and is zero exactly when none is. */
  lemma {:induction false} CountDoneExtremes(s: seq<TodoItem>)
    ensures CountDone(s) == |s| <==> forall i :: 0 <= i < |s| ==> s[i].done
    ensures CountDone(s) == 0 <==> forall i :: 0 <= i < |s| ==> !s[i].done
    decreases |s|
  {
    if |s| > 0 {
      var init := s[..|s| - 1];
      CountDoneExtremes(init);
      assert forall i :: 0 <= i < |init| ==> init[i] == s[i];
    }
  }

  lemma CountDoneSnoc(s: seq<TodoItem>, y: TodoItem)
    ensures CountDone(s + [y]) == CountDone(s) + (if y.done then 1 else 0)
  {
    assert (s + [y])[..|s + [y]| - 1] == s;
  }

  lemma {:induction false} InsertKeepsDoneCount(s: seq<TodoItem>, x: TodoItem)
    ensures CountDone(Insert(s, x)) == CountDone(s) + (if x.done then 1 else 0)
    decreases |s|
  {
    if |s| == 0 {
      CountDoneSnoc([], x);
      assert [] + [x] == [x];
    } else if Less(x, s[|s| - 1]) {
      var init, last := s[..|s| - 1], s[|s| - 1];
      var r := Insert(init, x);
      assert Insert(s, x) == r + [last];
      assert s == init + [last];
      InsertKeepsDoneCount(init, x);
      CountDoneSnoc(r, last);
      CountDoneSnoc(init, last);
    } else {
      CountDoneSnoc(s, x);
    }
  }

  /** A save re-sorts the list but leaves the header's count as it was. */
  lemma {:induction false} SortKeepsDoneCount(s: seq<TodoItem>)
    ensures CountDone(SortTodos(s)) == CountDone(s)
    decreases |s|
  {
    if |s| > 0 {
      var init, last := s[..|s| - 1], s[|s| - 1];
      SortKeepsDoneCount(init);
      InsertKeepsDoneCount(SortTodos(init), last);
    }
  }

  /** `renderHeader`'s counting loop. */
  method CountDoneLoop(items: seq<TodoItem>) returns (doneCount: nat)
    ensures doneCount == CountDone(items)
  {
    doneCount := 0;
    var i := 0;
    while i < |items|
      invariant 0 <= i <= |items|
      invariant doneCount == CountDone(items[..i])
    {
      assert items[..i + 1][..i] == items[..i];
      if items[i].done {
        doneCount := doneCount + 1;
      }
      i := i + 1;
    }
    assert items[..|items|] == items;
  }

  // ---------------------------------------------------------------------------
  // Table rows

  /**
   * One table row. `status` is the status cell's text; the selected row also
   * gets the highlighted background on every cell. `priority` is empty for a
   * priority outside the three named ones. `title` is the bytes the title
   * cell prints. `struck` is the done style of the title, `overdue` the
   * overdue style of the deadline.
   */
  datatype Row = Row(
    selected: bool,
    status: string,
    priority: string,
    title: seq<Byte>,
    struck: bool,
    deadline: DeadlineText,
    overdue: bool)

  /** `renderTableRow`, with the clock reading `now`. */
  function RenderRow(item: TodoItem, selectedID: string, now: Instant): Row
  {
    var selected := item.id == selectedID;
    var mark := if item.done then "✓" else "○";
    Row(
      selected,
      (if selected then "▶ " else "") + mark,
      if IsNamedPriority(item.priority) then PriorityString(item.priority) else "",
      TruncateTitleBytes(Utf8(item.title)),
      item.done,
      DeadlineString(item),
      item.hasDeadline && IsOverdue(item, now))
  }

  /**
   * What each cell of a row shows: the marker and highlight exactly on the
   * selected task, the priority label only for a named priority, the deadline
   * only when one is set, and the overdue style exactly on an unfinished task
   * whose deadline has passed.
   */
  lemma RowCells(item: TodoItem, selectedID: string, now: Instant)
    ensures var r := RenderRow(item, selectedID, now);
      && (r.selected <==> item.id == selectedID)
      && r.status == (if r.selected then "▶ " else "") + (if item.done then "✓" else "○")
      && (IsNamedPriority(item.priority) ==> r.priority == PriorityString(item.priority) && |r.priority| == 2)
      && (!IsNamedPriority(item.priority) ==> r.priority == "")
      && r.struck == item.done
      && (r.deadline == Dash <==> !item.hasDeadline)
      && (r.deadline.Formatted? ==> r.deadline.at == item.deadline)
      && (r.overdue <==> IsOverdue(item, now))
      && (r.overdue ==> item.hasDeadline && item.deadline < now && !item.done)
  {
  }

  /**
   * The title cell is the title's bytes cut as written: a title of at most
   * 38 bytes is shown whole; a longer one as its first 35 bytes and "...",
   * 38 bytes in all, which may end inside a character. On an ASCII title the
   * cut falls between characters.
   */
  lemma RowTitleFits(item: TodoItem, selectedID: string, now: Instant)
    ensures var cell, b := RenderRow(item, selectedID, now).title, Utf8(item.title);
      && |cell| <= TitleColWidth - 2
      && (|b| <= TitleColWidth - 2 ==> cell == b)
      && (|b| > TitleColWidth - 2 ==>
            |cell| == TitleColWidth - 2 && cell == b[..TitleColWidth - 5] + Utf8("..."))
    ensures (forall k :: 0 <= k < |item.title| ==> item.title[k] as int < 0x80) ==>
      RenderRow(item, selectedID, now).title == Utf8(TruncateTitle(item.title))
  {
    var cell, b := RenderRow(item, selectedID, now).title, Utf8(item.title);
    if |b| > TitleColWidth - 2 {
      assert cell == cell[..TitleColWidth - 5] + cell[TitleColWidth - 5..];
    }
    if forall k :: 0 <= k < |item.title| ==> item.title[k] as int < 0x80 {
      CutsAgreeOnAscii(item.title);
    }
  }

  /** The rows of `renderTodoTable`, one per task in list order. */
  function Rows(items: seq<TodoItem>, selectedID: string, now: Instant): seq<Row>
  {
    seq(|items|, i requires 0 <= i < |items| => RenderRow(items[i], selectedID, now))
  }

  /** With distinct ids at most one row is highlighted, and exactly one when the selected id is in the list. */
  lemma AtMostOneSelectedRow(items: seq<TodoItem>, selectedID: string, now: Instant)
    requires UniqueIds(items)
    ensures var rs := Rows(items, selectedID, now);
      && |rs| == |items|
      && (forall i, j :: 0 <= i < |rs| && 0 <= j < |rs| && rs[i].selected && rs[j].selected ==> i == j)
      && ((exists i :: 0 <= i < |rs| && rs[i].selected) <==> selectedID in IdSet(items))
  {
    var rs := Rows(items, selectedID, now);
    forall i, j | 0 <= i < |rs| && 0 <= j < |rs| && rs[i].selected && rs[j].selected
      ensures i == j
    {
      assert items[i].id == selectedID == items[j].id;
    }
    if selectedID in IdSet(items) {
      var x :| x in items && x.id == selectedID;
      var i :| 0 <= i < |items| && items[i] == x;
      assert rs[i].selected;
    }
    if exists i :: 0 <= i < |rs| && rs[i].selected {
      var i :| 0 <= i < |rs| && rs[i].selected;
      assert items[i] in items;
    }
  }

  /** `renderTodoTable`'s row loop. */
  method RenderRows(items: seq<TodoItem>, selectedID: string, now: Instant) returns (rows: seq<Row>)
    ensures rows == Rows(items, selectedID, now)
  {
    rows := [];
    var i := 0;
    while i < |items|
      invariant 0 <= i <= |items|
      invariant |rows| == i
      invariant forall k :: 0 <= k < i ==> rows[k] == RenderRow(items[k], selectedID, now)
    {
      rows := rows + [RenderRow(items[i], selectedID, now)];
      i := i + 1;
    }
  }

  // ---------------------------------------------------------------------------
  // Priority picker

  /** One line of the priority picker: the name and whether it carries the picker's mark. */
  datatype PickerEntry = PickerEntry(name: string, marked: bool)

  /** The picker's lines: P0, P1, P2 from the top, the picker's priority marked. */
  function PickerEntries(current: Priority): (es: seq<PickerEntry>)
    ensures |es| == 3
    ensures es[0].name == "P0" && es[1].name == "P1" && es[2].name == "P2"
    ensures forall i :: 0 <= i < 3 ==> (es[i].marked <==> current == PriorityHigh - i)
  {
    [PickerEntry("P0", current == PriorityHigh),
     PickerEntry("P1", current == PriorityMedium),
     PickerEntry("P2", current == PriorityLow)]
  }

  /** A named priority marks exactly one line of the picker; any other marks none. */
  lemma PickerMarksOnlyCurrent(current: Priority)
    ensures var es := PickerEntries(current);
      && (IsNamedPriority(current) ==>
            exists i :: 0 <= i < 3 && es[i].marked && forall j :: 0 <= j < 3 && es[j].marked ==> j == i)
      && (!IsNamedPriority(current) ==> forall i :: 0 <= i < 3 ==> !es[i].marked)
  {
    var es := PickerEntries(current);
    if IsNamedPriority(current) {
      var i := PriorityHigh - current;
      assert es[i].marked;
    }
  }

  /** `renderPriorityPicker`'s loop over High, Medium, Low. */
  method RenderPriorityPicker(current: Priority) returns (entries: seq<PickerEntry>)
    ensures entries == PickerEntries(current)
  {
    var priorities := [PriorityHigh, PriorityMedium, PriorityLow];
    entries := [];
    var i := 0;
    while i < |priorities|
      invariant 0 <= i <= |priorities|
      invariant |entries| == i
      invariant forall k :: 0 <= k < i ==> entries[k] == PickerEntries(current)[k]
    {
      var p := priorities[i];
      entries := entries + [PickerEntry(PriorityString(p), p == current)];
      i := i + 1;
    }
  }

  // ---------------------------------------------------------------------------
  // The whole screen

  /** The list part of the screen. */
  datatype Body = EmptyState | Table(rows: seq<Row>)

  /** What sits under the list; the date picker's text layout is not modelled, only its date and highlighted field. */
  datatype Area = HelpLine | InputLine(value: string) | PriorityMenu(entries: seq<PickerEntry>) | DateLine(date: Instant, field: DateField)

  datatype StatusBar = NoStatus | Status(text: string)

  datatype Screen = Screen(doneCount: nat, total: nat, body: Body, area: Area, status: StatusBar)

  /** `renderInteractiveArea`: the help line in Normal mode, else the input or the picker of the mode. */
  function InteractiveArea(s: ModelState): (a: Area)
    ensures a.HelpLine? <==> s.mode == ModeNormal
    ensures a.InputLine? <==> s.mode == ModeInputTitle
    ensures a.PriorityMenu? ==> a.entries == PickerEntries(s.priorityPicker.priority)
  {
    match s.mode
    case ModeNormal => HelpLine
    case ModeInputTitle => InputLine(s.input.value)
    case ModePickPriority => PriorityMenu(PickerEntries(s.priorityPicker.priority))
    case ModePickDate => DateLine(s.datePicker.date, s.datePicker.field)
  }

  /** `View` of a model in state `s` at time `now`. */
  function Render(s: ModelState, now: Instant): (scr: Screen)
    ensures scr.total == |s.items| && scr.doneCount == CountDone(s.items) <= scr.total
    ensures scr.body == EmptyState <==> |s.items| == 0
    ensures scr.body.Table? ==> |scr.body.rows| == |s.items|
    ensures scr.status == NoStatus <==> s.statusLine == ""
    ensures scr.status.Status? ==> scr.status.text == s.statusLine
  {
    Screen(
      CountDone(s.items),
      |s.items|,
      if |s.items| == 0 then EmptyState else Table(Rows(s.items, s.selectedID, now)),
      InteractiveArea(s),
      if s.statusLine != "" then Status(s.statusLine) else NoStatus)
  }

  /** `View`: renders the model's current state. */
  method View(m: Model, now: Instant) returns (screen: Screen)
    ensures screen == Render(m.State(), now)
  {
    var doneCount := CountDoneLoop(m.items);
    var body := EmptyState;
    if |m.items| > 0 {
      var rows := RenderRows(m.items, m.selectedID, now);
      body := Table(rows);
    }
    var area: Area;
    match m.mode {
      case ModeNormal => area := HelpLine;
      case ModeInputTitle => area := InputLine(m.input.value);
      case ModePickPriority => {
        var entries := RenderPriorityPicker(m.priorityPicker.priority);
        area := PriorityMenu(entries);
      }
      case ModePickDate => area := DateLine(m.datePicker.date, m.datePicker.field);
    }
    var status := NoStatus;
    if m.statusLine != "" {
      status := Status(m.statusLine);
    }
    screen := Screen(doneCount, |m.items|, body, area, status);
  }
}
