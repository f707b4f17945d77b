/**
 * The interactive model of the application (main.go, update_handlers.go): a
 * `Model` object whose handlers change its fields in place, one key or window
 * message at a time, and persist the list through an optional `Storage`.
 */
module TodoApp {
  import opened TodoTypes
  import opened TodoList
  import opened Text
  import opened TodoStorage

  // ---------------------------------------------------------------------------
  // Values held by the model

  /** The text input widget, reduced to its value and its width. */
  datatype TextInput = TextInput(value: string, width: int)

  datatype DatePicker = DatePicker(index: int, date: Instant, field: DateField)

  datatype PriorityPicker = PriorityPicker(priority: Priority)

  /**
   * A key press as bubbletea reports it: a named key, a typed rune, or any
   * other key under its name. The text widget sees the key itself; the
   * handlers switch on its name, `KeyString`.
   */
  datatype Key = KeyCtrlC | KeyUp | KeyDown | KeyLeft | KeyRight | KeyEnter | KeyEsc | KeySpace
    | KeyRune(r: char) | KeyOther(name: string)

  /**
   * `KeyMsg.String()`: "ctrl+c", "up", "down", "left", "right", "enter", "esc"
   * and " " for the named keys, the character itself for a typed rune, the
   * name for the rest. Keys with the same name are handled alike.
   */
  function KeyString(k: Key): string
  {
    match k
    case KeyCtrlC => "ctrl+c"
    case KeyUp => "up"
    case KeyDown => "down"
    case KeyLeft => "left"
    case KeyRight => "right"
    case KeyEnter => "enter"
    case KeyEsc => "esc"
    case KeySpace => " "
    case KeyRune(r) => [r]
    case KeyOther(name) => name
  }

  /** The messages `Update` reacts to. */
  datatype Msg = KeyMsg(key: Key) | WindowSizeMsg(width: int, height: int) | OtherMsg

  /** The command handed back to the runtime. */
  datatype Cmd = NoCmd | QuitCmd | BlinkCmd | WidgetCmd

  /**
   * What the handlers take from outside the model: the id `generateID` returns,
   * today at 17:00 in local time, the calendar step `Time.AddDate`, the text
   * widget's reaction to a key, and which database calls of a save fail.
   */
  datatype Env = Env(
    freshId: string,
    todayAt17: Instant,
    addDate: (Instant, int, int, int) -> Instant,
    edit: (string, Key) -> string,
    saveFails: Step -> bool)

  /** A snapshot of every field of the model except the storage handle. */
  datatype ModelState = ModelState(
    items: seq<TodoItem>,
    cursor: int,
    mode: Mode,
    input: TextInput,
    inputContext: InputContext,
    statusLine: string,
    draftItem: TodoItem,
    datePicker: DatePicker,
    priorityPicker: PriorityPicker,
    terminalWidth: int,
    selectedID: string)

  const AddHint := "输入内容后回车，Esc 取消"
  const EditHint := "修改后回车保存，Esc 取消"
  const EmptyInputMessage := "内容不能为空"
  const PriorityHint := "↑/↓ 选择优先级 • Enter 确认 • Esc 取消"
  const DateHint := "←/→ 切换字段 • ↑/↓ 调整时间 • Enter 确认 • Esc 取消"
  const StorageInitFailed := "存储初始化失败"

  // ---------------------------------------------------------------------------
  // Arithmetic of the pickers and the window

  /**
   * Go's `%` for a positive divisor: the remainder of the quotient truncated
   * toward zero, so it takes the sign of the dividend.
   */
  function GoRem(a: int, b: int): (r: int)
    requires b > 0
    ensures a == b * (if a >= 0 then a / b else -((-a) / b)) + r
    ensures a >= 0 ==> 0 <= r < b
    ensures a < 0 ==> -b < r <= 0
  {
    if a >= 0 then a % b else -((-a) % b)
  }

  /** `rotatePriority`: `(p - delta + 3) % 3`; up (delta -1) raises the priority, towards P0 at the top of the picker. */
  function NextPriority(p: Priority, delta: int): Priority
  {
    GoRem(p - delta + 3, 3)
  }

  /** `rotateDateField`: `(f + delta + 6) % 6`. */
  function NextDateField(f: DateField, delta: int): DateField
  {
    GoRem(f + delta + 6, 6)
  }

  lemma NextPriorityInRange(p: Priority, delta: int)
    requires p - delta + 3 >= 0
    ensures IsNamedPriority(NextPriority(p, delta))
  {
  }

  /**
   * A stored priority far below Low: one step down from -3 gives -1, still
   * outside the named priorities, while an up step, or a second step down,
   * lands on a named one.
   */
  lemma NegativePriorityLeavesRangeOnce()
    ensures NextPriority(-3, 1) == -1 && !IsNamedPriority(NextPriority(-3, 1))
    ensures NextPriority(NextPriority(-3, 1), 1) == PriorityMedium
    ensures NextPriority(-3, -1) == PriorityMedium
  {
  }

  /** One rotation of the priority picker moves to the neighbouring priority, wrapping around at both ends. */
  lemma NextPriorityStep(p: Priority, delta: int)
    requires IsNamedPriority(p) && (delta == 1 || delta == -1)
    ensures NextPriority(p, delta) ==
      if delta == 1 then (if p == PriorityLow then PriorityHigh else p - 1)
      else (if p == PriorityHigh then PriorityLow else p + 1)
  {
    var a := p - delta + 3;
    assert 2 <= a <= 6;
    assert a % 3 == if a < 3 then a else if a < 6 then a - 3 else 0;
  }

  /** One step up and one step down cancel out on the three named priorities. */
  lemma NextPriorityInverse(p: Priority)
    requires IsNamedPriority(p)
    ensures NextPriority(NextPriority(p, -1), 1) == p
    ensures NextPriority(NextPriority(p, 1), -1) == p
  {
    var up, down := NextPriority(p, -1), NextPriority(p, 1);
    NextPriorityStep(p, -1);
    NextPriorityStep(p, 1);
    NextPriorityStep(up, 1);
    NextPriorityStep(down, -1);
  }

  /** The priority picker is a cycle of length three. */
  lemma NextPriorityCycle(p: Priority, delta: int)
    requires IsNamedPriority(p) && (delta == 1 || delta == -1)
    ensures NextPriority(p, delta) != p
    ensures NextPriority(NextPriority(NextPriority(p, delta), delta), delta) == p
  {
    var q := NextPriority(p, delta);
    NextPriorityStep(p, delta);
    NextPriorityStep(q, delta);
    NextPriorityStep(NextPriority(q, delta), delta);
  }

  lemma NextDateFieldInRange(f: DateField, delta: int)
    requires f + delta + 6 >= 0
    ensures 0 <= NextDateField(f, delta) < 6
  {
  }

  /** One rotation of the date field moves to the neighbouring field, wrapping around at both ends. */
  lemma NextDateFieldStep(f: DateField, delta: int)
    requires 0 <= f < 6 && (delta == 1 || delta == -1)
    ensures NextDateField(f, delta) ==
      if delta == 1 then (if f == 5 then 0 else f + 1) else (if f == 0 then 5 else f - 1)
  {
    var a := f + delta + 6;
    assert 5 <= a <= 12;
    assert a % 6 == if a < 6 then a else if a < 12 then a - 6 else 0;
  }

  lemma NextDateFieldInverse(f: DateField)
    requires 0 <= f < 6
    ensures NextDateField(NextDateField(f, -1), 1) == f
    ensures NextDateField(NextDateField(f, 1), -1) == f
  {
    NextDateFieldStep(f, -1);
    NextDateFieldStep(NextDateField(f, -1), 1);
    NextDateFieldStep(f, 1);
    NextDateFieldStep(NextDateField(f, 1), -1);
  }

  /** `n` successive rotations of the date field. */
  function Rotations(f: DateField, delta: int, n: nat): DateField
    decreases n
  {
    if n == 0 then f else NextDateField(Rotations(f, delta, n - 1), delta)
  }

  /** One step up from `a` modulo six: the remainder grows by one, wrapping from 5 to 0. */
  lemma ModSixSucc(a: int)
    ensures (a + 1) % 6 == if a % 6 == 5 then 0 else a % 6 + 1
  {
    var q, r := a / 6, a % 6;
    assert a == 6 * q + r;
    if r == 5 {
      assert a + 1 == 6 * (q + 1);
    } else {
      assert a + 1 == 6 * q + (r + 1);
    }
  }

  /** `n` rotations down the picker (delta 1) advance the field by `n` modulo six: past Second comes Year. */
  lemma {:induction false} RotationsForward(f: DateField, n: nat)
    requires 0 <= f < 6
    ensures Rotations(f, 1, n) == (f + n) % 6
  {
    if n > 0 {
      RotationsForward(f, n - 1);
      NextDateFieldStep(Rotations(f, 1, n - 1), 1);
      ModSixSucc(f + n - 1);
    }
  }

  /** `n` rotations up the picker (delta -1) move the field back by `n` modulo six: before Year comes Second. */
  lemma {:induction false} RotationsBackward(f: DateField, n: nat)
    requires 0 <= f < 6
    ensures Rotations(f, -1, n) == (f - n) % 6
  {
    if n > 0 {
      RotationsBackward(f, n - 1);
      NextDateFieldStep(Rotations(f, -1, n - 1), -1);
      ModSixSucc(f - n);
    }
  }

  /** The date picker's field is a cycle of length six: any whole number of six-step turns in one direction brings it back. */
  lemma FullTurnsAreIdentity(f: DateField, delta: int, turns: nat)
    requires 0 <= f < 6 && (delta == 1 || delta == -1)
    ensures Rotations(f, delta, 6 * turns) == f
  {
    if delta == 1 {
      RotationsForward(f, 6 * turns);
      ModSixShift(f, turns);
    } else {
      RotationsBackward(f, 6 * turns);
      ModSixShift(f, -(turns as int));
    }
  }

  lemma ModSixShift(f: int, k: int)
    requires 0 <= f < 6
    ensures (f + 6 * k) % 6 == f
  {
    var q, r := (f + 6 * k) / 6, (f + 6 * k) % 6;
    assert f + 6 * k == 6 * q + r;
    assert 6 * (k - q) == r - f;
  }

  /** The input width for a terminal `w` columns wide: `w - 4` clamped into [40, 60]. */
  function ClampInputWidth(w: int): (r: int)
    ensures 40 <= r <= 60
    ensures 40 <= w - 4 <= 60 ==> r == w - 4
    ensures w - 4 > 60 ==> r == 60
    ensures w - 4 < 40 ==> r == 40
  {
    var width := w - 4;
    var capped := if width > 60 then 60 else width;
    if capped < 40 then 40 else capped
  }

  /** `adjustDate`: calendar steps for year, month and day, fixed durations for the clock fields. */
  function AdjustedDate(date: Instant, field: DateField, delta: int, addDate: (Instant, int, int, int) -> Instant): Instant
  {
    if field == DateFieldYear then addDate(date, delta, 0, 0)
    else if field == DateFieldMonth then addDate(date, 0, delta, 0)
    else if field == DateFieldDay then addDate(date, 0, 0, delta)
    else if field == DateFieldHour then date + delta * 3600
    else if field == DateFieldMinute then date + delta * 10 * 60
    else if field == DateFieldSecond then date + delta * 10
    else date
  }

  /** On the clock fields an adjustment is undone by the opposite one; other fields never move the date. */
  lemma ClockAdjustmentsCancel(date: Instant, field: DateField, delta: int, addDate: (Instant, int, int, int) -> Instant)
    requires DateFieldHour <= field <= DateFieldSecond
    ensures AdjustedDate(AdjustedDate(date, field, delta, addDate), field, -delta, addDate) == date
    ensures delta > 0 ==> AdjustedDate(date, field, delta, addDate) > date
  {
  }

  lemma UnknownFieldKeepsDate(date: Instant, field: DateField, delta: int, addDate: (Instant, int, int, int) -> Instant)
    requires !(0 <= field < 6)
    ensures AdjustedDate(date, field, delta, addDate) == date
  {
  }

  // ---------------------------------------------------------------------------
  // Searching the list

  /** The first index whose task has id `id`, or -1. */
  function IndexOfId(s: seq<TodoItem>, id: string): (k: int)
    ensures -1 <= k < |s|
    ensures k >= 0 ==> s[k].id == id && forall j :: 0 <= j < k ==> s[j].id != id
    ensures k < 0 <==> id !in IdSet(s)
    decreases |s|
  {
    if |s| == 0 then -1
    else if s[0].id == id then 0
    else
      var r := IndexOfId(s[1..], id);
      assert IdSet(s) == {s[0].id} + IdSet(s[1..]) by {
        assert s == [s[0]] + s[1..];
      }
      if r < 0 then -1 else r + 1
  }

  /** The first index whose task is not done, or -1. */
  function FirstOpen(s: seq<TodoItem>): (k: int)
    ensures -1 <= k < |s|
    ensures k >= 0 ==> !s[k].done && forall j :: 0 <= j < k ==> s[j].done
    ensures k < 0 ==> forall j :: 0 <= j < |s| ==> s[j].done
    decreases |s|
  {
    if |s| == 0 then -1
    else if !s[0].done then 0
    else
      var r := FirstOpen(s[1..]);
      if r < 0 then -1 else r + 1
  }

  /** With distinct ids, looking a task's id up finds that very task. */
  lemma FoundIdIsTheTask(s: seq<TodoItem>, x: TodoItem)
    requires UniqueIds(s) && x in s
    ensures 0 <= IndexOfId(s, x.id) < |s|
    ensures s[IndexOfId(s, x.id)] == x
  {
    var k := IndexOfId(s, x.id);
    var j :| 0 <= j < |s| && s[j] == x;
    assert k >= 0;
    assert s[k].id == s[j].id;
  }

  // ---------------------------------------------------------------------------
  // The list after a save

  /** Sorting keeps the tasks and their distinct ids. */
  lemma SortKeepsTasks(s: seq<TodoItem>)
    ensures multiset(SortTodos(s)) == multiset(s)
    ensures |SortTodos(s)| == |s|
    ensures UniqueIds(s) ==> UniqueIds(SortTodos(s))
  {
    SortPermutation(s);
    assert |multiset(SortTodos(s))| == |multiset(s)|;
    if UniqueIds(s) {
      SortKeepsIdsUnique(s);
    }
  }

  /** Rewriting one task with its id kept leaves the ids distinct. */
  lemma ReplaceKeepsIdsUnique(s: seq<TodoItem>, k: nat, x: TodoItem)
    requires UniqueIds(s) && k < |s| && x.id == s[k].id
    ensures UniqueIds(s[k := x])
    ensures IdSet(s[k := x]) == IdSet(s)
  {
    var t := s[k := x];
    forall i, j | 0 <= i < j < |t|
      ensures t[i].id != t[j].id
    {
      assert t[i].id == s[i].id && t[j].id == s[j].id;
    }
    forall id | id in IdSet(s)
      ensures id in IdSet(t)
    {
      var y :| y in s && y.id == id;
      var i :| 0 <= i < |s| && s[i] == y;
      assert t[i].id == id;
    }
  }

  /** No task of `s` has the id `id`. */
  predicate FreshId(s: seq<TodoItem>, id: string)
  {
    forall i | 0 <= i < |s| :: s[i].id != id
  }

  lemma FreshIdIffNotInIdSet(s: seq<TodoItem>, id: string)
    ensures FreshId(s, id) <==> id !in IdSet(s)
  {
    if !FreshId(s, id) {
      var i :| 0 <= i < |s| && s[i].id == id;
      assert s[i] in s;
    }
  }

  /**
   * Deleting from a sorted list leaves a sorted list, so the save's re-sort
   * keeps every task where the deletion put it and the selection stays on the
   * task under the cursor.
   */
  lemma DeleteFromSortedKeepsSelection(s: seq<TodoItem>, c: nat)
    requires Sorted(s) && c < |s|
    ensures var rest := s[..c] + s[c + 1..];
      && SortTodos(rest) == rest
      && (|rest| > 0 ==>
            var k := if c >= |rest| then |rest| - 1 else c;
            SortTodos(rest)[k].id == rest[k].id)
  {
    SortedRemove(s, c);
    SortedIsFixpoint(s[..c] + s[c + 1..]);
  }

  /** Removing one task leaves the ids distinct. */
  lemma RemoveKeepsIdsUnique(s: seq<TodoItem>, k: nat)
    requires UniqueIds(s) && k < |s|
    ensures UniqueIds(s[..k] + s[k + 1..])
  {
    var t := s[..k] + s[k + 1..];
    forall i, j | 0 <= i < j < |t|
      ensures t[i].id != t[j].id
    {
      var i', j' := if i < k then i else i + 1, if j < k then j else j + 1;
      assert t[i] == s[i'] && t[j] == s[j'];
    }
  }

  /** Appending a task with a new id leaves the ids distinct. */
  lemma AppendKeepsIdsUnique(s: seq<TodoItem>, x: TodoItem)
    requires UniqueIds(s) && FreshId(s, x.id)
    ensures UniqueIds(s + [x])
  {
    var t := s + [x];
    forall i, j | 0 <= i < j < |t|
      ensures t[i].id != t[j].id
    {
      if j == |s| {
        assert t[i] == s[i];
      }
    }
  }

  /**
   * After adding to a sorted list through the store, the last row (where the
   * cursor goes) is the new task exactly when the comparator puts it after
   * the previous last task.
   */
  lemma NewTaskSelectedIffSortsLast(s: seq<TodoItem>, x: TodoItem)
    requires Sorted(s) && UniqueIds(s) && FreshId(s, x.id)
    ensures |SortTodos(s + [x])| == |s| + 1
    ensures SortTodos(s + [x])[|s|].id == x.id <==> (|s| == 0 || !Less(x, s[|s| - 1]))
  {
    AppendedLastAfterSort(s, x);
    var r := SortTodos(s + [x]);
    if r[|s|].id == x.id {
      AppendKeepsIdsUnique(s, x);
      SortKeepsIdsUnique(s + [x]);
      SortPermutation(s + [x]);
      assert x in multiset(r);
      var j :| 0 <= j < |r| && r[j] == x;
      assert r[j].id == r[|s|].id;
    }
  }

  /**
   * The state after the splice of `deleteCurrentItem`: the task under the
   * cursor is gone, the cursor keeps its position or moves to the new last
   * task, and the task there is selected; an emptied list has cursor 0 and
   * no selection.
   */
  function RemovedAt(s: ModelState): (r: ModelState)
    requires 0 <= s.cursor < |s.items|
    ensures |r.items| == |s.items| - 1
    ensures r.items == s.items[..s.cursor] + s.items[s.cursor + 1..]
    ensures |r.items| == 0 ==> r.cursor == 0 && r.selectedID == ""
    ensures |r.items| > 0 ==> 0 <= r.cursor < |r.items| && r.selectedID == r.items[r.cursor].id
    ensures r.cursor == s.cursor || r.cursor == |r.items| - 1 == s.cursor - 1 || |r.items| == 0
    ensures r == s.(items := r.items, cursor := r.cursor, selectedID := r.selectedID)
  {
    var rest := s.items[..s.cursor] + s.items[s.cursor + 1..];
    var c := if |rest| == 0 then 0 else if s.cursor >= |rest| then |rest| - 1 else s.cursor;
    s.(items := rest, cursor := c, selectedID := if |rest| == 0 then "" else rest[c].id)
  }

  // ---------------------------------------------------------------------------
  // The model

  class Model {
    var items: seq<TodoItem>
    var cursor: int
    var mode: Mode
    var input: TextInput
    var inputContext: InputContext
    var statusLine: string
    /** The store; `null` when it could not be opened, and then nothing is ever saved. */
    const storage: Storage?
    var draftItem: TodoItem
    var datePicker: DatePicker
    var priorityPicker: PriorityPicker
    var terminalWidth: int
    var selectedID: string

    function State(): ModelState
      reads this
    {
      ModelState(items, cursor, mode, input, inputContext, statusLine, draftItem,
        datePicker, priorityPicker, terminalWidth, selectedID)
    }

    /**
     * The cursor is on a task (or 0 on an empty list), ids are distinct, and
     * each non-normal mode runs in a context whose task exists: an edit needs
     * the list non-empty, the date picker of an edit points at a task, and the
     * draft of an add has an id the list does not hold.
     */
    ghost predicate Valid()
      reads this, storage
    {
      && 0 <= cursor
      && (|items| == 0 ==> cursor == 0)
      && (|items| > 0 ==> cursor < |items|)
      && UniqueIds(items)
      && (storage != null ==> storage.Valid())
      && (mode == ModeInputTitle ==>
            inputContext == InputContextAddTitle || (inputContext == InputContextEditTitle && |items| > 0))
      && (mode == ModePickPriority ==>
            (inputContext == InputContextAddPriority && FreshId(items, draftItem.id))
            || (inputContext == InputContextEditPriority && |items| > 0))
      && (mode == ModePickDate ==>
            (inputContext == InputContextAddPriority && FreshId(items, draftItem.id))
            || (inputContext == InputContextEditPriority && 0 <= datePicker.index < |items|))
    }

    /**
     * `NewModel` once the store is opened (`store`, or `null` with the error
     * text `initError`) and loaded (`loaded`, `loadStatus`).
     */
    constructor(store: Storage?, initError: string, loaded: seq<TodoItem>, loadStatus: string)
      requires store != null ==> store.Valid()
      requires UniqueIds(loaded)
      ensures Valid()
      ensures storage == store
      ensures items == (if store == null then [] else loaded)
      ensures statusLine == (if store == null then StorageInitFailed + ": " + initError else loadStatus)
      ensures cursor == 0 && mode == ModeNormal && inputContext == InputContextNone
      ensures selectedID == (if |items| > 0 then items[0].id else "")
      ensures draftItem == EmptyItem.(priority := PriorityMedium)
      ensures input == TextInput("", 40)
    {
      var list := if store == null then [] else loaded;
      items := list;
      cursor := 0;
      mode := ModeNormal;
      input := TextInput("", 40);
      inputContext := InputContextNone;
      statusLine := if store == null then StorageInitFailed + ": " + initError else loadStatus;
      storage := store;
      draftItem := EmptyItem.(priority := PriorityMedium);
      datePicker := DatePicker(0, 0, DateFieldYear);
      priorityPicker := PriorityPicker(PriorityLow);
      terminalWidth := 0;
      selectedID := if |list| > 0 then list[0].id else "";
    }

    // -------------------------------------------------------------------------
    // What each handler leaves behind, relative to the state `s0` and the rows
    // `r0` it started from

    /** The rows of the store; none without one. */
    function Records(): map<string, Record>
      reads storage
    {
      if storage == null then map[] else storage.records
    }

    /**
     * `saveChanges` applied to `list`, starting from the rows `r0`, gave the
     * list `result`: without a store the list stays as it is; with one it is
     * sorted and the rows are those `Save` leaves.
     */
    ghost predicate Saved(list: seq<TodoItem>, r0: map<string, Record>, env: Env, result: seq<TodoItem>)
      reads storage
    {
      if storage == null then result == list && Records() == r0
      else result == SortTodos(list) && storage.records == StoreAfter(r0, result, env.saveFails)
    }

    /** The status line `saveChanges` leaves after `before` with the saved list `result`: kept without a store, the save's report with one. */
    function SaveReport(before: string, r0: map<string, Record>, env: Env, result: seq<TodoItem>): string
      reads storage
    {
      if storage == null then before else SaveStatus(r0.Keys, result, env.saveFails)
    }

    /** `moveCursor(delta)` and the selection of the task under the cursor. */
    ghost predicate Moved(s0: ModelState, delta: int)
      reads this
    {
      var target := s0.cursor + delta;
      && cursor == (if 0 <= target < |s0.items| then target else s0.cursor)
      && selectedID == (if 0 <= cursor < |items| then items[cursor].id else s0.selectedID)
      && State() == s0.(cursor := cursor, selectedID := selectedID)
    }

    /** `startAddingItem`: an empty draft with a new id, Medium priority, and the title input. */
    ghost predicate AddStarted(s0: ModelState, env: Env)
      reads this
    {
      State() == s0.(
        mode := ModeInputTitle,
        inputContext := InputContextAddTitle,
        draftItem := EmptyItem.(priority := PriorityMedium, id := env.freshId),
        input := s0.input.(value := ""),
        statusLine := AddHint)
    }

    /** `startEditingItem`: the input starts from the title under the cursor; nothing happens on an empty list. */
    ghost predicate EditStarted(s0: ModelState)
      reads this
    {
      if |s0.items| == 0 then State() == s0
      else
        && 0 <= s0.cursor < |s0.items|
        && State() == s0.(
             mode := ModeInputTitle,
             inputContext := InputContextEditTitle,
             input := s0.input.(value := s0.items[s0.cursor].title),
             statusLine := EditHint)
    }

    /**
     * `toggleCompletion`: the task under the cursor has `done` flipped, the
     * list is saved, and the cursor follows that task wherever the save sorted
     * it. Nothing happens on an empty list.
     */
    ghost predicate Toggled(s0: ModelState, r0: map<string, Record>, env: Env)
      reads this, storage
    {
      if |s0.items| == 0 then State() == s0 && Records() == r0
      else
        && 0 <= s0.cursor < |s0.items|
        && var it := s0.items[s0.cursor];
           var flipped := it.(done := !it.done);
           && Saved(s0.items[s0.cursor := flipped], r0, env, items)
           && 0 <= cursor < |items| && items[cursor] == flipped
           && selectedID == it.id
           && statusLine == SaveReport(s0.statusLine, r0, env, items)
           && State() == s0.(items := items, cursor := cursor, selectedID := selectedID, statusLine := statusLine)
    }

    /**
     * `deleteCurrentItem`: the task under the cursor is removed and the task
     * then under the cursor selected (`RemovedAt`), and then the list is
     * saved. Nothing happens on an empty list.
     */
    ghost predicate Deleted(s0: ModelState, r0: map<string, Record>, env: Env)
      reads this, storage
    {
      if |s0.items| == 0 then State() == s0 && Records() == r0
      else
        && 0 <= s0.cursor < |s0.items|
        && var m := RemovedAt(s0);
           && Saved(m.items, r0, env, items)
           && statusLine == SaveReport(s0.statusLine, r0, env, items)
           && State() == m.(items := items, statusLine := statusLine)
    }

    /**
     * `confirmInput`: a blank input only sets the warning. Otherwise an add
     * stores the trimmed title and a new id in the draft, an edit writes the
     * trimmed title into the task at once; both continue with the priority
     * picker (Medium for an add, the task's priority for an edit).
     */
    ghost predicate InputConfirmed(s0: ModelState, env: Env)
      reads this
    {
      var v := TrimSpace(s0.input.value);
      if v == "" then State() == s0.(statusLine := EmptyInputMessage)
      else if s0.inputContext == InputContextAddTitle then
        State() == s0.(
          draftItem := s0.draftItem.(title := v, id := env.freshId),
          mode := ModePickPriority,
          inputContext := InputContextAddPriority,
          priorityPicker := PriorityPicker(PriorityMedium),
          statusLine := PriorityHint)
      else if s0.inputContext == InputContextEditTitle then
        && 0 <= s0.cursor < |s0.items|
        && State() == s0.(
             items := s0.items[s0.cursor := s0.items[s0.cursor].(title := v)],
             mode := ModePickPriority,
             inputContext := InputContextEditPriority,
             priorityPicker := PriorityPicker(s0.items[s0.cursor].priority),
             statusLine := PriorityHint)
      else State() == s0
    }

    /** `exitToNormalMode` and `cancelInput`: back to the list with the status line cleared. */
    ghost predicate Exited(s0: ModelState)
      reads this
    {
      State() == s0.(mode := ModeNormal, statusLine := "")
    }

    /**
     * `confirmPrioritySelection`: an add keeps the priority in the draft and
     * opens the date picker on today at 17:00; an edit writes it into the task,
     * saves, finds the task again and opens the date picker on it.
     */
    ghost predicate PrioritySelected(s0: ModelState, r0: map<string, Record>, env: Env)
      reads this, storage
    {
      if s0.inputContext == InputContextAddPriority then
        && State() == s0.(
             draftItem := s0.draftItem.(priority := s0.priorityPicker.priority),
             mode := ModePickDate,
             datePicker := DatePicker(-1, env.todayAt17, DateFieldHour),
             statusLine := DateHint)
        && Records() == r0
      else
        && 0 <= s0.cursor < |s0.items|
        && var it := s0.items[s0.cursor];
           var changed := it.(priority := s0.priorityPicker.priority);
           && Saved(s0.items[s0.cursor := changed], r0, env, items)
           && 0 <= cursor < |items| && items[cursor] == changed
           && selectedID == it.id
           && datePicker == DatePicker(cursor, if changed.hasDeadline then changed.deadline else env.todayAt17, DateFieldHour)
           && State() == s0.(items := items, cursor := cursor, selectedID := selectedID,
                mode := ModePickDate, datePicker := datePicker, statusLine := DateHint)
    }

    /**
     * `confirmDateSelection`: an add appends the draft with the chosen
     * deadline, resets the draft, saves and puts the cursor on the last row;
     * an edit sets the deadline of the picked task, saves and finds it again.
     * Both return to the list with an empty status line, whatever the save
     * reported.
     */
    ghost predicate DateSelected(s0: ModelState, r0: map<string, Record>, env: Env)
      reads this, storage
    {
      if s0.inputContext == InputContextAddPriority then
        var added := s0.draftItem.(hasDeadline := true, deadline := s0.datePicker.date);
        && Saved(s0.items + [added], r0, env, items)
        && 0 <= cursor < |items| && cursor == |items| - 1
        && selectedID == items[cursor].id
        && State() == s0.(items := items, cursor := cursor, selectedID := selectedID,
             draftItem := EmptyItem, mode := ModeNormal, statusLine := "")
      else
        && 0 <= s0.datePicker.index < |s0.items|
        && var it := s0.items[s0.datePicker.index];
           var changed := it.(hasDeadline := true, deadline := s0.datePicker.date);
           && Saved(s0.items[s0.datePicker.index := changed], r0, env, items)
           && 0 <= cursor < |items| && items[cursor] == changed
           && selectedID == it.id
           && State() == s0.(items := items, cursor := cursor, selectedID := selectedID,
                mode := ModeNormal, statusLine := "")
    }

    /** `handleNormalMode` for a key whose name is `KeyString(key)`. */
    ghost predicate NormalStep(s0: ModelState, r0: map<string, Record>, key: Key, env: Env, cmd: Cmd)
      reads this, storage
    {
      var name := KeyString(key);
      if name == "ctrl+c" || name == "q" then cmd == QuitCmd && State() == s0 && Records() == r0
      else if name == "up" || name == "k" then cmd == NoCmd && Moved(s0, -1) && Records() == r0
      else if name == "down" || name == "j" then cmd == NoCmd && Moved(s0, 1) && Records() == r0
      else if name == "a" then cmd == BlinkCmd && AddStarted(s0, env) && Records() == r0
      else if name == "e" then cmd == BlinkCmd && EditStarted(s0) && Records() == r0
      else if name == " " then cmd == NoCmd && Toggled(s0, r0, env)
      else if name == "x" then cmd == NoCmd && Deleted(s0, r0, env)
      else cmd == NoCmd && State() == s0 && Records() == r0
    }

    /** `handleInputMode`: Esc and Enter end the input; any other key goes to the text widget. */
    ghost predicate InputStep(s0: ModelState, key: Key, env: Env, cmd: Cmd)
      reads this
    {
      var name := KeyString(key);
      if name == "esc" then cmd == NoCmd && Exited(s0)
      else if name == "enter" then cmd == NoCmd && InputConfirmed(s0, env)
      else cmd == WidgetCmd && State() == s0.(input := s0.input.(value := env.edit(s0.input.value, key)))
    }

    /** `handlePriorityPicker`: up/k/left/h raise the priority, down/j/right/l lower it, each wrapping around. */
    ghost predicate PickerStep(s0: ModelState, r0: map<string, Record>, key: Key, env: Env, cmd: Cmd)
      reads this, storage
    {
      var name := KeyString(key);
      && cmd == NoCmd
      && if name == "esc" then Exited(s0) && Records() == r0
         else if name == "enter" then PrioritySelected(s0, r0, env)
         else if name == "up" || name == "k" || name == "left" || name == "h" then
           State() == s0.(priorityPicker := PriorityPicker(NextPriority(s0.priorityPicker.priority, -1))) && Records() == r0
         else if name == "down" || name == "j" || name == "right" || name == "l" then
           State() == s0.(priorityPicker := PriorityPicker(NextPriority(s0.priorityPicker.priority, 1))) && Records() == r0
         else State() == s0 && Records() == r0
    }

    /** `handleDatePicker`: left/right change the field, up/down move the date by one unit of it. */
    ghost predicate DateStep(s0: ModelState, r0: map<string, Record>, key: Key, env: Env, cmd: Cmd)
      reads this, storage
    {
      var name := KeyString(key);
      var picker := s0.datePicker;
      && cmd == NoCmd
      && if name == "esc" then Exited(s0) && Records() == r0
         else if name == "enter" then DateSelected(s0, r0, env)
         else if name == "left" || name == "h" then
           State() == s0.(datePicker := picker.(field := NextDateField(picker.field, -1))) && Records() == r0
         else if name == "right" || name == "l" then
           State() == s0.(datePicker := picker.(field := NextDateField(picker.field, 1))) && Records() == r0
         else if name == "up" || name == "k" then
           State() == s0.(datePicker := picker.(date := AdjustedDate(picker.date, picker.field, 1, env.addDate))) && Records() == r0
         else if name == "down" || name == "j" then
           State() == s0.(datePicker := picker.(date := AdjustedDate(picker.date, picker.field, -1, env.addDate))) && Records() == r0
         else State() == s0 && Records() == r0
    }

    /** `handleKeyPress`: the handler of the current mode. */
    ghost predicate KeyStep(s0: ModelState, r0: map<string, Record>, key: Key, env: Env, cmd: Cmd)
      reads this, storage
    {
      match s0.mode
      case ModeNormal => NormalStep(s0, r0, key, env, cmd)
      case ModeInputTitle => InputStep(s0, key, env, cmd) && Records() == r0
      case ModePickPriority => PickerStep(s0, r0, key, env, cmd)
      case ModePickDate => DateStep(s0, r0, key, env, cmd)
    }

    // -------------------------------------------------------------------------
    // Update and the per-mode handlers

    method Update(msg: Msg, env: Env) returns (cmd: Cmd)
      requires Valid() && FreshId(items, env.freshId)
      modifies this, storage
      ensures Valid()
      ensures msg.KeyMsg? ==> KeyStep(old(State()), old(Records()), msg.key, env, cmd)
      ensures msg.WindowSizeMsg? ==>
        && State() == old(State()).(terminalWidth := msg.width, input := old(input).(width := ClampInputWidth(msg.width)))
        && cmd == NoCmd
      ensures msg.OtherMsg? ==> State() == old(State()) && cmd == NoCmd
      ensures !msg.KeyMsg? ==> Records() == old(Records())
    {
      match msg
      case KeyMsg(key) =>
        cmd := HandleKeyPress(key, env);
      case WindowSizeMsg(width, _) =>
        terminalWidth := width;
        input := input.(width := ClampInputWidth(width));
        cmd := NoCmd;
      case OtherMsg =>
        cmd := NoCmd;
    }

    method HandleKeyPress(key: Key, env: Env) returns (cmd: Cmd)
      requires Valid() && FreshId(items, env.freshId)
      modifies this, storage
      ensures Valid()
      ensures KeyStep(old(State()), old(Records()), key, env, cmd)
    {
      match mode
      case ModeNormal =>
        cmd := HandleNormalMode(key, env);
      case ModeInputTitle =>
        cmd := HandleInputMode(key, env);
      case ModePickPriority =>
        cmd := HandlePriorityPicker(key, env);
      case ModePickDate =>
        cmd := HandleDatePicker(key, env);
    }

    method HandleNormalMode(key: Key, env: Env) returns (cmd: Cmd)
      requires Valid() && mode == ModeNormal && FreshId(items, env.freshId)
      modifies this, storage
      ensures Valid()
      ensures NormalStep(old(State()), old(Records()), key, env, cmd)
    {
      var name := KeyString(key);
      if name == "ctrl+c" || name == "q" {
        return QuitCmd;
      } else if name == "up" || name == "k" {
        MoveSelection(-1);
      } else if name == "down" || name == "j" {
        MoveSelection(1);
      } else if name == "a" {
        StartAddingItem(env);
        return BlinkCmd;
      } else if name == "e" {
        StartEditingItem();
        return BlinkCmd;
      } else if name == " " {
        ToggleCompletion(env);
        return NoCmd;
      } else if name == "x" {
        DeleteCurrentItem(env);
        return NoCmd;
      }
      return NoCmd;
    }

    method HandleInputMode(key: Key, env: Env) returns (cmd: Cmd)
      requires Valid() && mode == ModeInputTitle && FreshId(items, env.freshId)
      modifies this
      ensures Valid()
      ensures InputStep(old(State()), key, env, cmd)
    {
      var name := KeyString(key);
      if name == "esc" {
        CancelInput();
        return NoCmd;
      } else if name == "enter" {
        ConfirmInput(env);
        return NoCmd;
      }
      input := input.(value := env.edit(input.value, key));
      return WidgetCmd;
    }

    method HandlePriorityPicker(key: Key, env: Env) returns (cmd: Cmd)
      requires Valid() && mode == ModePickPriority
      modifies this, storage
      ensures Valid()
      ensures PickerStep(old(State()), old(Records()), key, env, cmd)
    {
      cmd := NoCmd;
      var name := KeyString(key);
      if name == "esc" {
        ExitToNormalMode();
      } else if name == "enter" {
        ConfirmPrioritySelection(env);
      } else if name == "up" || name == "k" || name == "left" || name == "h" {
        RotatePriority(-1);
      } else if name == "down" || name == "j" || name == "right" || name == "l" {
        RotatePriority(1);
      }
    }

    method HandleDatePicker(key: Key, env: Env) returns (cmd: Cmd)
      requires Valid() && mode == ModePickDate
      modifies this, storage
      ensures Valid()
      ensures DateStep(old(State()), old(Records()), key, env, cmd)
    {
      cmd := NoCmd;
      var name := KeyString(key);
      if name == "esc" {
        ExitToNormalMode();
      } else if name == "enter" {
        ConfirmDateSelection(env);
      } else if name == "left" || name == "h" {
        RotateDateField(-1);
      } else if name == "right" || name == "l" {
        RotateDateField(1);
      } else if name == "up" || name == "k" {
        AdjustDate(1, env);
      } else if name == "down" || name == "j" {
        AdjustDate(-1, env);
      }
    }

    // -------------------------------------------------------------------------
    // Cursor and list operations

    /** The "up"/"down" case of `handleNormalMode`: move the cursor, then select the task under it. */
    method MoveSelection(delta: int)
      requires Valid()
      modifies this
      ensures Valid()
      ensures Moved(old(State()), delta)
    {
      MoveCursor(delta);
      if 0 <= cursor < |items| {
        selectedID := items[cursor].id;
      }
    }

    /** `moveCursor`: a move that would leave the list is ignored. */
    method MoveCursor(delta: int)
      modifies this
      ensures var target := old(cursor) + delta;
        State() == old(State()).(cursor := if 0 <= target < |items| then target else old(cursor))
    {
      var newPos := cursor + delta;
      if newPos >= 0 && newPos < |items| {
        cursor := newPos;
      }
    }

    method StartAddingItem(env: Env)
      requires Valid() && mode == ModeNormal
      modifies this
      ensures Valid()
      ensures AddStarted(old(State()), env)
    {
      mode := ModeInputTitle;
      inputContext := InputContextAddTitle;
      draftItem := EmptyItem.(priority := PriorityMedium, id := env.freshId);
      input := input.(value := "");
      statusLine := AddHint;
    }

    method StartEditingItem()
      requires Valid() && mode == ModeNormal
      modifies this
      ensures Valid()
      ensures EditStarted(old(State()))
    {
      if |items| == 0 {
        return;
      }
      mode := ModeInputTitle;
      inputContext := InputContextEditTitle;
      input := input.(value := items[cursor].title);
      statusLine := EditHint;
    }

    method ToggleCompletion(env: Env)
      requires Valid() && mode == ModeNormal
      modifies this, storage
      ensures Valid()
      ensures Toggled(old(State()), old(Records()), env)
    {
      if |items| == 0 {
        return;
      }
      ToggleAtCursor(env);
    }

    /** The non-empty case of `toggleCompletion`. */
    method ToggleAtCursor(env: Env)
      requires Valid() && mode == ModeNormal && |items| > 0
      modifies this, storage
      ensures Valid()
      ensures var it := old(items)[old(cursor)];
        var flipped := it.(done := !it.done);
        && Saved(old(items)[old(cursor) := flipped], old(Records()), env, items)
        && items[cursor] == flipped
        && selectedID == it.id
        && statusLine == SaveReport(old(statusLine), old(Records()), env, items)
        && State() == old(State()).(items := items, cursor := cursor, selectedID := selectedID, statusLine := statusLine)
    {
      var currentID := items[cursor].id;
      var flipped := items[cursor].(done := !items[cursor].done);
      ReplaceKeepsIdsUnique(items, cursor, flipped);
      var edited := items[cursor := flipped];
      items := edited;
      SaveChanges(env);
      ghost var saved, report := items, statusLine;
      assert flipped in multiset(items);
      FindItemByID(currentID);
      FoundIdIsTheTask(items, flipped);
      assert items == saved && statusLine == report;
    }

    method DeleteCurrentItem(env: Env)
      requires Valid() && mode == ModeNormal
      modifies this, storage
      ensures Valid()
      ensures Deleted(old(State()), old(Records()), env)
    {
      if |items| == 0 {
        return;
      }
      RemoveAtCursor();
      SaveChanges(env);
    }

    /** The splice and cursor fix-up of `deleteCurrentItem`, before its save. */
    method RemoveAtCursor()
      requires 0 <= cursor < |items|
      modifies this
      ensures UniqueIds(old(items)) ==> UniqueIds(items)
      ensures State() == RemovedAt(old(State()))
    {
      if UniqueIds(items) {
        RemoveKeepsIdsUnique(items, cursor);
      }
      items := items[..cursor] + items[cursor + 1..];
      if |items| > 0 {
        if cursor >= |items| {
          cursor := |items| - 1;
        }
        if cursor >= 0 && cursor < |items| {
          selectedID := items[cursor].id;
        }
      } else {
        cursor := 0;
        selectedID := "";
      }
    }

    /**
     * `findItemByID`: the cursor goes to the task with id `id`; failing that,
     * to the first task not done; failing that, to the first task; an empty
     * list leaves cursor and selection as they were.
     */
    method FindItemByID(id: string)
      modifies this
      ensures var k, o := IndexOfId(items, id), FirstOpen(items);
        && cursor == (if k >= 0 then k else if o >= 0 then o else if |items| > 0 then 0 else old(cursor))
        && selectedID == (if k >= 0 then id else if o >= 0 then items[o].id
                          else if |items| > 0 then items[0].id else old(selectedID))
      ensures State() == old(State()).(cursor := cursor, selectedID := selectedID)
    {
      var i := 0;
      while i < |items|
        invariant 0 <= i <= |items|
        invariant State() == old(State())
        invariant forall j :: 0 <= j < i ==> items[j].id != id
      {
        if items[i].id == id {
          cursor := i;
          selectedID := id;
          return;
        }
        i := i + 1;
      }
      i := 0;
      while i < |items|
        invariant 0 <= i <= |items|
        invariant State() == old(State())
        invariant forall j :: 0 <= j < i ==> items[j].done
      {
        if !items[i].done {
          cursor := i;
          selectedID := items[i].id;
          return;
        }
        i := i + 1;
      }
      if |items| > 0 {
        cursor := 0;
        selectedID := items[0].id;
      }
    }

    // -------------------------------------------------------------------------
    // Title input

    method CancelInput()
      requires Valid()
      modifies this
      ensures Valid()
      ensures Exited(old(State()))
    {
      mode := ModeNormal;
      statusLine := "";
    }

    method ConfirmInput(env: Env)
      requires Valid() && mode == ModeInputTitle && FreshId(items, env.freshId)
      modifies this
      ensures Valid()
      ensures InputConfirmed(old(State()), env)
    {
      var value := TrimSpace(input.value);
      if value == "" {
        statusLine := EmptyInputMessage;
        return;
      }
      match inputContext
      case InputContextAddTitle =>
        draftItem := draftItem.(title := value, id := env.freshId);
        StartPriorityPicker(InputContextAddPriority, PriorityMedium);
      case InputContextEditTitle =>
        var edited := items[cursor].(title := value);
        ReplaceKeepsIdsUnique(items, cursor, edited);
        items := items[cursor := edited];
        StartPriorityPicker(InputContextEditPriority, items[cursor].priority);
      case _ =>
    }

    // -------------------------------------------------------------------------
    // Priority picker

    method StartPriorityPicker(context: InputContext, initial: Priority)
      modifies this
      ensures State() == old(State()).(
        mode := ModePickPriority,
        inputContext := context,
        priorityPicker := PriorityPicker(initial),
        statusLine := PriorityHint)
    {
      mode := ModePickPriority;
      inputContext := context;
      priorityPicker := PriorityPicker(initial);
      statusLine := PriorityHint;
    }

    method RotatePriority(delta: int)
      requires Valid()
      modifies this
      ensures Valid()
      ensures State() == old(State()).(priorityPicker := PriorityPicker(NextPriority(old(priorityPicker.priority), delta)))
    {
      var current := priorityPicker.priority;
      priorityPicker := PriorityPicker(GoRem(current - delta + 3, 3));
    }

    method ConfirmPrioritySelection(env: Env)
      requires Valid() && mode == ModePickPriority
      modifies this, storage
      ensures Valid()
      ensures PrioritySelected(old(State()), old(Records()), env)
    {
      if inputContext == InputContextAddPriority {
        draftItem := draftItem.(priority := priorityPicker.priority);
        StartDatePicker(-1, env);
      } else {
        SetPickedPriority(env);
      }
    }

    /** The edit half of `confirmPrioritySelection`: the task gets the priority, is saved, found again, and the date picker opens on it. */
    method SetPickedPriority(env: Env)
      requires Valid() && mode == ModePickPriority && inputContext != InputContextAddPriority
      modifies this, storage
      ensures Valid()
      ensures PrioritySelected(old(State()), old(Records()), env)
    {
      var currentID := items[cursor].id;
      var changed := items[cursor].(priority := priorityPicker.priority);
      ReplaceKeepsIdsUnique(items, cursor, changed);
      var edited := items[cursor := changed];
      items := edited;
      SaveChanges(env);
      assert changed in multiset(items);
      FindItemByID(currentID);
      FoundIdIsTheTask(items, changed);
      StartDatePicker(cursor, env);
    }

    // -------------------------------------------------------------------------
    // Date picker

    /** `startDatePicker`: starts from the task's deadline when it has one, else from today at 17:00, on the hour field. */
    method StartDatePicker(index: int, env: Env)
      requires index < |items|
      modifies this
      ensures State() == old(State()).(
        mode := ModePickDate,
        datePicker := DatePicker(index,
          if index >= 0 && old(items)[index].hasDeadline then old(items)[index].deadline else env.todayAt17,
          DateFieldHour),
        statusLine := DateHint)
    {
      mode := ModePickDate;
      var date := if index >= 0 && items[index].hasDeadline then items[index].deadline else env.todayAt17;
      datePicker := DatePicker(index, date, DateFieldHour);
      statusLine := DateHint;
    }

    method RotateDateField(delta: int)
      requires Valid()
      modifies this
      ensures Valid()
      ensures State() == old(State()).(datePicker := old(datePicker).(field := NextDateField(old(datePicker.field), delta)))
    {
      var current := datePicker.field;
      datePicker := datePicker.(field := GoRem(current + delta + 6, 6));
    }

    method AdjustDate(delta: int, env: Env)
      requires Valid()
      modifies this
      ensures Valid()
      ensures State() == old(State()).(datePicker := old(datePicker).(
        date := AdjustedDate(old(datePicker.date), old(datePicker.field), delta, env.addDate)))
    {
      var date := datePicker.date;
      match datePicker.field {
        case 0 => date := env.addDate(date, delta, 0, 0);
        case 1 => date := env.addDate(date, 0, delta, 0);
        case 2 => date := env.addDate(date, 0, 0, delta);
        case 3 => date := date + delta * 3600;
        case 4 => date := date + delta * 10 * 60;
        case 5 => date := date + delta * 10;
        case _ =>
      }
      datePicker := datePicker.(date := date);
    }

    method ConfirmDateSelection(env: Env)
      requires Valid() && mode == ModePickDate
      modifies this, storage
      ensures Valid()
      ensures DateSelected(old(State()), old(Records()), env)
    {
      if inputContext == InputContextAddPriority {
        AddDraftTask(env);
      } else {
        SetPickedDeadline(env);
      }
      mode := ModeNormal;
      statusLine := "";
    }

    /** The add half of `confirmDateSelection`: the draft gets the picked deadline, is appended, saved and selected. */
    method AddDraftTask(env: Env)
      requires Valid() && mode == ModePickDate && inputContext == InputContextAddPriority
      modifies this, storage
      ensures storage != null ==> storage.Valid()
      ensures UniqueIds(items) && 0 <= cursor < |items|
      ensures var added := old(draftItem).(hasDeadline := true, deadline := old(datePicker.date));
        && Saved(old(items) + [added], old(Records()), env, items)
        && cursor == |items| - 1
        && selectedID == items[cursor].id
        && statusLine == SaveReport(old(statusLine), old(Records()), env, items)
        && State() == old(State()).(items := items, cursor := cursor, selectedID := selectedID,
             draftItem := EmptyItem, statusLine := statusLine)
    {
      var added := draftItem.(hasDeadline := true, deadline := datePicker.date);
      AppendKeepsIdsUnique(items, added);
      var appended := items + [added];
      items := appended;
      draftItem := EmptyItem;
      SaveChanges(env);
      if |items| > 0 {
        cursor := |items| - 1;
        selectedID := items[cursor].id;
      }
    }

    /** The edit half of `confirmDateSelection`: the task under the picker gets the deadline, is saved and found again. */
    method SetPickedDeadline(env: Env)
      requires Valid() && mode == ModePickDate && inputContext != InputContextAddPriority
      modifies this, storage
      ensures storage != null ==> storage.Valid()
      ensures UniqueIds(items) && 0 <= cursor < |items|
      ensures var it := old(items)[old(datePicker.index)];
        var changed := it.(hasDeadline := true, deadline := old(datePicker.date));
        && Saved(old(items)[old(datePicker.index) := changed], old(Records()), env, items)
        && items[cursor] == changed
        && selectedID == it.id
        && statusLine == SaveReport(old(statusLine), old(Records()), env, items)
        && State() == old(State()).(items := items, cursor := cursor, selectedID := selectedID,
             statusLine := statusLine)
    {
      var currentID := items[datePicker.index].id;
      var changed := items[datePicker.index].(hasDeadline := true, deadline := datePicker.date);
      ReplaceKeepsIdsUnique(items, datePicker.index, changed);
      var edited := items[datePicker.index := changed];
      items := edited;
      SaveChanges(env);
      assert changed in multiset(items);
      FindItemByID(currentID);
      FoundIdIsTheTask(items, changed);
    }

    method ExitToNormalMode()
      requires Valid()
      modifies this
      ensures Valid()
      ensures Exited(old(State()))
    {
      mode := ModeNormal;
      statusLine := "";
    }

    /** `saveChanges`: with a store, save (which sorts the list) and show its status; without one, nothing. */
    method SaveChanges(env: Env)
      requires storage != null ==> storage.Valid()
      modifies this, storage
      ensures storage != null ==> storage.Valid()
      ensures Saved(old(items), old(Records()), env, items)
      ensures statusLine == SaveReport(old(statusLine), old(Records()), env, items)
      ensures State() == old(State()).(items := items, statusLine := statusLine)
      ensures multiset(items) == multiset(old(items)) && |items| == |old(items)|
      ensures UniqueIds(old(items)) ==> UniqueIds(items)
    {
      if storage != null {
        SortKeepsTasks(items);
        var sorted, msg := storage.Save(items, env.saveFails);
        items := sorted;
        if msg != "" {
          statusLine := msg;
        } else {
          statusLine := "";
        }
      }
    }
  }

  /** `NewModel`: opens nothing itself; the store (or the failure to open it) is given, and the list is loaded from it. */
  method NewModel(store: Storage?, initError: string, loadFails: bool) returns (m: Model)
    requires store != null ==> store.Valid()
    ensures fresh(m) && m.Valid() && m.storage == store
    ensures m.cursor == 0 && m.mode == ModeNormal && m.inputContext == InputContextNone
    ensures m.draftItem.priority == PriorityMedium
    ensures store == null ==> m.items == [] && m.statusLine == StorageInitFailed + ": " + initError
    ensures store != null && loadFails ==> m.items == [] && m.statusLine == LoadFailed
    ensures store != null && !loadFails ==>
      m.statusLine == "" && Sorted(m.items) && RowsOf(store.records, m.items)
    ensures m.selectedID == if |m.items| > 0 then m.items[0].id else ""
  {
    var loaded: seq<TodoItem> := [];
    var status := "";
    if store != null {
      ghost var rows;
      loaded, status, rows := store.Load(loadFails);
    }
    m := new Model(store, initError, loaded, status);
  }
}
