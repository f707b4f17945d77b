# todo_cli in Dafny

A model of the core of `todo_cli`, a terminal to-do list built on the
bubbletea framework with a SQLite store. The model covers:

- **The task and its comparator.** A `TodoItem` has a title, a done flag, an
  integer priority, an optional deadline and an id. `Sort` is a stable sort
  (`TodoList.SortTodos`, done in place by `TodoList.SortInPlace`) by one
  comparator: open tasks first, then higher priority, then tasks with a
  deadline, then the earlier deadline; titles decide only when neither task
  has a deadline.
- **The interactive `Model`.** This is a class whose handlers change its
  fields in place, one message at a time. It has four modes (normal, title
  input, priority picker, date picker) and an input context that says whether
  a flow adds or edits. After a toggle or an edit is saved, the cursor and
  the selected id find the changed task again wherever the sort put it. An
  add puts the cursor on the last row, which holds the new task only when it
  sorts last. A delete picks its selection before the save re-sorts.
- **The store.** The table is a map from id to row. `Save` sorts the list,
  then reconciles the table with it in one transaction: it deletes the rows
  whose id is gone, then counts the rows with each task's id and updates or
  creates the row. The first failing call rolls everything back and names
  itself in the status line, apart from the row count, whose error is
  ignored: a failed count reads as no row, so the task is created, which
  fails on the primary key (reported as a failed create) when the row
  exists and succeeds otherwise.
  `Load` reads the rows back and sorts them.
- **The screen.** `View` decides the header count, the empty state or one row
  per task, the highlighted row, the priority label, the title cut, the
  deadline cell and its overdue style, the interactive area of the mode, and
  the status line.

Modules:

- `TodoTypes` (`todo_types.dfy`) holds the entities and the comparator.
- `TodoList` (`todo_list.dfy`) holds the sort: a functional specification,
  its properties, and the in-place array sort proved equal to it.
- `Text` (`text.dfy`) holds `strings.TrimSpace`, UTF-8 bytes and the title
  cut.
- `TodoStorage` (`storage.dfy`) holds the rows, `Save` and `Load`.
- `TodoApp` (`model.dfy`) holds the `Model` class and its handlers.
- `TodoView` (`view.dfy`) holds the rendering decisions.

Everything the program reads from outside comes in as a parameter:

- **The clock.** `now`, and "today at 17:00" as `env.todayAt17`.
- **`generateID`.** `env.freshId`, a fresh id.
- **The calendar step `Time.AddDate`.** `env.addDate`.
- **The text widget's reaction to a key.** `env.edit`.
- **Which database calls fail.** A failure oracle `fail: Step -> bool`. A
  step is `Begin`, `Pluck`, `Delete(id)`, `Count(i)` (the row count for
  task i), `Write(i)` or `Commit`.
- **The order in which the query returns rows.** A `rows` parameter
  constrained only to hold each stored row once.

The handlers take key presses as a `Key` datatype: a named key, a typed
character or any other key. `KeyString` gives the name bubbletea's
`KeyMsg.String()` reports ("ctrl+c", "up", " ", the character and so on),
and every handler switches on that name, as the code does.

## Model

| member | source | states |
|---|---|---|
| TodoTypes.PriorityString | types.go:20-31 | High, Medium and Low are labelled P0, P1 and P2, with the digit counting down from High; every other stored integer gives "?", and only those do |
| TodoTypes.IsOverdue | types.go:79-81 | the overdue test; its meaning is stated by `OverdueNeedsOpenDeadline` |
| TodoTypes.OverdueNeedsOpenDeadline | types.go:79-81 | a done task or a task without a deadline is never overdue; an open task with a deadline is overdue exactly when the clock is past it |
| TodoTypes.DeadlineString | types.go:83-88 | the cell is the dash exactly when the task has no deadline; otherwise it shows the task's own deadline |
| TodoTypes.StrLess | types.go:113 | Go's `<` on strings, lexicographic with a proper prefix first; its order properties are the four lemmas below |
| TodoTypes.StrLessIrreflexive | types.go:113 | Go's string `<` is irreflexive |
| TodoTypes.StrLessTransitive | types.go:113 | Go's string `<` is transitive |
| TodoTypes.StrLessTotal | types.go:113 | two different strings are ordered one way or the other |
| TodoTypes.StrLessAsymmetric | types.go:113 | Go's string `<` never holds both ways |
| TodoTypes.Less | types.go:93-114 | the comparator of `Sort`: open before done, then higher priority, then with a deadline, then the earlier deadline, then the title only when neither has a deadline; the lemmas below make it a strict weak order |
| TodoTypes.LessIrreflexive | types.go:93-114 | no task has to precede itself under the comparator |
| TodoTypes.LessAsymmetric | types.go:93-114 | the comparator never asks two tasks to precede each other |
| TodoTypes.LessTransitive | types.go:93-114 | the comparator is transitive |
| TodoTypes.NotLessTransitive | types.go:93-114 | "may precede" is transitive, so the comparator is a strict weak order, as `sort.SliceStable` requires |
| TodoTypes.EquivTransitive | types.go:93-114 | being tied under the comparator is transitive |
| TodoTypes.EqualDeadlinesAreEquivalent | types.go:105-113 | two tasks with equal done flag, priority and deadline are tied whatever their titles: the title is compared only when neither has a deadline |
| TodoList.Insert | types.go:92-115 | one insertion step of the stable sort: the task goes after every task it need not precede; its properties are `InsertPermutation`, `InsertSorted` and `InsertClass` |
| TodoList.SortTodos | types.go:92-115 | the specified result of `Sort`, a stable insertion sort by `Less`; `SortPermutation`, `SortSorted`, `SortStable` and `StableSortIsUnique` state what it is |
| TodoList.InsertPermutation | types.go:92-115 | one insertion step keeps the tasks with their multiplicity |
| TodoList.SortPermutation | types.go:92-115 | sorting keeps the same tasks with the same multiplicity |
| TodoList.InsertSorted | types.go:92-115 | inserting into a sorted list keeps it sorted |
| TodoList.SortSorted | types.go:92-115 | after the sort no task has to precede one that stands before it |
| TodoList.SortOrdersByKeys | types.go:96-113 | in the sorted list open tasks come before done ones; among equal done flags higher priorities come first; then tasks with a deadline; then earlier deadlines; among tasks without a deadline, titles in order |
| TodoList.ClassMembers | types.go:92-115 | the tied class of a task holds exactly the list's tasks tied with it |
| TodoList.ClassSnoc | types.go:92-115 | appending a task extends its tied class by that task and leaves the others alone |
| TodoList.InsertClass | types.go:92-115 | an insertion step appends the inserted task to its tied class and leaves every class in order |
| TodoList.SortStable | types.go:93 | the sort is stable: every class of tied tasks keeps its input order |
| TodoList.SortedByClassesUnique | types.go:93 | two sorted lists whose tied classes agree are the same list |
| TodoList.SortedClassesLastEquivalent | types.go:93 | two non-empty sorted lists with equal classes end in tied tasks |
| TodoList.SortedClassesShareLast | types.go:93 | two non-empty sorted lists with equal classes end in the same task |
| TodoList.DropLastKeepsClasses | types.go:93 | dropping the same last task from two lists with equal classes leaves equal classes |
| TodoList.StableSortIsUnique | types.go:93 | any sorted, class-preserving rearrangement equals the specified sort, so any stable sort by this comparator gives this list |
| TodoList.SortedIsFixpoint | types.go:92-115 | sorting a sorted list changes nothing |
| TodoList.SortIdempotent | types.go:92-115 | sorting twice is sorting once |
| TodoList.SortedRemove | types.go:92-115 | removing one task of a sorted list leaves it sorted |
| TodoList.AppendedLastAfterSort | types.go:92-115 | a task appended to a sorted list ends last after the sort exactly when no earlier task must follow it |
| TodoList.InsertKeepsIdsUnique | types.go:92-115 | inserting a task with an id not on the list keeps ids distinct |
| TodoList.SortKeepsIdsUnique | types.go:92-115 | sorting never makes two tasks share an id |
| TodoList.SortedPermutationsAgree | types.go:92-115 | two sorted lists holding the same tasks, no two of them tied, are the same list |
| TodoList.SortedHeadsAgree | types.go:92-115 | two non-empty sorted lists holding the same tasks, no two of them tied, start with the same task |
| TodoList.MultisetTail | types.go:92-115 | removing equal first tasks from two lists with the same tasks leaves lists with the same tasks |
| TodoList.EqualDeadlinesKeepInputOrder | types.go:105-113 | two open High tasks with the same deadline, titled "b" then "a", stay in that order |
| TodoList.TitlesOrderItemsWithoutDeadline | types.go:113 | without deadlines, tasks titled "b" then "a" and otherwise tied are sorted to "a", "b" |
| TodoList.SortInPlace | types.go:92-115 | the in-place sort leaves the array equal to the specified sort of its old contents |
| TodoList.InsertAt | types.go:93 | moving one element left past the tasks it must precede turns the sorted prefix into the insertion of that element |
| TodoList.InsertStepBack | types.go:93 | one neighbour swap of the insertion loop keeps the pending insertion equal to its specification |
| TodoList.SortList | types.go:92-115 | sorting a list value through an array gives the specified sort |
| Text.TrimSpace | update_handlers.go:239 | `strings.TrimSpace`: both trims in turn; `TrimSpaceIsInnerSlice` and `TrimSpaceEmptyIffBlank` state what it keeps |
| Text.TrimLeftIsSuffix | update_handlers.go:239 | what the left trim keeps is a suffix of the input that does not start with white space, and all it drops is white space |
| Text.TrimRightIsPrefix | update_handlers.go:239 | what the right trim keeps is a prefix that does not end in white space, and all it drops is white space |
| Text.TrimLeftOfBlank | update_handlers.go:239 | trimming all-white-space input leaves nothing |
| Text.TrimSpaceEmptyIffBlank | update_handlers.go:239-243 | the trimmed title is empty, and the empty-title message appears, exactly when the input is all white space |
| Text.TrimSpaceIsInnerSlice | update_handlers.go:239 | the trimmed title is a slice of the input that neither starts nor ends with white space, with only white space cut on either side |
| Text.RuneLen | view_components.go:142 | one character takes between one and four UTF-8 bytes |
| Text.EncodeRune | view_components.go:142 | a character's encoding is as long as its byte count says |
| Text.Utf8Append | view_components.go:142 | the bytes of a concatenation are the concatenated bytes |
| Text.EncodeRuneThenWellFormed | view_components.go:142-143 | a whole character in front does not change whether bytes are well formed |
| Text.Utf8WellFormed | view_components.go:142-143 | the encoding of any string consists of whole characters |
| Text.Utf8Length | view_components.go:142 | a string has at least as many bytes as characters, and exactly as many when it is ASCII |
| Text.TruncateTitleBytes | view_components.go:141-144 | the byte cut as written: a title over 38 bytes becomes its first 35 bytes followed by "..." |
| Text.ThreeByteUtf8Length | view_components.go:142 | a title of three-byte characters has three bytes per character |
| Text.WholeCharactersThenWellFormed | view_components.go:142-143 | bytes of whole characters followed by well-formed bytes are well formed |
| Text.ByteCutSplitsCharacter | view_components.go:141-144 | for any title of three-byte characters over 38 bytes, the cut title is not well-formed UTF-8, because byte 35 falls inside a character |
| Text.ChineseTitleIsCutMidCharacter | view_components.go:141-144 | thirteen times U+4E2D (39 bytes) is cut at byte 35, inside the twelfth character |
| Text.FitPrefix | view_components.go:141-144 | a prefix of the title whose encoding fits in n bytes and that the next character would overflow |
| Text.TruncateTitle | view_components.go:141-144 | the corrected cut: a title of at most 38 bytes is kept; a longer one becomes its longest prefix of whole characters that fits in 35 bytes, plus "...", within 38 bytes |
| Text.TruncateTitleWellFormed | view_components.go:141-144 | the corrected cut always yields well-formed UTF-8 |
| Text.CutsAgreeOnAscii | view_components.go:141-144 | on ASCII titles the corrected cut and the cut as written give the same bytes |
| Text.AsciiUtf8Prefix | view_components.go:142-143 | on ASCII text the bytes of a prefix are the prefix of the bytes |
| TodoStorage.ToTodoItem | storage.go:26-35 | the task read from a row carries the row's id |
| TodoStorage.ItemToRecord | storage.go:38-47 | the row made from a task carries the task's id |
| TodoStorage.ItemRecordRoundTrip | storage.go:26-47 | converting a task to a row and back gives the task |
| TodoStorage.RecordItemRoundTrip | storage.go:26-47 | converting a row to a task and back gives the row |
| TodoStorage.UpdateColumns | storage.go:124-130 | an update sets the five mutable columns and keeps the key; on the task's own row it yields the task's row |
| TodoStorage.Written | storage.go:119-144 | the rows written from a list are keyed by id and hold exactly its ids |
| TodoStorage.LastOccurrenceWins | storage.go:119-144 | the row of an id holds the last task carrying that id |
| TodoStorage.UniqueItemsAreStored | storage.go:119-144 | with distinct ids every task is stored as it is |
| TodoStorage.DuplicateIdKeepsLast | storage.go:119-144 | two tasks with one id end as one row holding the second |
| TodoStorage.WriteStatus | storage.go:119-144 | the status of the write loop from task i on; its meaning is stated by `WriteStatusEmptyIff`, `FailedWriteIsReported` and `WriteStatusSkips` |
| TodoStorage.SaveStatus | storage.go:86-152 | the string `Save` returns, the first failing call in the order Begin, Pluck, deletes, writes, Commit; `SaveStatusEmptyIff` states when it is empty |
| TodoStorage.StoreAfter | storage.go:86-152 | after a Save the table holds exactly the list's ids when the status is empty, and is unchanged otherwise |
| TodoStorage.WriteStatusEmptyIff | storage.go:119-144 | the write loop reports nothing exactly when no write call fails and no row that exists goes unfound because its count failed |
| TodoStorage.SaveStatusEmptyIff | storage.go:86-152 | Save returns "" exactly when Begin, Pluck, every delete of a stale id, every write, every count of a row that exists, and Commit succeed |
| TodoStorage.FailedWriteIsReported | storage.go:119-144 | the first failing write decides the status: an update failure when its row was found by the count, a create failure otherwise |
| TodoStorage.FailedCountOfStoredRowReportsCreate | storage.go:121-143 | the count's error is ignored: when the count of a stored task's row fails, the first such task makes Save report a failed create although no write call failed |
| TodoStorage.WriteStatusSkips | storage.go:119-144 | successful writes do not change the status the loop reports |
| TodoStorage.SortedRowsAreRows | storage.go:69-84 | sorting the rows read back keeps them the table's rows and makes them sorted |
| TodoStorage.UniqueIdsNoRepeats | storage.go:69-84 | a list with distinct ids holds each task at most once |
| TodoStorage.RowsOfWrittenArePermutation | storage.go:69-152 | reading back the rows written from a list with distinct ids gives the same tasks |
| TodoStorage.LoadAfterSave | storage.go:69-152 | Load after a successful Save returns the saved tasks, sorted; when no two tasks tie it returns exactly the sorted list |
| TodoStorage.CollectIds | storage.go:104-107 | the `savingIDs` loop collects exactly the ids of the list |
| TodoStorage.DeleteStale | storage.go:109-117 | deleting fails exactly when some stale id's delete fails; on success exactly the rows whose ids are in the list remain |
| TodoStorage.WrittenStep | storage.go:119-144 | writing task i extends the rows of the first i tasks to those of the first i+1 |
| TodoStorage.RowExistsBeforeWrite | storage.go:121-123 | a row with task i's id is in the transaction exactly when its id was stored and kept, or an earlier task created it |
| TodoStorage.RowHasTaskId | storage.go:124-130 | the row the update finds carries the task's id |
| TodoStorage.FailedWriteStatus | storage.go:121-142 | task i's write fails exactly when its call fails or its row exists and the count failed; a failure is a failed update when the row was found, a failed create otherwise |
| TodoStorage.WriteExtends | storage.go:119-144 | writing task i's row extends the transaction by one task |
| TodoStorage.WriteRow | storage.go:120-143 | one loop turn counts the row (0 when the count fails), then updates a found row or creates one, which clashes with an existing key; it reports the status the loop owes at task i when it fails, and otherwise writes task i |
| TodoStorage.WriteAll | storage.go:119-144 | the write loop returns the status of the first failing write, and on success the kept rows overwritten by the rows of the list |
| TodoStorage.Storage.constructor | storage.go:49-67 | a store over a table keyed by id |
| TodoStorage.Storage.Load | storage.go:69-84 | on a failing query, an empty list and the load-failure status; otherwise the stored rows, each once, sorted, and an empty status |
| TodoStorage.Storage.Save | storage.go:86-152 | the caller's list comes back sorted; the status is that of the first failing call, counts included; the table is the list's rows on success and unchanged after a failure |
| TodoApp.GoRem | update_handlers.go:268 | Go's `%`: the dividend is the divisor times the quotient truncated toward zero plus the remainder, which lies in [0, b) for a non-negative dividend and in (-b, 0] for a negative one |
| TodoApp.NextPriority | update_handlers.go:266-270 | the picker's rotation `(p - delta + 3) % 3` with Go's `%`; the lemmas below state where it lands |
| TodoApp.NextDateField | update_handlers.go:307-311 | the date picker's rotation `(f + delta + 6) % 6`; `NextDateFieldInRange`, `NextDateFieldStep` and `NextDateFieldInverse` state where it lands |
| TodoApp.NextPriorityInRange | update_handlers.go:266-270 | a rotation from a priority at least delta-3 lands on a named priority |
| TodoApp.NegativePriorityLeavesRangeOnce | update_handlers.go:266-270 | a stored priority of -3 rotates down to -1, outside the named range, and a second step down, or one step up, lands on Medium |
| TodoApp.NextPriorityStep | update_handlers.go:266-270 | down the picker (delta 1) the priority drops by one and wraps from Low to High; up (delta -1) it rises by one and wraps from High to Low |
| TodoApp.NextPriorityInverse | update_handlers.go:266-270 | one step up and one step down cancel on the named priorities |
| TodoApp.NextPriorityCycle | update_handlers.go:266-270 | every step moves, and three steps come back |
| TodoApp.NextDateFieldInRange | update_handlers.go:307-311 | a rotation lands on one of the six fields when f+delta+6 is not negative |
| TodoApp.NextDateFieldStep | update_handlers.go:307-311 | right moves to the next field and wraps from Second to Year; left moves back and wraps from Year to Second |
| TodoApp.NextDateFieldInverse | update_handlers.go:307-311 | left then right, or right then left, returns to the field |
| TodoApp.RotationsForward | update_handlers.go:307-311 | any number n of rotations to the right advance the field by n modulo six |
| TodoApp.RotationsBackward | update_handlers.go:307-311 | any number n of rotations to the left move the field back by n modulo six |
| TodoApp.FullTurnsAreIdentity | update_handlers.go:307-311 | any whole number of turns of six rotations, in either direction, returns to the field |
| TodoApp.ClampInputWidth | update_handlers.go:19-26 | the input width is the terminal width less 4, clamped into [40, 60] |
| TodoApp.AdjustedDate | update_handlers.go:313-328 | the date picker's step on the focused field: a calendar step for year, month and day, one hour, ten minutes or ten seconds otherwise; see the two lemmas below |
| TodoApp.ClockAdjustmentsCancel | update_handlers.go:313-328 | on hour, minute and second an adjustment is undone by the opposite one, and a positive one moves the date forward |
| TodoApp.UnknownFieldKeepsDate | update_handlers.go:313-328 | a field outside the six leaves the date alone |
| TodoApp.IndexOfId | update_handlers.go:209-215 | the first index holding the id, or -1 exactly when the id is absent |
| TodoApp.FirstOpen | update_handlers.go:217-223 | the first index of an open task, or -1 exactly when all tasks are done |
| TodoApp.FoundIdIsTheTask | update_handlers.go:208-215 | with distinct ids, looking up a task's id finds that very task |
| TodoApp.SortKeepsTasks | storage.go:88 | the save's sort keeps the tasks, their number and their distinct ids |
| TodoApp.ReplaceKeepsIdsUnique | update_handlers.go:280 | rewriting a task with its id kept leaves the ids distinct and the same |
| TodoApp.FreshIdIffNotInIdSet | types.go:75-77 | an id no task carries is exactly an id outside the list's id set |
| TodoApp.DeleteFromSortedKeepsSelection | update_handlers.go:180-205 | deleting from a sorted list leaves it sorted, so the save's sort moves nothing and the selected id is the task under the cursor |
| TodoApp.RemovedAt | update_handlers.go:180-205 | the state after the splice of a delete: the task under the cursor is gone and nothing else; the cursor stays, or clamps to the new last task; the selection is the task under the cursor, or empty when the list is |
| TodoApp.RemoveKeepsIdsUnique | update_handlers.go:186 | removing a task leaves the ids distinct |
| TodoApp.AppendKeepsIdsUnique | update_handlers.go:334 | appending a task with a fresh id leaves the ids distinct |
| TodoApp.NewTaskSelectedIffSortsLast | update_handlers.go:334-342 | after an add the last row, where the cursor goes, is the new task exactly when the comparator puts it after the previous last task |
| TodoApp.Model.constructor | main.go:43-80 | cursor 0, normal mode, a Medium draft, width 40, the loaded list (or none, with the init error, when there is no store), and the first task selected |
| TodoApp.NewModel | main.go:43-80 | the same start state, built from a store that is missing, fails to load, or loads its rows sorted |
| TodoApp.KeyString | update_handlers.go:46-125 | the name a key press reports, on which every handler switches: a typed character is its own name, so "k" typed is the key "k" |
| TodoApp.Model.Update | update_handlers.go:12-30 | a window message stores the width and clamps the input width; other non-key messages change neither the state nor the table; a key message has the full post-state of the mode's handler; the invariant holds |
| TodoApp.Model.HandleKeyPress | update_handlers.go:32-44 | the post-state and command of the handler of the current mode, and the invariant |
| TodoApp.Model.HandleNormalMode | update_handlers.go:46-80 | by the key's name: ctrl+c and q quit and change nothing; up/k and down/j give the post-state of the move; a and e that of starting an add or an edit; space that of the toggle and x that of the delete, table included; any other key changes nothing |
| TodoApp.Model.HandleInputMode | update_handlers.go:82-93 | by the key's name: esc gives the post-state of cancelling, enter that of confirming; any other key only edits the input value |
| TodoApp.Model.HandlePriorityPicker | update_handlers.go:95-107 | by the key's name: esc leaves; enter gives the post-state of confirming, table included; up/k/left/h rotate by -1 and down/j/right/l by 1; other keys change nothing |
| TodoApp.Model.HandleDatePicker | update_handlers.go:109-125 | by the key's name: esc leaves; enter gives the post-state of confirming, table included; left/h and right/l rotate the field; up/k and down/j adjust the date by +1 and -1; other keys change nothing |
| TodoApp.Model.MoveSelection | update_handlers.go:54-65 | the cursor moves when the target is on the list, and the selected id becomes the task under the cursor |
| TodoApp.Model.MoveCursor | update_handlers.go:129-134 | the cursor moves by delta when the target is on the list and stays otherwise; nothing else changes |
| TodoApp.Model.StartAddingItem | update_handlers.go:136-145 | title input in the add context, with an empty value, a fresh Medium draft and the add hint |
| TodoApp.Model.StartEditingItem | update_handlers.go:147-158 | on a non-empty list, title input in the edit context starting from the title under the cursor; nothing on an empty list |
| TodoApp.Model.ToggleCompletion | update_handlers.go:161-177 | the task under the cursor flips its done flag, the list is saved (sorted) and the cursor and selection follow that task; the table becomes the save's result and the status its report; nothing happens on an empty list |
| TodoApp.Model.ToggleAtCursor | update_handlers.go:161-177 | the toggle on a non-empty list: the flipped task is saved and found again, the table and status are the save's, and nothing else changes |
| TodoApp.Model.DeleteCurrentItem | update_handlers.go:180-205 | the state after the splice (`RemovedAt`), then the save: the list becomes its sort, the table the save's result and the status its report; nothing happens on an empty list |
| TodoApp.Model.RemoveAtCursor | update_handlers.go:185-202 | the splice leaves exactly the state `RemovedAt` describes, with the ids still distinct |
| TodoApp.Model.FindItemByID | update_handlers.go:208-229 | the cursor goes to the task with the id; failing that, to the first open task; failing that, to the first task; the selection follows; on an empty list nothing changes |
| TodoApp.Model.CancelInput | update_handlers.go:231-236 | back to normal mode with the status cleared; nothing else changes |
| TodoApp.Model.ConfirmInput | update_handlers.go:238-257 | a blank input only sets the empty-title message; otherwise the trimmed title goes to the draft (add) or to the task under the cursor (edit) and the priority picker opens |
| TodoApp.Model.StartPriorityPicker | update_handlers.go:259-264 | picker mode with the given context, initial priority and hint |
| TodoApp.Model.RotatePriority | update_handlers.go:266-270 | the picker's priority becomes its rotation; nothing else changes |
| TodoApp.Model.ConfirmPrioritySelection | update_handlers.go:272-291 | add: the draft takes the priority and the date picker opens on it; edit: the task takes the priority, is saved and found again, and the date picker opens on it |
| TodoApp.Model.SetPickedPriority | update_handlers.go:276-289 | the edit branch: the task keeps its id and takes the priority, the list is saved, and the date picker opens on the task wherever the sort put it |
| TodoApp.Model.StartDatePicker | update_handlers.go:293-305 | date mode on the hour field, starting from the task's deadline when it has one and from today at 17:00 otherwise |
| TodoApp.Model.RotateDateField | update_handlers.go:307-311 | the picker's field becomes its rotation; nothing else changes |
| TodoApp.Model.AdjustDate | update_handlers.go:313-328 | the picker's date becomes its adjustment on the focused field; nothing else changes |
| TodoApp.Model.ConfirmDateSelection | update_handlers.go:330-361 | add: the draft with the deadline is appended, saved and the last row selected; edit: the task takes the deadline, is saved and found again; then normal mode with the status cleared |
| TodoApp.Model.AddDraftTask | update_handlers.go:331-342 | the add branch: the draft with the picked deadline joins the list, the list is saved, the table and status are the save's, and the cursor goes to the last row |
| TodoApp.Model.SetPickedDeadline | update_handlers.go:343-355 | the edit branch: the task keeps its id and takes the deadline, the list is saved with the table and status the save's, and the task is found again |
| TodoApp.Model.ExitToNormalMode | update_handlers.go:363-368 | back to normal mode with the status cleared; the list, cursor and selection stay |
| TodoApp.Model.SaveChanges | update_handlers.go:370-378 | with a store the list is replaced by its sort, the status becomes the save's status and the table the save's result; without one nothing changes; the tasks and distinct ids are kept |
| TodoView.CountDone | view_components.go:37-42 | the count of done tasks never exceeds the number of tasks |
| TodoView.CountDoneExtremes | view_components.go:49-51 | the header reads n/n exactly when all tasks are done and 0/n exactly when none is |
| TodoView.CountDoneSnoc | view_components.go:37-42 | appending a task adds one to the count exactly when it is done |
| TodoView.InsertKeepsDoneCount | view_components.go:37-42 | an insertion step adds the inserted task's contribution to the count |
| TodoView.SortKeepsDoneCount | view_components.go:37-42 | a save's re-sort leaves the header count unchanged |
| TodoView.CountDoneLoop | view_components.go:37-42 | the counting loop computes the count of done tasks |
| TodoView.RenderRow | view_components.go:105-176 | the cells of one table row, the title cut in bytes as written; `RowCells` and `RowTitleFits` state what each cell shows |
| TodoView.RowCells | view_components.go:105-176 | the marker and highlight appear exactly on the selected task; the status is ✓ or ○; the priority label appears only for a named priority; the title is struck exactly when done; the dash appears exactly without a deadline; the overdue style appears exactly on an overdue task |
| TodoView.RowTitleFits | view_components.go:140-144 | the title cell is the cut as written: at most 38 bytes, the title's bytes unchanged when they fit, else the first 35 bytes and "..."; on an ASCII title it equals the corrected cut |
| TodoView.Rows | view_components.go:84-90 | one rendered row per task, in list order, each selected exactly when its id is the selected id; `AtMostOneSelectedRow` states that with distinct ids |
| TodoView.AtMostOneSelectedRow | view_components.go:84-90 | with distinct ids at most one row is highlighted, and one is exactly when the selected id is on the list |
| TodoView.RenderRows | view_components.go:84-90 | the row loop renders one row per task, in list order |
| TodoView.PickerEntries | view_components.go:204-220 | the picker lists P0, P1, P2 from the top, and a line is marked exactly when the picker holds its priority |
| TodoView.PickerMarksOnlyCurrent | view_components.go:208-217 | a named priority marks exactly one line; any other stored value marks none |
| TodoView.RenderPriorityPicker | view_components.go:204-220 | the picker loop produces those lines |
| TodoView.InteractiveArea | view_components.go:178-202 | the help line appears exactly in normal mode, the input exactly in title mode, and the picker shows the picker's priority |
| TodoView.Render | view_components.go:12-34 | the header counts the done tasks (`CountDone`) out of all of them; the empty state appears exactly for an empty list, otherwise one row per task; the status line appears exactly when it is non-empty |
| TodoView.View | view_components.go:12-34 | the view of the model's state is that screen |

## Left out

- Styling is not modelled. That covers the lipgloss colours, widths, borders, alignment and the joins that build the strings. A row records which style a cell gets, not its escape codes.
- The text widget's internals are not modelled: its cursor, placeholder, focus and blur, and its 200-character limit. The widget is its value and width; how a key changes the value is the parameter `env.edit`.
- The quit key's `storage.Close()` is not modelled, and neither are `tea.Quit` or the program loop. The quit key yields `QuitCmd` and changes no state.
- `NewStorage`, `dataFile`, `ensureDir`, `AutoMigrate` and `Close` are not modelled. They only touch the file system. Opening the store is an input to the constructor: a store, or an error text.
- The gorm `CreatedAt` and `UpdatedAt` timestamps are not modelled.
- `Storage.Load`: the SQL `ORDER BY` is not modelled. The rows come back in any order, which the sort that follows fixes up to ties.
- The failure statuses carry only their fixed prefix. The `": %v"` suffix holds the database's error text, which the model does not have. The store-init message keeps the error text, since the constructor is given it.
- `Time.Format`, the calendar arithmetic of `AddDate` and the date picker's text are not modelled. The date is an instant in seconds, the calendar step is the parameter `env.addDate`, and the date picker's view is its date and focused field.
- `generateID` is not modelled. Its UUID is the parameter `env.freshId`, which is required not to be on the list.
- `main` and `Init` are not modelled: they only start the bubbletea program.
- `time.Now()` is not modelled: it is the parameter `now`, and "today at 17:00" is `env.todayAt17`.
- `TodoTypes.StrLess` compares characters (code points), not bytes. For well-formed strings, Go's byte order on UTF-8 agrees with code-point order; this is used, not proved.
- TodoApp.NextPriorityInRange: the rotation reaches a named priority only when `p - delta + 3` is not negative. Go's `%` keeps the dividend's sign, so a stored priority of -3 steps down to -1, outside the range; a second step down, or a step up, lands on Medium (`NegativePriorityLeavesRangeOnce`).
- TodoApp.Model.DeleteCurrentItem: its contract does not promise that the selection stays on the task under the cursor after the save's re-sort. That holds only when the list was sorted before the delete, and it is stated as the lemma `DeleteFromSortedKeepsSelection`. On an unsorted list the selected id and the cursor can disagree after the save.
- TodoApp.Model.ConfirmPrioritySelection and TodoApp.Model.ConfirmDateSelection: the save's failure status is overwritten by the date hint and by "", as in the code. The contracts state that overwrite.
- One might expect tasks with tied deadlines to be ordered by title. The code compares titles only when neither task has a deadline, and the model follows the code (`EqualDeadlinesKeepInputOrder`).

## Findings

| source | as written | input that shows it | evidently intended | confidence | as-written member | corrected member |
|---|---|---|---|---|---|---|
| view_components.go:141-144 | a title over 38 bytes is cut to `title[:35] + "..."`: a byte slice of a UTF-8 string | thirteen times U+4E2D (39 bytes): byte 35 falls inside the twelfth character, so the cell holds broken UTF-8 | cut at a character boundary so the cell holds whole characters within 38 bytes | high, not executed | Text.TruncateTitleBytes, Text.ByteCutSplitsCharacter, Text.ChineseTitleIsCutMidCharacter, TodoView.RowTitleFits | Text.TruncateTitle, Text.TruncateTitleWellFormed, Text.CutsAgreeOnAscii |

The view keeps the cut as written, as the code does (`TodoView.RenderRow`,
`TodoView.RowTitleFits`). `Text.TruncateTitle` is the cut that was evidently
intended; `Text.CutsAgreeOnAscii` shows that on ASCII titles the two give the
same bytes, so the finding only shows on titles with multi-byte characters.
