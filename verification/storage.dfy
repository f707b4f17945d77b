/**
 * The SQLite table behind the list (storage.go): rows keyed by task id, the
 * full-list reconciliation of `Save` inside one transaction, and `Load`.
 * The table is a map from id to row; every database call that can fail
 * consults a failure oracle `fail: Step -> bool` supplied by the caller.
 */
module TodoStorage {
  import opened TodoTypes
  import opened TodoList

  /** A row of the `todo_models` table (`TodoModel`); the two timestamps are not modelled. */
  datatype Record = Record(
    id: string,
    title: string,
    done: bool,
    priority: int,
    hasDeadline: bool,
    deadline: Instant)

  /** `TodoModel.ToTodoItem`. */
  function ToTodoItem(r: Record): (item: TodoItem)
    ensures item.id == r.id
  {
    TodoItem(r.title, r.done, r.priority, r.hasDeadline, r.deadline, r.id)
  }

  /** `TodoItemToModel`. */
  function ItemToRecord(item: TodoItem): (r: Record)
    ensures r.id == item.id
  {
    Record(item.id, item.title, item.done, item.priority, item.hasDeadline, item.deadline)
  }

  /** Converting a task to a row and back gives the task back, field for field. */
  lemma ItemRecordRoundTrip(item: TodoItem)
    ensures ToTodoItem(ItemToRecord(item)) == item
  {
  }

  /** Converting a row to a task and back gives the row back. */
  lemma RecordItemRoundTrip(r: Record)
    ensures ItemToRecord(ToTodoItem(r)) == r
  {
  }

  /**
   * The `Updates` of an existing row: the five mutable columns take the task's
   * values and the key stays. On the task's own row this is the task's record.
   */
  function UpdateColumns(r: Record, item: TodoItem): (u: Record)
    ensures u.id == r.id
    ensures r.id == item.id ==> u == ItemToRecord(item)
  {
    r.(title := item.title, done := item.done, priority := item.priority,
       hasDeadline := item.hasDeadline, deadline := item.deadline)
  }

  /** `id` is the primary key: every row is stored under its own id. */
  predicate KeyedById(m: map<string, Record>)
  {
    forall k :: k in m ==> m[k].id == k
  }

  // ---------------------------------------------------------------------------
  // What a successful Save leaves in the table

  /**
   * The rows after writing `items` one after the other: each task updates the
   * row of its id or creates it, so the last task with a given id wins.
   */
  function Written(items: seq<TodoItem>): (m: map<string, Record>)
    ensures m.Keys == IdSet(items)
    ensures KeyedById(m)
    decreases |items|
  {
    if |items| == 0 then map[]
    else
      var init, last := items[..|items| - 1], items[|items| - 1];
      assert items == init + [last];
      assert IdSet(items) == IdSet(init) + {last.id};
      Written(init)[last.id := ItemToRecord(last)]
  }

  /** The row of an id holds the fields of the last task carrying that id. */
  lemma {:induction false} LastOccurrenceWins(items: seq<TodoItem>, i: nat)
    requires i < |items|
    requires forall j :: i < j < |items| ==> items[j].id != items[i].id
    ensures items[i].id in Written(items)
    ensures Written(items)[items[i].id] == ItemToRecord(items[i])
    decreases |items|
  {
    if i < |items| - 1 {
      LastOccurrenceWins(items[..|items| - 1], i);
    }
  }

  /** With distinct ids, every task is stored as it is. */
  lemma UniqueItemsAreStored(items: seq<TodoItem>, x: TodoItem)
    requires UniqueIds(items) && x in items
    ensures x.id in Written(items) && Written(items)[x.id] == ItemToRecord(x)
  {
    var i :| 0 <= i < |items| && items[i] == x;
    LastOccurrenceWins(items, i);
  }

  /** Two tasks with one id end as a single row holding the second one's fields. */
  lemma DuplicateIdKeepsLast(a: TodoItem, b: TodoItem)
    requires a.id == b.id
    ensures Written([a, b]).Keys == {a.id}
    ensures Written([a, b])[a.id] == ItemToRecord(b)
  {
    LastOccurrenceWins([a, b], 1);
    assert IdSet([a, b]) == {a.id};
  }

  // ---------------------------------------------------------------------------
  // The status string of Save

  /**
   * The database calls of one `Save` that can fail. `Count(i)` is the query
   * for a row with the i-th task's id, `Write(i)` the update or create of
   * that task.
   */
  datatype Step = Begin | Pluck | Delete(id: string) | Count(index: nat) | Write(index: nat) | Commit

  const BeginFailed := "开始事务失败"
  const PluckFailed := "查询现有数据失败"
  const DeleteFailed := "删除项目失败"
  const UpdateFailed := "更新项目失败"
  const CreateFailed := "创建项目失败"
  const CommitFailed := "提交事务失败"
  const LoadFailed := "加载失败"

  /** Before task `j` is written, a row with its id exists: it was stored and kept, or an earlier task created it. */
  predicate RowStored(existing: set<string>, items: seq<TodoItem>, j: nat)
    requires j < |items|
  {
    items[j].id in existing || items[j].id in IdSet(items[..j])
  }

  /**
   * The row of task `j` is found, and so updated rather than created: it
   * exists and the count query succeeds. The count's error is ignored, so a
   * failing count reads as 0.
   */
  predicate RowFound(existing: set<string>, items: seq<TodoItem>, fail: Step -> bool, j: nat)
    requires j < |items|
  {
    RowStored(existing, items, j) && !fail(Count(j))
  }

  /**
   * Writing task `j` fails: the call itself fails, or its row exists but was
   * not found, and the create then hits the primary key.
   */
  predicate WriteFails(existing: set<string>, items: seq<TodoItem>, fail: Step -> bool, j: nat)
    requires j < |items|
  {
    fail(Write(j)) || (RowStored(existing, items, j) && !RowFound(existing, items, fail, j))
  }

  /**
   * The status of the write loop from task `i` on: the first failing write
   * reports an update failure when its row was found, a create failure
   * otherwise.
   */
  function WriteStatus(existing: set<string>, items: seq<TodoItem>, fail: Step -> bool, i: nat): string
    decreases |items| - i
  {
    if i >= |items| then ""
    else if WriteFails(existing, items, fail, i) then
      if RowFound(existing, items, fail, i) then UpdateFailed else CreateFailed
    else WriteStatus(existing, items, fail, i + 1)
  }

  /** Some stored id that is no longer in the list fails to be deleted. */
  predicate DeleteFails(existing: set<string>, items: seq<TodoItem>, fail: Step -> bool)
  {
    exists id :: id in existing && id !in IdSet(items) && fail(Delete(id))
  }

  /** The string `Save` returns for the stored ids `existing`, the sorted list and the failures. */
  function SaveStatus(existing: set<string>, items: seq<TodoItem>, fail: Step -> bool): string
  {
    if fail(Begin) then BeginFailed
    else if fail(Pluck) then PluckFailed
    else if DeleteFails(existing, items, fail) then DeleteFailed
    else if WriteStatus(existing, items, fail, 0) != "" then WriteStatus(existing, items, fail, 0)
    else if fail(Commit) then CommitFailed
    else ""
  }

  /** The rows after a Save of the sorted list: all of it written on success, the old rows after a rollback. */
  function StoreAfter(before: map<string, Record>, sorted: seq<TodoItem>, fail: Step -> bool): (m: map<string, Record>)
    ensures SaveStatus(before.Keys, sorted, fail) == "" ==> m.Keys == IdSet(sorted)
    ensures SaveStatus(before.Keys, sorted, fail) != "" ==> m == before
  {
    if SaveStatus(before.Keys, sorted, fail) == "" then Written(sorted) else before
  }

  lemma {:induction false} WriteStatusEmptyIff(existing: set<string>, items: seq<TodoItem>, fail: Step -> bool, i: nat)
    ensures WriteStatus(existing, items, fail, i) == "" <==>
      forall j :: i <= j < |items| ==> !WriteFails(existing, items, fail, j)
    decreases |items| - i
  {
    if i < |items| && !WriteFails(existing, items, fail, i) {
      WriteStatusEmptyIff(existing, items, fail, i + 1);
    }
  }

  /**
   * Save reports success exactly when none of the calls it makes fails, and
   * no count of a row that exists fails (which would send the task down the
   * create path into the primary key).
   */
  lemma SaveStatusEmptyIff(existing: set<string>, items: seq<TodoItem>, fail: Step -> bool)
    ensures SaveStatus(existing, items, fail) == "" <==>
      && !fail(Begin) && !fail(Pluck)
      && (forall id :: id in existing && id !in IdSet(items) ==> !fail(Delete(id)))
      && (forall j :: 0 <= j < |items| ==> !fail(Write(j)))
      && (forall j :: 0 <= j < |items| && RowStored(existing, items, j) ==> !fail(Count(j)))
      && !fail(Commit)
  {
    WriteStatusEmptyIff(existing, items, fail, 0);
    if forall j :: 0 <= j < |items| ==> !WriteFails(existing, items, fail, j) {
      forall j | 0 <= j < |items|
        ensures !fail(Write(j)) && (RowStored(existing, items, j) ==> !fail(Count(j)))
      {
        assert !WriteFails(existing, items, fail, j);
      }
    }
  }

  /** Whatever fails, the status names the first failing write of the loop. */
  lemma {:induction false} FailedWriteIsReported(existing: set<string>, items: seq<TodoItem>, fail: Step -> bool, i: nat)
    requires i < |items| && WriteFails(existing, items, fail, i)
    requires forall j :: 0 <= j < i ==> !WriteFails(existing, items, fail, j)
    ensures WriteStatus(existing, items, fail, 0) ==
      if RowFound(existing, items, fail, i) then UpdateFailed else CreateFailed
  {
    WriteStatusSkips(existing, items, fail, 0, i);
  }

  /**
   * The ignored error of the count: when the count of a stored task's row
   * fails, the first such task makes Save report a failed create, even though
   * no write call failed.
   */
  lemma FailedCountOfStoredRowReportsCreate(existing: set<string>, items: seq<TodoItem>, fail: Step -> bool, i: nat)
    requires i < |items| && items[i].id in existing && fail(Count(i))
    requires forall j :: 0 <= j < i ==> !WriteFails(existing, items, fail, j)
    ensures WriteStatus(existing, items, fail, 0) == CreateFailed
  {
    FailedWriteIsReported(existing, items, fail, i);
  }

  lemma {:induction false} WriteStatusSkips(existing: set<string>, items: seq<TodoItem>, fail: Step -> bool, i: nat, k: nat)
    requires i <= k <= |items|
    requires forall j :: i <= j < k ==> !WriteFails(existing, items, fail, j)
    ensures WriteStatus(existing, items, fail, i) == WriteStatus(existing, items, fail, k)
    decreases k - i
  {
    if i < k {
      WriteStatusSkips(existing, items, fail, i + 1, k);
    }
  }

  // ---------------------------------------------------------------------------
  // What Load reads back

  /** `rows` holds every row of `m` once, as tasks, in some order. */
  predicate RowsOf(m: map<string, Record>, rows: seq<TodoItem>)
  {
    && UniqueIds(rows)
    && IdSet(rows) == m.Keys
    && forall i :: 0 <= i < |rows| ==> rows[i].id in m && rows[i] == ToTodoItem(m[rows[i].id])
  }

  /** Sorting the rows read back gives rows of the same table. */
  lemma SortedRowsAreRows(m: map<string, Record>, rows: seq<TodoItem>)
    requires RowsOf(m, rows)
    ensures RowsOf(m, SortTodos(rows)) && Sorted(SortTodos(rows))
  {
    var r := SortTodos(rows);
    SortKeepsIdsUnique(rows);
    SortPermutation(rows);
    SortSorted(rows);
    forall x | x in r
      ensures x in rows
    {
      assert x in multiset(r);
    }
    forall x | x in rows
      ensures x in r
    {
      assert x in multiset(rows);
    }
    forall i | 0 <= i < |r|
      ensures r[i].id in m && r[i] == ToTodoItem(m[r[i].id])
    {
      assert r[i] in rows;
    }
  }

  /** A sequence with distinct ids holds each task at most once. */
  lemma {:induction false} UniqueIdsNoRepeats(s: seq<TodoItem>, x: TodoItem)
    requires UniqueIds(s)
    ensures multiset(s)[x] <= 1
    decreases |s|
  {
    if |s| > 0 {
      var init, last := s[..|s| - 1], s[|s| - 1];
      assert s == init + [last];
      UniqueIdsNoRepeats(init, x);
      forall j | 0 <= j < |init|
        ensures init[j] != last
      {
        assert s[j].id != s[|s| - 1].id;
      }
      assert last !in init;
    }
  }

  /** Reading back the rows written from a list with distinct ids gives the same tasks. */
  lemma RowsOfWrittenArePermutation(items: seq<TodoItem>, rows: seq<TodoItem>)
    requires UniqueIds(items)
    requires RowsOf(Written(items), rows)
    ensures multiset(rows) == multiset(items)
  {
    var m := Written(items);
    forall x
      ensures multiset(rows)[x] == multiset(items)[x]
    {
      UniqueIdsNoRepeats(rows, x);
      UniqueIdsNoRepeats(items, x);
      if x in rows {
        var i :| 0 <= i < |rows| && rows[i] == x;
        assert x.id in IdSet(items);
        var y :| y in items && y.id == x.id;
        UniqueItemsAreStored(items, y);
        ItemRecordRoundTrip(y);
      }
      if x in items {
        UniqueItemsAreStored(items, x);
        assert x.id in IdSet(rows);
        var z :| z in rows && z.id == x.id;
        ItemRecordRoundTrip(x);
      }
    }
  }

  /**
   * Load after a successful Save of `items` (distinct ids): the same tasks come
   * back in canonical order, and exactly the list sorted once when no two
   * different tasks tie under the comparator. Tied tasks may come back in the
   * order in which the query returned them.
   */
  lemma LoadAfterSave(items: seq<TodoItem>, rows: seq<TodoItem>)
    requires UniqueIds(items)
    requires RowsOf(Written(SortTodos(items)), rows)
    ensures multiset(SortTodos(rows)) == multiset(items)
    ensures Sorted(SortTodos(rows))
    ensures TieFree(items) ==> SortTodos(rows) == SortTodos(items)
  {
    SortKeepsIdsUnique(items);
    RowsOfWrittenArePermutation(SortTodos(items), rows);
    SortPermutation(items);
    SortPermutation(rows);
    SortSorted(rows);
    SortSorted(items);
    if TieFree(items) {
      var a, b := SortTodos(rows), SortTodos(items);
      assert TieFree(a) by {
        forall x, y | x in a && y in a && Equiv(x, y)
          ensures x == y
        {
          assert x in multiset(a) && y in multiset(a);
          assert x in items && y in items;
        }
      }
      SortedPermutationsAgree(a, b);
    }
  }

  // ---------------------------------------------------------------------------
  // The three loops of Save

  /** The `savingIDs` set: the ids of the list. */
  method CollectIds(items: seq<TodoItem>) returns (ids: set<string>)
    ensures ids == IdSet(items)
  {
    ids := {};
    var i := 0;
    while i < |items|
      invariant 0 <= i <= |items|
      invariant ids == IdSet(items[..i])
    {
      assert items[..i + 1] == items[..i] + [items[i]];
      assert IdSet(items[..i + 1]) == IdSet(items[..i]) + {items[i].id};
      ids := ids + {items[i].id};
      i := i + 1;
    }
    assert items[..|items|] == items;
  }

  /**
   * Deletes, in the transaction `tx`, every stored row whose id is not in
   * `saving`, in an order the model does not fix, stopping at the first
   * failing delete.
   */
  method DeleteStale(tx: map<string, Record>, saving: set<string>, fail: Step -> bool)
    returns (kept: map<string, Record>, failed: bool)
    ensures failed <==> exists id :: id in tx && id !in saving && fail(Delete(id))
    ensures !failed ==> kept == map k | k in tx && k in saving :: tx[k]
  {
    kept := tx;
    var left := tx.Keys;
    while left != {}
      invariant left <= tx.Keys
      invariant kept == map k | k in tx && (k in left || k in saving) :: tx[k]
      invariant forall id :: id in tx && id !in left && id !in saving ==> !fail(Delete(id))
      decreases left
    {
      var id :| id in left;
      if id !in saving {
        if fail(Delete(id)) {
          return kept, true;
        }
        kept := map k | k in kept && k != id :: kept[k];
      }
      left := left - {id};
    }
    failed := false;
  }

  /** Writing task `i` into the rows of the first `i` tasks gives the rows of the first `i + 1`. */
  lemma WrittenStep(kept: map<string, Record>, items: seq<TodoItem>, i: nat)
    requires i < |items|
    ensures kept + Written(items[..i + 1]) == (kept + Written(items[..i]))[items[i].id := ItemToRecord(items[i])]
  {
    assert items[..i + 1][..i] == items[..i];
  }

  /** Before task `i` is written, its row is in the transaction exactly when it was kept or an earlier task created it. */
  lemma RowExistsBeforeWrite(kept: map<string, Record>, existing: set<string>, items: seq<TodoItem>, i: nat)
    requires kept.Keys == existing * IdSet(items) && i < |items|
    ensures items[i].id in kept + Written(items[..i]) <==> RowStored(existing, items, i)
  {
    assert items[i].id in IdSet(items);
  }

  /** The row found for task `i` carries its id. */
  lemma RowHasTaskId(kept: map<string, Record>, items: seq<TodoItem>, i: nat)
    requires KeyedById(kept) && i < |items|
    requires items[i].id in kept + Written(items[..i])
    ensures (kept + Written(items[..i]))[items[i].id].id == items[i].id
  {
  }

  /**
   * In the transaction `tx`, the write of task `i` fails when the call fails
   * or when a create meets a row already there; it is reported as a failed
   * update when the count found the row, a failed create otherwise.
   */
  lemma FailedWriteStatus(kept: map<string, Record>, existing: set<string>, items: seq<TodoItem>, fail: Step -> bool,
                          i: nat, tx: map<string, Record>)
    requires kept.Keys == existing * IdSet(items) && i < |items|
    requires tx == kept + Written(items[..i])
    ensures WriteFails(existing, items, fail, i) <==> fail(Write(i)) || (items[i].id in tx && fail(Count(i)))
    ensures WriteFails(existing, items, fail, i) ==>
      WriteStatus(existing, items, fail, i) == if items[i].id in tx && !fail(Count(i)) then UpdateFailed else CreateFailed
  {
    RowExistsBeforeWrite(kept, existing, items, i);
  }

  /** Writing task `i`'s row extends the transaction by one task. */
  lemma WriteExtends(kept: map<string, Record>, items: seq<TodoItem>, i: nat, tx: map<string, Record>, row: Record)
    requires i < |items| && tx == kept + Written(items[..i]) && row == ItemToRecord(items[i])
    ensures tx[items[i].id := row] == kept + Written(items[..i + 1])
  {
    WrittenStep(kept, items, i);
  }

  /**
   * One turn of the write loop: counts the rows with task `i`'s id in the
   * transaction `tx` (a failing count is ignored and leaves 0), updates the
   * row when one was counted, creates it otherwise. A create under an id that
   * is already there fails on the primary key.
   */
  method WriteRow(kept: map<string, Record>, existing: set<string>, items: seq<TodoItem>, fail: Step -> bool,
                  i: nat, tx: map<string, Record>)
    returns (tx': map<string, Record>, status: string)
    requires KeyedById(kept) && kept.Keys == existing * IdSet(items) && i < |items|
    requires tx == kept + Written(items[..i])
    ensures status != "" ==> status == WriteStatus(existing, items, fail, i)
    ensures status == "" ==> WriteStatus(existing, items, fail, i) == WriteStatus(existing, items, fail, i + 1)
    ensures status == "" ==> tx' == kept + Written(items[..i + 1])
  {
    var item := items[i];
    FailedWriteStatus(kept, existing, items, fail, i, tx);
    var count := 0;
    if !fail(Count(i)) {
      count := if item.id in tx then 1 else 0;
    }
    var row;
    if count > 0 {
      if fail(Write(i)) {
        return tx, UpdateFailed;
      }
      RowHasTaskId(kept, items, i);
      row := UpdateColumns(tx[item.id], item);
    } else {
      if fail(Write(i)) || item.id in tx {
        return tx, CreateFailed;
      }
      row := ItemToRecord(item);
    }
    WriteExtends(kept, items, i, tx, row);
    tx' := tx[item.id := row];
    status := "";
  }

  /**
   * Updates or creates, in the transaction, one row per task in list order,
   * stopping at the first failing write. `existing` are the ids stored before
   * the transaction; `kept` the rows left after the deletes.
   */
  method WriteAll(kept: map<string, Record>, existing: set<string>, items: seq<TodoItem>, fail: Step -> bool)
    returns (tx: map<string, Record>, status: string)
    requires KeyedById(kept)
    requires kept.Keys == existing * IdSet(items)
    ensures status == WriteStatus(existing, items, fail, 0)
    ensures status == "" ==> tx == kept + Written(items)
  {
    tx := kept;
    var i := 0;
    while i < |items|
      invariant 0 <= i <= |items|
      invariant tx == kept + Written(items[..i])
      invariant WriteStatus(existing, items, fail, 0) == WriteStatus(existing, items, fail, i)
    {
      var st;
      tx, st := WriteRow(kept, existing, items, fail, i, tx);
      if st != "" {
        return tx, st;
      }
      i := i + 1;
    }
    status := "";
    assert items[..|items|] == items;
  }

  // ---------------------------------------------------------------------------
  // The store

  class Storage {
    /** The rows of the table, by id. */
    var records: map<string, Record>

    predicate Valid()
      reads this
    {
      KeyedById(records)
    }

    constructor(rows: map<string, Record>)
      requires KeyedById(rows)
      ensures records == rows && Valid()
    {
      records := rows;
    }

    /**
     * `Storage.Load`. The query returns the rows in an order the model does not
     * fix (`rows`); they are converted and then sorted. A failing query gives an
     * empty list and the failure status.
     */
    method Load(queryFails: bool) returns (items: seq<TodoItem>, status: string, ghost rows: seq<TodoItem>)
      requires Valid()
      ensures queryFails ==> items == [] && status == LoadFailed
      ensures !queryFails ==> status == "" && RowsOf(records, rows) && items == SortTodos(rows)
      ensures !queryFails ==> Sorted(items) && RowsOf(records, items)
    {
      if queryFails {
        return [], LoadFailed, [];
      }
      var found: seq<TodoItem> := [];
      var left := records.Keys;
      while left != {}
        invariant left <= records.Keys
        invariant UniqueIds(found)
        invariant IdSet(found) == records.Keys - left
        invariant forall i :: 0 <= i < |found| ==> found[i].id in records && found[i] == ToTodoItem(records[found[i].id])
        decreases left
      {
        var id :| id in left;
        var row := ToTodoItem(records[id]);
        assert IdSet(found + [row]) == IdSet(found) + {id};
        found := found + [row];
        left := left - {id};
      }
      rows := found;
      items := SortList(found);
      status := "";
      SortedRowsAreRows(records, found);
    }

    /**
     * `Storage.Save`: sorts the caller's list (returned as `sorted`, which the
     * caller's slice shares), then, in one transaction, deletes the stored rows
     * whose id is not in the list and updates or creates a row per task. Any
     * failing call rolls the transaction back.
     */
    method Save(items: seq<TodoItem>, fail: Step -> bool) returns (sorted: seq<TodoItem>, status: string)
      requires Valid()
      modifies this
      ensures Valid()
      ensures sorted == SortTodos(items)
      ensures status == SaveStatus(old(records).Keys, sorted, fail)
      ensures records == StoreAfter(old(records), sorted, fail)
    {
      sorted := SortList(items);
      if fail(Begin) {
        return sorted, BeginFailed;
      }
      if fail(Pluck) {
        return sorted, PluckFailed;
      }
      var existing := records.Keys;
      var saving := CollectIds(sorted);
      var kept, deleteFailed := DeleteStale(records, saving, fail);
      if deleteFailed {
        assert DeleteFails(existing, sorted, fail);
        return sorted, DeleteFailed;
      }
      assert !DeleteFails(existing, sorted, fail);
      var tx, writeStatus := WriteAll(kept, existing, sorted, fail);
      if writeStatus != "" {
        return sorted, writeStatus;
      }
      if fail(Commit) {
        return sorted, CommitFailed;
      }
      assert tx == Written(sorted);
      records := tx;
      status := "";
    }
  }
}
