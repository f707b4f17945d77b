/** `TodoList.Sort` (types.go): a stable sort by the canonical comparator, and list-level facts. */
module TodoList {
  import opened TodoTypes

  /** No item has to precede an item that stands before it. */
  predicate Sorted(s: seq<TodoItem>)
  {
    forall i, j :: 0 <= i < j < |s| ==> !Less(s[j], s[i])
  }

  /** Task IDs in the list are pairwise distinct. */
  predicate UniqueIds(s: seq<TodoItem>)
  {
    forall i, j :: 0 <= i < j < |s| ==> s[i].id != s[j].id
  }

  function IdSet(s: seq<TodoItem>): set<string>
  {
    set x | x in s :: x.id
  }

  /** No two different items of the list are left in input order by the comparator. */
  ghost predicate TieFree(s: seq<TodoItem>)
  {
    forall x, y :: x in s && y in s && Equiv(x, y) ==> x == y
  }

  /**
   * Inserts `x` behind a sorted prefix the way an insertion sort does: `x` moves
   * left only past items it must precede, so it stays behind its equals.
   */
  function Insert(s: seq<TodoItem>, x: TodoItem): seq<TodoItem>
    decreases |s|
  {
    if |s| == 0 then [x]
    else if Less(x, s[|s| - 1]) then Insert(s[..|s| - 1], x) + [s[|s| - 1]]
    else s + [x]
  }

  /** The list in canonical order, as `sort.SliceStable` with the comparator leaves it. */
  function SortTodos(s: seq<TodoItem>): seq<TodoItem>
    decreases |s|
  {
    if |s| == 0 then [] else Insert(SortTodos(s[..|s| - 1]), s[|s| - 1])
  }

  // ---------------------------------------------------------------------------
  // Permutation

  lemma {:induction false} InsertPermutation(s: seq<TodoItem>, x: TodoItem)
    ensures multiset(Insert(s, x)) == multiset(s) + multiset{x}
    decreases |s|
  {
    if |s| > 0 && Less(x, s[|s| - 1]) {
      InsertPermutation(s[..|s| - 1], x);
      assert s == s[..|s| - 1] + [s[|s| - 1]];
    }
  }

  /** Sorting keeps the same items with the same multiplicity. */
  lemma {:induction false} SortPermutation(s: seq<TodoItem>)
    ensures multiset(SortTodos(s)) == multiset(s)
    decreases |s|
  {
    if |s| > 0 {
      SortPermutation(s[..|s| - 1]);
      InsertPermutation(SortTodos(s[..|s| - 1]), s[|s| - 1]);
      assert s == s[..|s| - 1] + [s[|s| - 1]];
    }
  }

  // ---------------------------------------------------------------------------
  // Sortedness

  lemma {:induction false} InsertSorted(s: seq<TodoItem>, x: TodoItem)
    requires Sorted(s)
    ensures Sorted(Insert(s, x))
    decreases |s|
  {
    if |s| == 0 {
    } else if Less(x, s[|s| - 1]) {
      var init, last := s[..|s| - 1], s[|s| - 1];
      InsertSorted(init, x);
      InsertPermutation(init, x);
      var r := Insert(init, x);
      forall k | 0 <= k < |r|
        ensures !Less(last, r[k])
      {
        assert r[k] in multiset(r);
        if r[k] == x {
          LessAsymmetric(x, last);
        } else {
          assert r[k] in init;
        }
      }
    } else {
      forall k | 0 <= k < |s|
        ensures !Less(x, s[k])
      {
        if k < |s| - 1 {
          NotLessTransitive(s[k], s[|s| - 1], x);
        }
      }
    }
  }

  /** After sorting, no item has to precede one that stands before it. */
  lemma {:induction false} SortSorted(s: seq<TodoItem>)
    ensures Sorted(SortTodos(s))
    decreases |s|
  {
    if |s| > 0 {
      SortSorted(s[..|s| - 1]);
      InsertSorted(SortTodos(s[..|s| - 1]), s[|s| - 1]);
    }
  }

  /**
   * The five keys of the comparator, read off the sorted list: for any two
   * positions i < j, the keys of position i are not behind those of position j.
   */
  lemma SortOrdersByKeys(s: seq<TodoItem>)
    ensures forall i, j :: 0 <= i < j < |SortTodos(s)| ==>
      var a, b := SortTodos(s)[i], SortTodos(s)[j];
      && (a.done ==> b.done)
      && (a.done == b.done ==> a.priority >= b.priority)
      && (a.done == b.done && a.priority == b.priority && b.hasDeadline ==> a.hasDeadline)
      && (a.done == b.done && a.priority == b.priority && a.hasDeadline && b.hasDeadline ==>
            a.deadline <= b.deadline)
      && (a.done == b.done && a.priority == b.priority && !a.hasDeadline && !b.hasDeadline ==>
            !StrLess(b.title, a.title))
  {
    SortSorted(s);
  }

  // ---------------------------------------------------------------------------
  // Stability

  /** The items of `s` the comparator cannot tell apart from `e`, in their order in `s`. */
  function Class(s: seq<TodoItem>, e: TodoItem): seq<TodoItem>
    decreases |s|
  {
    if |s| == 0 then []
    else Class(s[..|s| - 1], e) + (if Equiv(s[|s| - 1], e) then [s[|s| - 1]] else [])
  }

  lemma {:induction false} ClassMembers(s: seq<TodoItem>, e: TodoItem, x: TodoItem)
    ensures x in Class(s, e) <==> x in s && Equiv(x, e)
    decreases |s|
  {
    if |s| > 0 {
      ClassMembers(s[..|s| - 1], e, x);
      assert s == s[..|s| - 1] + [s[|s| - 1]];
    }
  }

  lemma ClassSnoc(s: seq<TodoItem>, y: TodoItem, e: TodoItem)
    ensures Class(s + [y], e) == Class(s, e) + (if Equiv(y, e) then [y] else [])
  {
    assert (s + [y])[..|s + [y]| - 1] == s;
  }

  lemma {:induction false} InsertClass(s: seq<TodoItem>, x: TodoItem, e: TodoItem)
    ensures Class(Insert(s, x), e) == Class(s, e) + (if Equiv(x, e) then [x] else [])
    decreases |s|
  {
    if |s| == 0 {
      ClassSnoc([], x, e);
      assert [] + [x] == [x];
    } else if Less(x, s[|s| - 1]) {
      var init, last := s[..|s| - 1], s[|s| - 1];
      var r := Insert(init, x);
      assert Insert(s, x) == r + [last];
      assert s == init + [last];
      InsertClass(init, x, e);
      ClassSnoc(r, last, e);
      ClassSnoc(init, last, e);
      if Equiv(x, e) && Equiv(last, e) {
        EquivTransitive(x, e, last);
        assert false;
      }
    } else {
      ClassSnoc(s, x, e);
    }
  }

  /** Sorting keeps every class of mutually equivalent items in its input order. */
  lemma {:induction false} SortStable(s: seq<TodoItem>, e: TodoItem)
    ensures Class(SortTodos(s), e) == Class(s, e)
    decreases |s|
  {
    if |s| > 0 {
      SortStable(s[..|s| - 1], e);
      InsertClass(SortTodos(s[..|s| - 1]), s[|s| - 1], e);
    }
  }

  /**
   * A sorted list is determined by its classes: two sorted lists that agree on
   * the order within every class of equivalent items are the same list.
   */
  lemma {:induction false} SortedByClassesUnique(a: seq<TodoItem>, b: seq<TodoItem>)
    requires Sorted(a) && Sorted(b)
    requires forall e :: Class(a, e) == Class(b, e)
    ensures a == b
    decreases |a|
  {
    if |a| == 0 && |b| == 0 {
      return;
    }
    if |a| == 0 {
      var y := b[|b| - 1];
      LessIrreflexive(y);
      ClassMembers(b, y, y);
      ClassMembers(a, y, y);
      assert false;
    }
    if |b| == 0 {
      var x := a[|a| - 1];
      LessIrreflexive(x);
      ClassMembers(a, x, x);
      ClassMembers(b, x, x);
      assert false;
    }
    var xa, xb := a[|a| - 1], b[|b| - 1];
    var a', b' := a[..|a| - 1], b[..|b| - 1];
    SortedClassesShareLast(a, b);
    DropLastKeepsClasses(a, b, a', b');
    SortedByClassesUnique(a', b');
    assert a == a' + [xa] && b == b' + [xb];
  }

  /** In two non-empty sorted lists with the same classes, neither last item has to precede the other. */
  lemma SortedClassesLastEquivalent(a: seq<TodoItem>, b: seq<TodoItem>)
    requires Sorted(a) && Sorted(b) && |a| > 0 && |b| > 0
    requires forall e :: Class(a, e) == Class(b, e)
    ensures Equiv(a[|a| - 1], b[|b| - 1])
  {
    var xa, xb := a[|a| - 1], b[|b| - 1];
    LessIrreflexive(xa);
    LessIrreflexive(xb);
    // xa occurs in b, so xb, the last item of b, need not precede it
    ClassMembers(a, xa, xa);
    ClassMembers(b, xa, xa);
    var k :| 0 <= k < |b| && b[k] == xa;
    assert !Less(xb, xa) by {
      if k < |b| - 1 {
        assert !Less(b[|b| - 1], b[k]);
      }
    }
    // and symmetrically xb occurs in a
    ClassMembers(b, xb, xb);
    ClassMembers(a, xb, xb);
    var l :| 0 <= l < |a| && a[l] == xb;
    assert !Less(xa, xb) by {
      if l < |a| - 1 {
        assert !Less(a[|a| - 1], a[l]);
      }
    }
  }

  /** Two non-empty sorted lists with the same classes end in the same item. */
  lemma SortedClassesShareLast(a: seq<TodoItem>, b: seq<TodoItem>)
    requires Sorted(a) && Sorted(b) && |a| > 0 && |b| > 0
    requires forall e :: Class(a, e) == Class(b, e)
    ensures a[|a| - 1] == b[|b| - 1]
  {
    var xa, xb := a[|a| - 1], b[|b| - 1];
    var a', b' := a[..|a| - 1], b[..|b| - 1];
    SortedClassesLastEquivalent(a, b);
    LessIrreflexive(xa);
    // both classes of xa end in the last item of their list
    assert Class(a, xa) == Class(a', xa) + [xa];
    assert Class(b, xa) == Class(b', xa) + [xb];
    assert Class(a, xa)[|Class(a, xa)| - 1] == xa;
    assert Class(b, xa)[|Class(b, xa)| - 1] == xb;
  }

  /** Dropping the same last item from two lists with the same classes leaves lists with the same classes. */
  lemma DropLastKeepsClasses(a: seq<TodoItem>, b: seq<TodoItem>, a': seq<TodoItem>, b': seq<TodoItem>)
    requires |a| > 0 && |b| > 0 && a[|a| - 1] == b[|b| - 1]
    requires a' == a[..|a| - 1] && b' == b[..|b| - 1]
    requires forall e :: Class(a, e) == Class(b, e)
    ensures forall e :: Class(a', e) == Class(b', e)
  {
    var x := a[|a| - 1];
    forall e
      ensures Class(a', e) == Class(b', e)
    {
      assert Class(a, e) == Class(b, e);
      if Equiv(x, e) {
        assert Class(a, e) == Class(a', e) + [x];
        assert Class(b, e) == Class(b', e) + [x];
        assert Class(a', e) == Class(a, e)[..|Class(a, e)| - 1];
        assert Class(b', e) == Class(b, e)[..|Class(b, e)| - 1];
      } else {
        assert Class(a, e) == Class(a', e) + [] == Class(a', e);
        assert Class(b, e) == Class(b', e) + [] == Class(b', e);
      }
    }
  }

  /**
   * Whatever stable sorting algorithm runs (Go's `sort.SliceStable` merges
   * insertion-sorted blocks), a sorted result that keeps every class of equivalent
   * items in input order is exactly `SortTodos`.
   */
  lemma StableSortIsUnique(s: seq<TodoItem>, r: seq<TodoItem>)
    requires Sorted(r)
    requires forall e :: Class(r, e) == Class(s, e)
    ensures r == SortTodos(s)
  {
    SortSorted(s);
    forall e
      ensures Class(r, e) == Class(SortTodos(s), e)
    {
      SortStable(s, e);
    }
    SortedByClassesUnique(r, SortTodos(s));
  }

  // ---------------------------------------------------------------------------
  // Idempotence

  /** Sorting a list that is already in canonical order changes nothing. */
  lemma {:induction false} SortedIsFixpoint(s: seq<TodoItem>)
    requires Sorted(s)
    ensures SortTodos(s) == s
    decreases |s|
  {
    if |s| > 0 {
      var init := s[..|s| - 1];
      assert Sorted(init);
      SortedIsFixpoint(init);
      assert s == init + [s[|s| - 1]];
    }
  }

  lemma SortIdempotent(s: seq<TodoItem>)
    ensures SortTodos(SortTodos(s)) == SortTodos(s)
  {
    SortSorted(s);
    SortedIsFixpoint(SortTodos(s));
  }

  /** Removing one item of a sorted list leaves it sorted. */
  lemma SortedRemove(s: seq<TodoItem>, k: nat)
    requires Sorted(s) && k < |s|
    ensures Sorted(s[..k] + s[k + 1..])
  {
    var r := s[..k] + s[k + 1..];
    forall i, j | 0 <= i < j < |r|
      ensures !Less(r[j], r[i])
    {
      var i' := if i < k then i else i + 1;
      var j' := if j < k then j else j + 1;
      assert r[i] == s[i'] && r[j] == s[j'];
    }
  }

  /**
   * An item appended to a sorted list ends up last after sorting exactly when
   * the list is empty or the item need not precede its last item.
   */
  lemma AppendedLastAfterSort(s: seq<TodoItem>, x: TodoItem)
    requires Sorted(s)
    ensures |SortTodos(s + [x])| == |s| + 1
    ensures SortTodos(s + [x])[|s|] == x <==> (|s| == 0 || !Less(x, s[|s| - 1]))
  {
    assert (s + [x])[..|s|] == s;
    SortedIsFixpoint(s);
    assert SortTodos(s + [x]) == Insert(s, x);
    InsertPermutation(s, x);
    assert |Insert(s, x)| == |multiset(Insert(s, x))| == |s| + 1;
    if |s| > 0 && Less(x, s[|s| - 1]) {
      LessIrreflexive(x);
      InsertPermutation(s[..|s| - 1], x);
      assert |Insert(s[..|s| - 1], x)| == |multiset(Insert(s[..|s| - 1], x))| == |s|;
      assert Insert(s, x)[|s|] == s[|s| - 1];
    }
  }

  // ---------------------------------------------------------------------------
  // Identity and ties

  lemma {:induction false} InsertKeepsIdsUnique(s: seq<TodoItem>, x: TodoItem)
    requires UniqueIds(s) && x.id !in IdSet(s)
    ensures UniqueIds(Insert(s, x))
    decreases |s|
  {
    if |s| > 0 && Less(x, s[|s| - 1]) {
      var init, last := s[..|s| - 1], s[|s| - 1];
      assert IdSet(init) <= IdSet(s) by {
        forall y | y in init ensures y in s { }
      }
      InsertKeepsIdsUnique(init, x);
      InsertPermutation(init, x);
      var r := Insert(init, x);
      forall k | 0 <= k < |r|
        ensures r[k].id != last.id
      {
        assert r[k] in multiset(r);
        if r[k] != x {
          var m :| 0 <= m < |init| && init[m] == r[k];
          assert s[m] == r[k];
        }
      }
    } else if |s| > 0 {
      forall k | 0 <= k < |s| ensures s[k].id != x.id {
        assert s[k] in s;
      }
    }
  }

  /** Sorting never makes two items share an ID. */
  lemma {:induction false} SortKeepsIdsUnique(s: seq<TodoItem>)
    requires UniqueIds(s)
    ensures UniqueIds(SortTodos(s))
    decreases |s|
  {
    if |s| > 0 {
      var init, last := s[..|s| - 1], s[|s| - 1];
      SortKeepsIdsUnique(init);
      SortPermutation(init);
      var r := SortTodos(init);
      forall y | y in r
        ensures y.id != last.id
      {
        assert y in multiset(init);
        var m :| 0 <= m < |init| && init[m] == y;
        assert s[m] == y;
      }
      InsertKeepsIdsUnique(r, last);
    }
  }

  /**
   * Two sorted lists with the same items are equal when the comparator orders
   * every pair of different items.
   */
  lemma {:induction false} SortedPermutationsAgree(a: seq<TodoItem>, b: seq<TodoItem>)
    requires Sorted(a) && Sorted(b) && multiset(a) == multiset(b) && TieFree(a)
    ensures a == b
    decreases |a|
  {
    if |a| > 0 {
      assert |b| == |multiset(b)| == |a|;
      SortedHeadsAgree(a, b);
      MultisetTail(a, b);
      assert Sorted(a[1..]) && Sorted(b[1..]);
      SortedPermutationsAgree(a[1..], b[1..]);
      assert a == [a[0]] + a[1..] && b == [b[0]] + b[1..];
    }
  }

  lemma SortedHeadsAgree(a: seq<TodoItem>, b: seq<TodoItem>)
    requires Sorted(a) && Sorted(b) && multiset(a) == multiset(b) && TieFree(a)
    requires |a| > 0 && |b| > 0
    ensures a[0] == b[0]
  {
    assert b[0] in multiset(a) && a[0] in multiset(b);
    var i :| 0 <= i < |a| && a[i] == b[0];
    var j :| 0 <= j < |b| && b[j] == a[0];
    LessIrreflexive(a[0]);
    LessIrreflexive(b[0]);
    assert !Less(a[i], a[0]);
    assert !Less(b[j], b[0]);
    assert Equiv(a[0], b[0]) && a[0] in a && b[0] in a;
  }

  lemma MultisetTail(a: seq<TodoItem>, b: seq<TodoItem>)
    requires |a| > 0 && |b| > 0 && a[0] == b[0] && multiset(a) == multiset(b)
    ensures multiset(a[1..]) == multiset(b[1..])
  {
    assert a == [a[0]] + a[1..] && b == [b[0]] + b[1..];
    forall y
      ensures multiset(a[1..])[y] == multiset(b[1..])[y]
    {
      assert multiset(a)[y] == multiset{a[0]}[y] + multiset(a[1..])[y];
      assert multiset(b)[y] == multiset{b[0]}[y] + multiset(b[1..])[y];
    }
  }

  /** Two items tied on done, priority and deadline stay in input order whatever their titles. */
  lemma EqualDeadlinesKeepInputOrder()
    ensures
      var b := TodoItem("b", false, PriorityHigh, true, 100, "1");
      var a := TodoItem("a", false, PriorityHigh, true, 100, "2");
      SortTodos([b, a]) == [b, a]
  {
    var b := TodoItem("b", false, PriorityHigh, true, 100, "1");
    var a := TodoItem("a", false, PriorityHigh, true, 100, "2");
    assert [b, a][..1] == [b];
    assert [b][..0] == [];
    assert SortTodos([b]) == Insert([], b) == [b];
    assert !Less(a, b);
    assert Insert([b], a) == [b, a];
  }

  /** Without deadlines, the title decides among otherwise tied items. */
  lemma TitlesOrderItemsWithoutDeadline()
    ensures
      var b := TodoItem("b", false, PriorityLow, false, 0, "1");
      var a := TodoItem("a", false, PriorityLow, false, 0, "2");
      SortTodos([b, a]) == [a, b]
  {
    var b := TodoItem("b", false, PriorityLow, false, 0, "1");
    var a := TodoItem("a", false, PriorityLow, false, 0, "2");
    assert [b, a][..1] == [b];
    assert [b][..0] == [];
    assert SortTodos([b]) == Insert([], b) == [b];
    assert StrLess("a", "b");
    assert Less(a, b);
    assert Insert([b], a) == Insert([], a) + [b] == [a, b];
  }

  // ---------------------------------------------------------------------------
  // The in-place algorithm

  /** `TodoList.Sort`: sorts the slice in place, stably, by swapping neighbours. */
  method SortInPlace(a: array<TodoItem>)
    modifies a
    ensures a[..] == SortTodos(old(a[..]))
  {
    ghost var input := a[..];
    var i := 0;
    while i < a.Length
      invariant 0 <= i <= a.Length
      invariant a[..] == SortTodos(input[..i]) + input[i..]
    {
      ghost var sortedPrefix := SortTodos(input[..i]);
      assert input[i..] == [input[i]] + input[i + 1..];
      assert a[..i] == sortedPrefix && a[i] == input[i] && a[i + 1..] == input[i + 1..];
      InsertAt(a, i);
      assert input[..i + 1][..i] == input[..i];
      assert SortTodos(input[..i + 1]) == Insert(sortedPrefix, input[i]);
      i := i + 1;
    }
    assert input[..a.Length] == input;
  }

  /** Moves `a[i]` left past the items of the sorted prefix `a[..i]` it must precede. */
  method InsertAt(a: array<TodoItem>, i: nat)
    requires i < a.Length
    modifies a
    ensures a[..] == Insert(old(a[..i]), old(a[i])) + old(a[i + 1..])
  {
    ghost var p, rest := a[..i], a[i + 1..];
    var x := a[i];
    assert a[..] == p + [x] + rest;
    var j := i;
    assert p[..j] == p && p[j..] == [];
    while j > 0 && Less(a[j], a[j - 1])
      invariant 0 <= j <= i
      invariant a[..] == p[..j] + [x] + p[j..] + rest
      invariant Insert(p[..j], x) + p[j..] == Insert(p, x)
    {
      InsertStepBack(p, j, x);
      SwapShape(p, j, x, rest);
      ghost var before := a[..];
      a[j - 1], a[j] := a[j], a[j - 1];
      assert a[..] == before[j - 1 := x][j := p[j - 1]];
      j := j - 1;
    }
    if j > 0 {
      assert !Less(x, p[j - 1]);
    } else {
      assert p[..j] == [];
    }
    assert Insert(p[..j], x) == p[..j] + [x];
    assert a[..] == (p[..j] + [x] + p[j..]) + rest;
  }

  /** One swap of the insertion loop keeps the pending insertion equal to `Insert(p, x)`. */
  lemma InsertStepBack(p: seq<TodoItem>, j: nat, x: TodoItem)
    requires 0 < j <= |p| && Less(x, p[j - 1])
    ensures Insert(p[..j], x) + p[j..] == Insert(p[..j - 1], x) + p[j - 1..]
  {
    assert p[..j][..j - 1] == p[..j - 1];
    assert Insert(p[..j], x) == Insert(p[..j - 1], x) + [p[j - 1]];
    assert p[j - 1..] == [p[j - 1]] + p[j..];
  }

  lemma SwapShape(p: seq<TodoItem>, j: nat, x: TodoItem, rest: seq<TodoItem>)
    requires 0 < j <= |p|
    ensures var s := p[..j] + [x] + p[j..] + rest;
      s[j - 1] == p[j - 1] && s[j] == x &&
      s[j - 1 := x][j := p[j - 1]] == p[..j - 1] + [x] + p[j - 1..] + rest
  {
    var s := p[..j] + [x] + p[j..] + rest;
    var t := p[..j - 1] + [x] + p[j - 1..] + rest;
    assert |s| == |t|;
    forall k | 0 <= k < |s| ensures s[j - 1 := x][j := p[j - 1]][k] == t[k] {
    }
  }

  /** `items.Sort()` on a list value: copies it into an array and sorts that in place. */
  method SortList(s: seq<TodoItem>) returns (r: seq<TodoItem>)
    ensures r == SortTodos(s)
  {
    var a := new TodoItem[|s|](k requires 0 <= k < |s| => s[k]);
    assert a[..] == s;
    SortInPlace(a);
    r := a[..];
  }
}
