/** Task entity, enumerations and the canonical comparator of the todo list (types.go). */
module TodoTypes {

  /** A point on the time line, in seconds. Go's `time.Time` is abstracted to its instant. */
  type Instant = int

  /** Go's `type Priority int`: any integer can be stored, three values are named. */
  type Priority = int

  const PriorityLow: Priority := 0     // shown as P2
  const PriorityMedium: Priority := 1  // shown as P1
  const PriorityHigh: Priority := 2    // shown as P0

  predicate IsNamedPriority(p: Priority) {
    PriorityLow <= p <= PriorityHigh
  }

  /** `Priority.String`: the label P0/P1/P2 counts down from High, anything else is "?". */
  function PriorityString(p: Priority): (s: string)
    ensures IsNamedPriority(p) ==> s == ['P', ('0' as int + (PriorityHigh - p)) as char]
    ensures !IsNamedPriority(p) <==> s == "?"
  {
    if p == PriorityHigh then "P0"
    else if p == PriorityMedium then "P1"
    else if p == PriorityLow then "P2"
    else "?"
  }

  /** The interaction mode of the model. */
  datatype Mode = ModeNormal | ModeInputTitle | ModePickDate | ModePickPriority

  /** Which flow the current input or picker belongs to. */
  datatype InputContext =
    | InputContextNone
    | InputContextAddTitle
    | InputContextEditTitle
    | InputContextAddPriority
    | InputContextEditPriority

  /** Go's `type DateField int`: the field of the date picker under focus. */
  type DateField = int

  const DateFieldYear: DateField := 0
  const DateFieldMonth: DateField := 1
  const DateFieldDay: DateField := 2
  const DateFieldHour: DateField := 3
  const DateFieldMinute: DateField := 4
  const DateFieldSecond: DateField := 5

  /** One task. `deadline` is meaningful only when `hasDeadline` holds. */
  datatype TodoItem = TodoItem(
    title: string,
    done: bool,
    priority: Priority,
    hasDeadline: bool,
    deadline: Instant,
    id: string)

  /** The zero value `TodoItem{}` of Go. */
  const EmptyItem := TodoItem("", false, PriorityLow, false, 0, "")

  /** `IsOverdue`, with the clock reading passed in as `now`. */
  predicate IsOverdue(item: TodoItem, now: Instant)
  {
    !item.done && item.hasDeadline && now > item.deadline
  }

  lemma OverdueNeedsOpenDeadline(item: TodoItem, now: Instant)
    ensures item.done || !item.hasDeadline ==> !IsOverdue(item, now)
    ensures !item.done && item.hasDeadline ==> (IsOverdue(item, now) <==> item.deadline < now)
  {
  }

  /** What `DeadlineString` shows: a dash, or the deadline in the fixed date-time layout. */
  datatype DeadlineText = Dash | Formatted(at: Instant)

  function DeadlineString(item: TodoItem): (t: DeadlineText)
    ensures t == Dash <==> !item.hasDeadline
    ensures t.Formatted? ==> t.at == item.deadline
  {
    if !item.hasDeadline then Dash else Formatted(item.deadline)
  }

  // ---------------------------------------------------------------------------
  // Title order

  /** Go's `a < b` on strings: lexicographic, a proper prefix comes first. */
  predicate StrLess(a: string, b: string)
    decreases |a|
  {
    if |a| == 0 then |b| > 0
    else if |b| == 0 then false
    else if a[0] != b[0] then a[0] < b[0]
    else StrLess(a[1..], b[1..])
  }

  lemma {:induction false} StrLessIrreflexive(a: string)
    ensures !StrLess(a, a)
    decreases |a|
  {
    if |a| > 0 {
      StrLessIrreflexive(a[1..]);
    }
  }

  lemma {:induction false} StrLessTransitive(a: string, b: string, c: string)
    requires StrLess(a, b) && StrLess(b, c)
    ensures StrLess(a, c)
    decreases |a|
  {
    if |a| > 0 && |b| > 0 && |c| > 0 && a[0] == b[0] && b[0] == c[0] {
      StrLessTransitive(a[1..], b[1..], c[1..]);
    }
  }

  lemma {:induction false} StrLessTotal(a: string, b: string)
    ensures a == b || StrLess(a, b) || StrLess(b, a)
    decreases |a|
  {
    if |a| > 0 && |b| > 0 && a[0] == b[0] {
      StrLessTotal(a[1..], b[1..]);
      if a[1..] == b[1..] {
        assert a == [a[0]] + a[1..] && b == [b[0]] + b[1..];
      }
    }
  }

  lemma StrLessAsymmetric(a: string, b: string)
    requires StrLess(a, b)
    ensures !StrLess(b, a)
  {
    if StrLess(b, a) {
      StrLessTransitive(a, b, a);
      StrLessIrreflexive(a);
    }
  }

  // ---------------------------------------------------------------------------
  // The canonical comparator of `TodoList.Sort`

  /**
   * `a` must come before `b`: not done first, then higher priority, then having
   * a deadline, then (both with a deadline) the strictly earlier deadline, and
   * only when neither has a deadline the smaller title.
   */
  predicate Less(a: TodoItem, b: TodoItem)
  {
    if a.done != b.done then !a.done && b.done
    else if a.priority != b.priority then a.priority > b.priority
    else if a.hasDeadline != b.hasDeadline then a.hasDeadline && !b.hasDeadline
    else if a.hasDeadline && b.hasDeadline then a.deadline < b.deadline
    else StrLess(a.title, b.title)
  }

  /** Neither item has to precede the other: the stable sort keeps them in input order. */
  predicate Equiv(a: TodoItem, b: TodoItem)
  {
    !Less(a, b) && !Less(b, a)
  }

  lemma LessIrreflexive(a: TodoItem)
    ensures !Less(a, a)
  {
    StrLessIrreflexive(a.title);
  }

  lemma LessAsymmetric(a: TodoItem, b: TodoItem)
    requires Less(a, b)
    ensures !Less(b, a)
  {
    if !a.hasDeadline && !b.hasDeadline && a.done == b.done && a.priority == b.priority {
      StrLessAsymmetric(a.title, b.title);
    }
  }

  lemma LessTransitive(a: TodoItem, b: TodoItem, c: TodoItem)
    requires Less(a, b) && Less(b, c)
    ensures Less(a, c)
  {
    if a.done == b.done == c.done && a.priority == b.priority == c.priority
       && !a.hasDeadline && !b.hasDeadline && !c.hasDeadline {
      StrLessTransitive(a.title, b.title, c.title);
    }
  }

  /** "May precede" is transitive: the comparator is a strict weak order. */
  lemma NotLessTransitive(a: TodoItem, b: TodoItem, c: TodoItem)
    requires !Less(b, a) && !Less(c, b)
    ensures !Less(c, a)
  {
    if a.done == b.done == c.done && a.priority == b.priority == c.priority
       && !a.hasDeadline && !b.hasDeadline && !c.hasDeadline {
      StrLessTotal(a.title, b.title);
      StrLessTotal(b.title, c.title);
      if StrLess(c.title, a.title) {
        if a.title == b.title {
        } else if b.title == c.title {
        } else if StrLess(a.title, b.title) {
          StrLessTransitive(c.title, a.title, b.title);
        } else {
          StrLessTransitive(b.title, c.title, a.title);
        }
      }
    }
  }

  lemma EquivTransitive(a: TodoItem, b: TodoItem, c: TodoItem)
    requires Equiv(a, b) && Equiv(b, c)
    ensures Equiv(a, c)
  {
    NotLessTransitive(a, b, c);
    NotLessTransitive(c, b, a);
  }

  /** Two items equal on every compared key but `title`, both with the same deadline, are equivalent. */
  lemma EqualDeadlinesAreEquivalent(a: TodoItem, b: TodoItem)
    requires a.done == b.done && a.priority == b.priority
    requires a.hasDeadline && b.hasDeadline && a.deadline == b.deadline
    ensures Equiv(a, b)
  {
  }
}
