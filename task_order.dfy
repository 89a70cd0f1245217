/**
 * The orders in which the core lists tasks, and a stable sort by each.
 *
 * A stable sort is determined by its comparator: sorted, stable and a permutation of the input
 * pin the output down (`SortedStableUnique`), so the insertion sort below yields exactly what
 * Java's stable `stream().sorted(cmp)` yields for the same comparator.
 */
module TaskOrder {
  import opened Wrappers
  import opened Entities

  datatype SortDirection = ASC | DESC

  datatype Ordering =
    // `Comparator.comparing(TaskEntity::getDueDate)`, `.reversed()` for DESC
    | ByDueDate(direction: SortDirection)
    // the listings' `ORDER BY CASE WHEN t.isImportant = true THEN 0 ELSE 1 END ASC, t.dueDate ASC`
    | Natural

  /**
   * The due date compared by `ByDueDate`. A comparison with a missing date throws in the
   * source, and the filter refuses such a list before sorting it, so the stand-in 0 for a
   * missing date is never compared.
   */
  function DueKey(t: Task): int {
    if t.dueDate.Some? then t.dueDate.value else 0
  }

  /** The CASE expression of the listings' ORDER BY: important tasks rank 0, all others 1. */
  function Rank(t: Task): int {
    if t.isImportant == Some(true) then 0 else 1
  }

  /**
   * Due-date order within one rank. Where a database puts NULL is its own choice; this model
   * puts a missing date last, and the listings' contracts do not depend on it.
   */
  predicate DueNullsLast(x: Option<Date>, y: Option<Date>) {
    match (x, y)
    case (_, None) => true
    case (None, Some(_)) => false
    case (Some(a), Some(b)) => a <= b
  }

  /** `a` may precede `b` in a list sorted by `o`. */
  predicate Le(o: Ordering, a: Task, b: Task) {
    match o
    case ByDueDate(ASC) => DueKey(a) <= DueKey(b)
    case ByDueDate(DESC) => DueKey(b) <= DueKey(a)
    case Natural => Rank(a) < Rank(b) || (Rank(a) == Rank(b) && DueNullsLast(a.dueDate, b.dueDate))
  }

  /** Neither of `a` and `b` comes strictly before the other: the comparator returns 0. */
  predicate Equivalent(o: Ordering, a: Task, b: Task) {
    Le(o, a, b) && Le(o, b, a)
  }

  ghost predicate Sorted(o: Ordering, s: seq<Task>) {
    forall i, j :: 0 <= i < j < |s| ==> Le(o, s[i], s[j])
  }

  lemma LeTotal(o: Ordering, a: Task, b: Task)
    ensures Le(o, a, b) || Le(o, b, a)
  {
  }

  lemma LeTrans(o: Ordering, a: Task, b: Task, c: Task)
    requires Le(o, a, b) && Le(o, b, c)
    ensures Le(o, a, c)
  {
  }

  /** Insert `x` before the first element it may precede. */
  function Insert(o: Ordering, x: Task, r: seq<Task>): (q: seq<Task>)
    ensures Sorted(o, r) ==> Sorted(o, q)
    ensures multiset(q) == multiset(r) + multiset{x}
  {
    if r == [] then [x]
    else if Le(o, x, r[0]) then
      assert Sorted(o, r) ==> Sorted(o, [x] + r) by {
        if Sorted(o, r) {
          forall j | 0 <= j < |r| ensures Le(o, x, r[j]) {
            if j > 0 { LeTrans(o, x, r[0], r[j]); }
          }
          ConsSorted(o, x, r);
        }
      }
      [x] + r
    else
      var q' := Insert(o, x, r[1..]);
      assert r == [r[0]] + r[1..];
      assert Sorted(o, r) ==> Sorted(o, [r[0]] + q') by {
        if Sorted(o, r) {
          LeTotal(o, x, r[0]);
          HeadBelowAll(o, r, x, q');
          ConsSorted(o, r[0], q');
        }
      }
      [r[0]] + q'
  }

  /** A sorted list stays sorted under a head that may precede each of its elements. */
  lemma ConsSorted(o: Ordering, h: Task, q: seq<Task>)
    requires Sorted(o, q) && forall j :: 0 <= j < |q| ==> Le(o, h, q[j])
    ensures Sorted(o, [h] + q)
  {
    var p := [h] + q;
    forall i, j | 0 <= i < j < |p| ensures Le(o, p[i], p[j]) {
      assert p[j] == q[j - 1];
      if i > 0 { assert p[i] == q[i - 1]; }
    }
  }

  /** The head of a sorted list may precede its tail and anything it may precede. */
  lemma HeadBelowAll(o: Ordering, r: seq<Task>, x: Task, q: seq<Task>)
    requires r != [] && Sorted(o, r) && Le(o, r[0], x)
    requires multiset(q) == multiset(r[1..]) + multiset{x}
    ensures forall j :: 0 <= j < |q| ==> Le(o, r[0], q[j])
  {
    forall j | 0 <= j < |q| ensures Le(o, r[0], q[j]) {
      assert q[j] in multiset(q);
      if q[j] != x {
        assert q[j] in multiset(r[1..]);
        var k :| 0 <= k < |r[1..]| && r[1..][k] == q[j];
        assert r[k + 1] == q[j];
      }
    }
  }

  /** Stable insertion sort. */
  function Sort(o: Ordering, s: seq<Task>): (r: seq<Task>)
    ensures Sorted(o, r)
    ensures multiset(r) == multiset(s)
    ensures |r| == |s|
  {
    if s == [] then []
    else
      assert s == [s[0]] + s[1..];
      Insert(o, s[0], Sort(o, s[1..]))
  }

  /** The elements of `s` that `o` cannot tell apart from `x`, in their order in `s`. */
  function SameClass(o: Ordering, s: seq<Task>, x: Task): seq<Task> {
    if s == [] then []
    else (if Equivalent(o, s[0], x) then [s[0]] else []) + SameClass(o, s[1..], x)
  }

  lemma {:induction false} SameClassConcat(o: Ordering, a: seq<Task>, b: seq<Task>, x: Task)
    ensures SameClass(o, a + b, x) == SameClass(o, a, x) + SameClass(o, b, x)
  {
    if a != [] {
      assert (a + b)[1..] == a[1..] + b;
      SameClassConcat(o, a[1..], b, x);
    } else {
      assert a + b == b;
    }
  }

  lemma {:induction false} InsertStable(o: Ordering, y: Task, r: seq<Task>, x: Task)
    ensures SameClass(o, Insert(o, y, r), x) == SameClass(o, [y], x) + SameClass(o, r, x)
  {
    if r == [] {
    } else if Le(o, y, r[0]) {
      SameClassConcat(o, [y], r, x);
    } else {
      InsertStable(o, y, r[1..], x);
      InsertPastHead(o, y, r, x);
    }
  }

  /** The step of `InsertStable` where `y` is inserted past the head `r[0]`. */
  lemma InsertPastHead(o: Ordering, y: Task, r: seq<Task>, x: Task)
    requires r != [] && !Le(o, y, r[0])
    requires SameClass(o, Insert(o, y, r[1..]), x) == SameClass(o, [y], x) + SameClass(o, r[1..], x)
    ensures SameClass(o, Insert(o, y, r), x) == SameClass(o, [y], x) + SameClass(o, r, x)
  {
    var q' := Insert(o, y, r[1..]);
    var s0, sy, rest := SameClass(o, [r[0]], x), SameClass(o, [y], x), SameClass(o, r[1..], x);
    // y and r[0] are not both like x, or y could precede r[0]
    assert !(Equivalent(o, r[0], x) && Equivalent(o, y, x)) by {
      if Equivalent(o, r[0], x) && Equivalent(o, y, x) {
        LeTrans(o, y, x, r[0]);
      }
    }
    assert SameClass(o, Insert(o, y, r), x) == s0 + (sy + rest) by {
      assert Insert(o, y, r) == [r[0]] + q';
      SameClassConcat(o, [r[0]], q', x);
    }
    assert SameClass(o, r, x) == s0 + rest by {
      assert r == [r[0]] + r[1..];
      SameClassConcat(o, [r[0]], r[1..], x);
    }
    assert s0 + (sy + rest) == sy + (s0 + rest) by {
      SingletonClassesCommute(o, r[0], y, x);
      ConcatAssoc(s0, sy, rest);
      ConcatAssoc(sy, s0, rest);
    }
  }

  /**
   * Associativity of `+` on sequences, as a lemma of its own: instantiating it is cheaper for
   * the solver than rediscovering it inside a proof with many sequence terms.
   */
  lemma ConcatAssoc<T>(a: seq<T>, b: seq<T>, c: seq<T>)
    ensures a + (b + c) == (a + b) + c
  {
  }

  lemma SingletonClassesCommute(o: Ordering, u: Task, v: Task, x: Task)
    requires !(Equivalent(o, u, x) && Equivalent(o, v, x))
    ensures SameClass(o, [u], x) + SameClass(o, [v], x) == SameClass(o, [v], x) + SameClass(o, [u], x)
  {
    assert SameClass(o, [u], x) == if Equivalent(o, u, x) then [u] else [];
    assert SameClass(o, [v], x) == if Equivalent(o, v, x) then [v] else [];
  }

  /** Sorting keeps the relative order of the elements that `o` cannot tell apart. */
  lemma {:induction false} SortStable(o: Ordering, s: seq<Task>, x: Task)
    ensures SameClass(o, Sort(o, s), x) == SameClass(o, s, x)
  {
    if s != [] {
      SortStable(o, s[1..], x);
      InsertStable(o, s[0], Sort(o, s[1..]), x);
      assert s == [s[0]] + s[1..];
      SameClassConcat(o, [s[0]], s[1..], x);
    }
  }

  lemma {:induction false} SameClassMembers(o: Ordering, s: seq<Task>, x: Task, y: Task)
    ensures y in SameClass(o, s, x) <==> y in s && Equivalent(o, y, x)
  {
    if s != [] {
      SameClassMembers(o, s[1..], x, y);
      assert s == [s[0]] + s[1..];
    }
  }

  /**
   * Two lists sorted by `o` whose classes of indistinguishable elements coincide, in content
   * and order, are equal: a stable sort has exactly one possible output.
   */
  lemma {:induction false} SortedStableUnique(o: Ordering, a: seq<Task>, b: seq<Task>)
    requires Sorted(o, a) && Sorted(o, b)
    requires forall x :: SameClass(o, a, x) == SameClass(o, b, x)
    ensures a == b
  {
    if a == [] || b == [] {
      if a != [] {
        LeTotal(o, a[0], a[0]);
        SameClassMembers(o, a, a[0], a[0]);
        assert false;
      } else if b != [] {
        LeTotal(o, b[0], b[0]);
        SameClassMembers(o, b, b[0], b[0]);
        assert false;
      }
    } else {
      StableHeads(o, a, b);
      StableTails(o, a, b);
      SortedStableUnique(o, a[1..], b[1..]);
      assert a == [a[0]] + a[1..];
      assert b == [b[0]] + b[1..];
    }
  }

  /** Two nonempty sorted lists with the same classes start with the same task. */
  lemma StableHeads(o: Ordering, a: seq<Task>, b: seq<Task>)
    requires a != [] && b != [] && Sorted(o, a) && Sorted(o, b)
    requires forall x :: SameClass(o, a, x) == SameClass(o, b, x)
    ensures a[0] == b[0]
  {
    // a[0] occurs in b and b[0] occurs in a, so each may precede the other
    LeTotal(o, a[0], a[0]);
    LeTotal(o, b[0], b[0]);
    SameClassMembers(o, a, a[0], a[0]);
    SameClassMembers(o, b, a[0], a[0]);
    SameClassMembers(o, b, b[0], b[0]);
    SameClassMembers(o, a, b[0], b[0]);
    var i :| 0 <= i < |a| && a[i] == b[0];
    var j :| 0 <= j < |b| && b[j] == a[0];
    if i > 0 { assert Le(o, a[0], a[i]); }
    if j > 0 { assert Le(o, b[0], b[j]); }
    assert Equivalent(o, a[0], b[0]);
    assert SameClass(o, a, a[0])[0] == a[0];
    assert SameClass(o, b, a[0])[0] == b[0];
  }

  /** Removing a common head keeps the classes of two lists equal. */
  lemma StableTails(o: Ordering, a: seq<Task>, b: seq<Task>)
    requires a != [] && b != [] && a[0] == b[0]
    requires forall x :: SameClass(o, a, x) == SameClass(o, b, x)
    ensures forall x :: SameClass(o, a[1..], x) == SameClass(o, b[1..], x)
  {
    forall x ensures SameClass(o, a[1..], x) == SameClass(o, b[1..], x) {
      var c := if Equivalent(o, a[0], x) then [a[0]] else [];
      assert SameClass(o, a, x) == c + SameClass(o, a[1..], x);
      assert SameClass(o, b, x) == c + SameClass(o, b[1..], x);
      assert SameClass(o, a[1..], x) == SameClass(o, a, x)[|c|..];
      assert SameClass(o, b[1..], x) == SameClass(o, b, x)[|c|..];
    }
  }

  /** `Sort` is the stable sort: any sorted, stable rearrangement of `s` is `Sort(o, s)`. */
  lemma SortIsTheStableSort(o: Ordering, s: seq<Task>, r: seq<Task>)
    requires Sorted(o, r)
    requires forall x :: SameClass(o, r, x) == SameClass(o, s, x)
    ensures r == Sort(o, s)
  {
    forall x ensures SameClass(o, r, x) == SameClass(o, Sort(o, s), x) {
      SortStable(o, s, x);
    }
    SortedStableUnique(o, r, Sort(o, s));
  }

  /** Two lists sorted by `o` with the same elements are equal when `o` tells all of them apart. */
  lemma {:induction false} SortedUnique(o: Ordering, a: seq<Task>, b: seq<Task>)
    requires Sorted(o, a) && Sorted(o, b) && multiset(a) == multiset(b)
    requires forall x, y :: x in a && y in a && Equivalent(o, x, y) ==> x == y
    ensures a == b
  {
    if a == [] {
      assert |multiset(b)| == 0;
    } else {
      assert |multiset(b)| == |multiset(a)| > 0;
      SortedHeads(o, a, b);
      TailMultiset(a, b);
      assert forall i :: 0 <= i < |a[1..]| ==> a[1..][i] == a[i + 1];
      SortedUnique(o, a[1..], b[1..]);
      assert a == [a[0]] + a[1..];
      assert b == [b[0]] + b[1..];
    }
  }

  /** Two nonempty sorted lists with the same elements start alike when `o` tells them apart. */
  lemma SortedHeads(o: Ordering, a: seq<Task>, b: seq<Task>)
    requires a != [] && b != [] && Sorted(o, a) && Sorted(o, b) && multiset(a) == multiset(b)
    requires forall x, y :: x in a && y in a && Equivalent(o, x, y) ==> x == y
    ensures a[0] == b[0]
  {
    assert a[0] in multiset(b) && b[0] in multiset(a);
    var i :| 0 <= i < |a| && a[i] == b[0];
    var j :| 0 <= j < |b| && b[j] == a[0];
    LeTotal(o, a[0], a[0]);
    LeTotal(o, b[0], b[0]);
    assert Le(o, a[0], a[i]);
    assert Le(o, b[0], b[j]);
    assert Equivalent(o, a[0], b[0]);
    assert a[0] in a && b[0] in a;
  }

  /** Removing equal heads keeps two lists' multisets equal. */
  lemma TailMultiset<T>(a: seq<T>, b: seq<T>)
    requires a != [] && b != [] && a[0] == b[0] && multiset(a) == multiset(b)
    ensures multiset(a[1..]) == multiset(b[1..])
  {
    assert a == [a[0]] + a[1..];
    assert b == [b[0]] + b[1..];
    assert multiset(a) == multiset{a[0]} + multiset(a[1..]);
    assert multiset(b) == multiset{b[0]} + multiset(b[1..]);
    assert multiset(a[1..]) == multiset(a) - multiset{a[0]};
    assert multiset(b[1..]) == multiset(b) - multiset{b[0]};
  }

  /** `s` backwards. */
  function Reverse(s: seq<Task>): (r: seq<Task>)
    ensures |r| == |s|
    ensures forall i :: 0 <= i < |s| ==> r[i] == s[|s| - 1 - i]
    ensures multiset(r) == multiset(s)
  {
    if s == [] then []
    else
      assert s == [s[0]] + s[1..];
      Reverse(s[1..]) + [s[0]]
  }

  /** A list in ascending due-date order, backwards, is in descending order. */
  lemma ReverseAscIsDesc(s: seq<Task>)
    requires Sorted(ByDueDate(ASC), s)
    ensures Sorted(ByDueDate(DESC), Reverse(s))
  {
    var r := Reverse(s);
    forall i, j | 0 <= i < j < |r| ensures Le(ByDueDate(DESC), r[i], r[j]) {
      assert r[i] == s[|s| - 1 - i] && r[j] == s[|s| - 1 - j];
    }
  }

  /** No two different tasks of `s` share a due date, and every task of `s` has one. */
  ghost predicate DistinctDueDates(s: seq<Task>) {
    (forall x :: x in s ==> x.dueDate.Some?)
    && forall x, y :: x in s && y in s && x.dueDate == y.dueDate ==> x == y
  }

  /**
   * With distinct due dates the descending sort is the ascending one backwards; with shared
   * dates it is not, as both keep the input order of each date's tasks.
   */
  lemma DescIsReverseOfAsc(s: seq<Task>)
    requires DistinctDueDates(s)
    ensures Sort(ByDueDate(DESC), s) == Reverse(Sort(ByDueDate(ASC), s))
  {
    var asc, desc := Sort(ByDueDate(ASC), s), Sort(ByDueDate(DESC), s);
    var rev := Reverse(asc);
    ReverseAscIsDesc(asc);
    forall x, y | x in desc && y in desc && Equivalent(ByDueDate(DESC), x, y)
      ensures x == y
    {
      assert x in multiset(s) && y in multiset(s);
    }
    SortedUnique(ByDueDate(DESC), desc, rev);
  }

  /** The tasks of `s` due on `d`, in their order in `s`. */
  function DueOn(s: seq<Task>, d: Option<Date>): (r: seq<Task>)
    ensures forall t :: t in r <==> t in s && t.dueDate == d
  {
    if s == [] then []
    else (if s[0].dueDate == d then [s[0]] else []) + DueOn(s[1..], d)
  }

  lemma {:induction false} DueOnConcat(a: seq<Task>, b: seq<Task>, d: Option<Date>)
    ensures DueOn(a + b, d) == DueOn(a, d) + DueOn(b, d)
  {
    if a == [] {
      assert a + b == b;
    } else {
      assert (a + b)[0] == a[0] && (a + b)[1..] == a[1..] + b;
      DueOnConcat(a[1..], b, d);
    }
  }

  /** When every date is present, the tasks `ByDueDate` cannot tell apart are those due the same day. */
  lemma {:induction false} ClassIsDueDate(dir: SortDirection, s: seq<Task>, x: Task)
    requires forall t :: t in s ==> t.dueDate.Some?
    requires x.dueDate.Some?
    ensures SameClass(ByDueDate(dir), s, x) == DueOn(s, x.dueDate)
  {
    if s != [] {
      assert s[0] in s;
      assert forall t :: t in s[1..] ==> t in s;
      ClassIsDueDate(dir, s[1..], x);
    }
  }
}
