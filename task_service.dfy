/**
 * TaskService: task CRUD over the task table, and the importance filter with its due-date sort.
 */
module TaskService {
  import opened Wrappers
  import opened Entities
  import opened Errors
  import opened Tables
  import opened TaskOrder
  import opened TaskRepository

  /** `createTask`: the task is saved with its importance flag forced to false. */
  method CreateTask(store: TaskStore, task: Task) returns (saved: Task)
    requires store.Valid()
    modifies store
    ensures store.Valid()
    ensures saved == task.(isImportant := Some(false), id := Some(SaveKey(old(store.tasks), task.id, old(store.nextId))))
    ensures store.tasks == old(store.tasks)[saved.id.value := saved]
    ensures store.nextId == if saved.id.value in old(store.tasks) then old(store.nextId) else old(store.nextId) + 1
  {
    saved := store.Save(task.(isImportant := Some(false)));
  }

  /**
   * A task built by the no-argument constructor and passed to `createTask` is inserted under
   * the next key with priority 1, importance false, and no project, position or owner.
   */
  lemma CreateNewTaskDefaults(tasks: map<TaskId, Task>, nextId: TaskId, title: string, description: string,
                              status: string, dueDate: Option<Date>)
    requires forall j :: j in tasks ==> j < nextId
    ensures var t := NewTask(title, description, status, dueDate);
      var saved := t.(isImportant := Some(false), id := Some(SaveKey(tasks, t.id, nextId)));
      saved == Task(Some(nextId), title, description, status, dueDate, Some(1), None, None, Some(false), None)
      && nextId !in tasks
  {
  }

  /** `getAllTasks`: the tasks of no project, each once, important first and by due date. */
  function GetAllTasks(tasks: map<TaskId, Task>): (r: seq<Task>)
    requires TasksKeyed(tasks)
    ensures forall t :: t in r <==> t in tasks.Values && t.projectId == None
    ensures forall i, j :: 0 <= i < j < |r| ==> r[i] != r[j]
    ensures NaturallyOrdered(r)
  {
    FindAllGlobal(tasks)
  }

  /** `getTaskById`. */
  function GetTaskById(tasks: map<TaskId, Task>, id: TaskId): (r: Result<Task, Error>)
    ensures r.Ok? <==> id in tasks
    ensures r.Ok? ==> r.value == tasks[id]
    ensures r.Err? ==> r.error == TaskNotFound(NoTaskWithId(id))
  {
    if id in tasks then Ok(tasks[id]) else Err(TaskNotFound(NoTaskWithId(id)))
  }

  /** The five setter calls of `updateTaskById`: the patch's fields over the stored task. */
  function ApplyUpdate(existing: Task, patch: Task): (t: Task)
    ensures t.title == patch.title && t.description == patch.description && t.dueDate == patch.dueDate
    ensures t.status == patch.status && t.isImportant == patch.isImportant
    ensures t.id == existing.id && t.priority == existing.priority && t.projectId == existing.projectId
    ensures t.position == existing.position && t.owner == existing.owner
  {
    existing.(title := patch.title, description := patch.description, dueDate := patch.dueDate,
              status := patch.status, isImportant := patch.isImportant)
  }

  /** Applying the same patch twice is applying it once. */
  lemma ApplyUpdateIdempotent(existing: Task, patch: Task)
    ensures ApplyUpdate(ApplyUpdate(existing, patch), patch) == ApplyUpdate(existing, patch)
  {
  }

  /** A patch carrying the stored task's own values changes nothing. */
  lemma ApplyUpdateOwnValues(existing: Task)
    ensures ApplyUpdate(existing, existing) == existing
  {
  }

  /** `updateTaskById`: a missing id fails and writes nothing; otherwise the patched task is merged. */
  method UpdateTaskById(store: TaskStore, id: TaskId, task: Task) returns (r: Result<Task, Error>)
    requires store.Valid()
    modifies store
    ensures store.Valid()
    ensures r == if id in old(store.tasks) then Ok(ApplyUpdate(old(store.tasks)[id], task))
                 else Err(TaskNotFound(NoTaskWithId(id)))
    ensures store.tasks == if r.Ok? then old(store.tasks)[id := r.value] else old(store.tasks)
    ensures store.nextId == old(store.nextId)
  {
    var existing := GetTaskById(store.tasks, id);
    if existing.Err? {
      return Err(existing.error);
    }
    var saved := store.Save(ApplyUpdate(existing.value, task));
    return Ok(saved);
  }

  /**
   * `deleteTaskById`: the task is removed (a missing id removes nothing) and the ids of the
   * remaining tasks of no project, in listing order, are returned as the reorder request's
   * `orderedIds`. The request is not dispatched, so no other task changes.
   */
  method DeleteTaskById(store: TaskStore, id: TaskId) returns (orderedIds: seq<Option<TaskId>>)
    requires store.Valid()
    modifies store
    ensures store.Valid()
    ensures store.tasks == old(store.tasks) - {id} && store.nextId == old(store.nextId)
    ensures orderedIds == Ids(FindAllGlobal(store.tasks))
  {
    store.DeleteById(id);
    orderedIds := Ids(FindAllGlobal(store.tasks));
  }

  /** After `deleteTaskById(id)` the built `orderedIds` are the remaining tasks of no project. */
  lemma DeleteTaskRelist(tasks: map<TaskId, Task>, id: TaskId)
    requires TasksKeyed(tasks)
    ensures var ids := Ids(FindAllGlobal(tasks - {id}));
      && Some(id) !in ids && None !in ids
      && (forall k :: Some(k) in ids <==> k in tasks && k != id && tasks[k].projectId == None)
      && forall i, j :: 0 <= i < j < |ids| ==> ids[i] != ids[j]
  {
    ListingIds(tasks - {id}, None);
  }

  /** The importance filter's constants. */
  datatype ImportanceFilter = IMPORTANT_ONLY | NORMAL_ONLY | ALL

  /** The filter's lambda: only a flag that is `Boolean.TRUE` counts as important. */
  predicate Keeps(f: ImportanceFilter, t: Task) {
    var imp := t.isImportant == Some(true);
    match f
    case IMPORTANT_ONLY => imp
    case NORMAL_ONLY => !imp
    case ALL => true
  }

  /** The tasks of `s` that pass `f`, in their order in `s`, each as often as in `s`. */
  function FilterBy(f: ImportanceFilter, s: seq<Task>): (r: seq<Task>)
    ensures forall t :: multiset(r)[t] == if Keeps(f, t) then multiset(s)[t] else 0
    ensures forall t :: t in r <==> t in s && Keeps(f, t)
  {
    if s == [] then []
    else
      assert s == [s[0]] + s[1..];
      var r := (if Keeps(f, s[0]) then [s[0]] else []) + FilterBy(f, s[1..]);
      assert forall t :: t in r <==> t in multiset(r);
      assert forall t :: t in s <==> t in multiset(s);
      r
  }

  /** Filtering a concatenation filters each part: the filter keeps the input order. */
  lemma {:induction false} FilterConcat(f: ImportanceFilter, a: seq<Task>, b: seq<Task>)
    ensures FilterBy(f, a + b) == FilterBy(f, a) + FilterBy(f, b)
  {
    if a == [] {
      assert a + b == b;
    } else {
      var h := if Keeps(f, a[0]) then [a[0]] else [];
      assert (a + b)[0] == a[0] && (a + b)[1..] == a[1..] + b;
      FilterConcat(f, a[1..], b);
      assert FilterBy(f, a + b) == h + FilterBy(f, a[1..] + b);
      assert FilterBy(f, a) == h + FilterBy(f, a[1..]);
      ConcatAssoc(h, FilterBy(f, a[1..]), FilterBy(f, b));
    }
  }

  /** Filtering by importance and selecting one due date commute, so both keep the input order. */
  lemma {:induction false} FilterDueOn(f: ImportanceFilter, s: seq<Task>, d: Option<Date>)
    ensures DueOn(FilterBy(f, s), d) == FilterBy(f, DueOn(s, d))
  {
    if s != [] {
      var h := if Keeps(f, s[0]) then [s[0]] else [];
      var e := if s[0].dueDate == d then [s[0]] else [];
      FilterDueOn(f, s[1..], d);
      assert FilterBy(f, s) == h + FilterBy(f, s[1..]);
      assert DueOn(s, d) == e + DueOn(s[1..], d);
      DueOnConcat(h, FilterBy(f, s[1..]), d);
      FilterConcat(f, e, DueOn(s[1..], d));
      FilterDueOnOne(f, s[0], d);
    }
  }

  /** `FilterDueOn` for a single task. */
  lemma FilterDueOnOne(f: ImportanceFilter, x: Task, d: Option<Date>)
    ensures DueOn(if Keeps(f, x) then [x] else [], d) == FilterBy(f, if x.dueDate == d then [x] else [])
  {
    assert [x][1..] == [];
  }

  /** Every pair is dated and in due-date order for `dir`. */
  ghost predicate DueOrdered(dir: SortDirection, s: seq<Task>) {
    forall i, j :: 0 <= i < j < |s| ==>
      s[i].dueDate.Some? && s[j].dueDate.Some?
      && if dir == ASC then s[i].dueDate.value <= s[j].dueDate.value
         else s[j].dueDate.value <= s[i].dueDate.value
  }

  /** Some task among those to be sorted has no due date. */
  predicate HasUndated(s: seq<Task>) {
    exists t :: t in s && t.dueDate == None
  }

  /**
   * `getTasksWithFilters` over the list `findAll` returned. Sorting two or more tasks compares
   * every one of them, so an undated one among them makes `Comparator.comparing` throw; zero or
   * one task is returned without a comparison.
   */
  function GetTasksWithFilters(all: seq<Task>, importance: ImportanceFilter, dir: SortDirection)
    : (r: Result<seq<Task>, Error>)
    ensures r.Err? <==> |FilterBy(importance, all)| >= 2 && HasUndated(FilterBy(importance, all))
    ensures r.Err? ==> r.error == NullDueDate
    ensures r.Ok? ==> forall t :: multiset(r.value)[t] == if Keeps(importance, t) then multiset(all)[t] else 0
    ensures r.Ok? ==> DueOrdered(dir, r.value)
    ensures r.Ok? ==> forall d :: DueOn(r.value, d) == DueOn(FilterBy(importance, all), d)
    ensures r.Ok? ==> forall d :: DueOn(r.value, d) == FilterBy(importance, DueOn(all, d))
  {
    var kept := FilterBy(importance, all);
    if |kept| >= 2 && HasUndated(kept) then Err(NullDueDate)
    else
      assert forall d :: DueOn(kept, d) == FilterBy(importance, DueOn(all, d)) by {
        forall d ensures DueOn(kept, d) == FilterBy(importance, DueOn(all, d)) {
          FilterDueOn(importance, all, d);
        }
      }
      var r := Sort(ByDueDate(dir), kept);
      if |kept| < 2 then
        SortShort(ByDueDate(dir), kept);
        Ok(r)
      else
        SortByDueOrdered(dir, kept);
        SortByDueStable(dir, kept);
        Ok(r)
  }

  /** Zero or one task sorts to itself. */
  lemma SortShort(o: Ordering, s: seq<Task>)
    requires |s| < 2
    ensures Sort(o, s) == s
  {
    if |s| == 1 {
      assert s[1..] == [];
    }
  }

  lemma SortByDueOrdered(dir: SortDirection, s: seq<Task>)
    requires !HasUndated(s)
    ensures DueOrdered(dir, Sort(ByDueDate(dir), s))
  {
    var r := Sort(ByDueDate(dir), s);
    forall t | t in r
      ensures t.dueDate.Some?
    {
      assert t in multiset(s);
    }
    forall i, j | 0 <= i < j < |r|
      ensures if dir == ASC then r[i].dueDate.value <= r[j].dueDate.value
              else r[j].dueDate.value <= r[i].dueDate.value
    {
      assert r[i] in r && r[j] in r;
      assert Le(ByDueDate(dir), r[i], r[j]);
    }
  }

  lemma SortByDueStable(dir: SortDirection, s: seq<Task>)
    requires !HasUndated(s)
    ensures forall d :: DueOn(Sort(ByDueDate(dir), s), d) == DueOn(s, d)
  {
    var r := Sort(ByDueDate(dir), s);
    forall t | t in r ensures t.dueDate.Some? {
      assert t in multiset(s);
    }
    forall d ensures DueOn(r, d) == DueOn(s, d) {
      if d.Some? {
        var x := Task(None, "", "", "", d, None, None, None, None, None);
        SortStable(ByDueDate(dir), s, x);
        ClassIsDueDate(dir, r, x);
        ClassIsDueDate(dir, s, x);
      } else {
        NoneDue(r);
        NoneDue(s);
      }
    }
  }

  /** A list of dated tasks has none due on `None`. */
  lemma NoneDue(s: seq<Task>)
    requires forall t :: t in s ==> t.dueDate.Some?
    ensures DueOn(s, None) == []
  {
    var e := DueOn(s, None);
    assert forall t :: t !in e;
  }

  /** The important and the normal tasks split the input: together all of it, in common nothing. */
  lemma FiltersPartition(all: seq<Task>)
    ensures multiset(FilterBy(IMPORTANT_ONLY, all)) + multiset(FilterBy(NORMAL_ONLY, all))
            == multiset(FilterBy(ALL, all)) == multiset(all)
    ensures multiset(FilterBy(IMPORTANT_ONLY, all)) * multiset(FilterBy(NORMAL_ONLY, all)) == multiset{}
  {
    FiltersCover(all);
    FilterAllKeepsAll(all);
    FiltersDisjoint(all);
  }

  /** Every task passes exactly one of IMPORTANT_ONLY and NORMAL_ONLY. */
  lemma FiltersCover(all: seq<Task>)
    ensures multiset(FilterBy(IMPORTANT_ONLY, all)) + multiset(FilterBy(NORMAL_ONLY, all)) == multiset(all)
  {
    var i, n := multiset(FilterBy(IMPORTANT_ONLY, all)), multiset(FilterBy(NORMAL_ONLY, all));
    forall t ensures (i + n)[t] == multiset(all)[t] {
      assert Keeps(IMPORTANT_ONLY, t) != Keeps(NORMAL_ONLY, t);
    }
  }

  /** ALL drops nothing. */
  lemma FilterAllKeepsAll(all: seq<Task>)
    ensures multiset(FilterBy(ALL, all)) == multiset(all)
  {
    var a := multiset(FilterBy(ALL, all));
    forall t ensures a[t] == multiset(all)[t] {
      assert Keeps(ALL, t);
    }
  }

  /** No task passes both IMPORTANT_ONLY and NORMAL_ONLY. */
  lemma FiltersDisjoint(all: seq<Task>)
    ensures multiset(FilterBy(IMPORTANT_ONLY, all)) * multiset(FilterBy(NORMAL_ONLY, all)) == multiset{}
  {
    var i, n := multiset(FilterBy(IMPORTANT_ONLY, all)), multiset(FilterBy(NORMAL_ONLY, all));
    forall t ensures (i * n)[t] == 0 {
      assert Keeps(IMPORTANT_ONLY, t) != Keeps(NORMAL_ONLY, t);
    }
  }

  /**
   * Whenever listing ALL succeeds, listing the important and the normal tasks succeeds too,
   * and the two results together are the ALL result, with nothing in common.
   */
  lemma FilteredResultsPartition(all: seq<Task>, dir: SortDirection)
    requires GetTasksWithFilters(all, ALL, dir).Ok?
    ensures GetTasksWithFilters(all, IMPORTANT_ONLY, dir).Ok?
    ensures GetTasksWithFilters(all, NORMAL_ONLY, dir).Ok?
    ensures multiset(GetTasksWithFilters(all, IMPORTANT_ONLY, dir).value)
            + multiset(GetTasksWithFilters(all, NORMAL_ONLY, dir).value)
            == multiset(GetTasksWithFilters(all, ALL, dir).value)
    ensures multiset(GetTasksWithFilters(all, IMPORTANT_ONLY, dir).value)
            * multiset(GetTasksWithFilters(all, NORMAL_ONLY, dir).value) == multiset{}
  {
    FiltersPartition(all);
    var i, n, a := FilterBy(IMPORTANT_ONLY, all), FilterBy(NORMAL_ONLY, all), FilterBy(ALL, all);
    SubFilterOk(all, IMPORTANT_ONLY, dir);
    SubFilterOk(all, NORMAL_ONLY, dir);
    var ri, rn, ra := GetTasksWithFilters(all, IMPORTANT_ONLY, dir), GetTasksWithFilters(all, NORMAL_ONLY, dir),
                      GetTasksWithFilters(all, ALL, dir);
    assert multiset(ri.value) == multiset(i) && multiset(rn.value) == multiset(n) && multiset(ra.value) == multiset(a) by {
      forall t ensures multiset(ri.value)[t] == multiset(i)[t] && multiset(rn.value)[t] == multiset(n)[t]
                    && multiset(ra.value)[t] == multiset(a)[t] {
      }
    }
  }

  /** A filter keeps at most what ALL keeps, so it fails only where ALL fails. */
  lemma SubFilterOk(all: seq<Task>, f: ImportanceFilter, dir: SortDirection)
    requires GetTasksWithFilters(all, ALL, dir).Ok?
    ensures GetTasksWithFilters(all, f, dir).Ok?
  {
    FiltersPartition(all);
  }

  /**
   * With distinct due dates, DESC lists exactly the ASC result backwards. (With a shared date
   * both keep that date's tasks in input order, so DESC is not the reverse then.)
   */
  lemma DescIsReverseOfAscResult(all: seq<Task>, f: ImportanceFilter)
    requires forall x, y :: x in FilterBy(f, all) && y in FilterBy(f, all) && x.dueDate == y.dueDate ==> x == y
    ensures GetTasksWithFilters(all, f, ASC).Ok? <==> GetTasksWithFilters(all, f, DESC).Ok?
    ensures GetTasksWithFilters(all, f, ASC).Ok? ==>
              GetTasksWithFilters(all, f, DESC).value == Reverse(GetTasksWithFilters(all, f, ASC).value)
  {
    var kept := FilterBy(f, all);
    if GetTasksWithFilters(all, f, ASC).Ok? {
      if |kept| < 2 {
        SortShort(ByDueDate(ASC), kept);
        SortShort(ByDueDate(DESC), kept);
        if |kept| == 1 {
          assert Reverse(kept) == kept;
        }
      } else {
        DescIsReverseOfAsc(kept);
      }
    }
  }
}
